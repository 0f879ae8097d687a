/** What a change set holds, said of the target and the repository's answers: where its tests and
    builds come from, and every exclusion with its reason. */
module ChangeSetOutcome {
  import opened Ordering
  import opened ChangeSetModels
  import opened FirstPerKey
  import opened Sums
  import opened TestMinimizer
  import opened TestMinimizerProperties
  import opened TestMinimizerOutcome
  import opened BuildMinimizer
  import opened BuildMinimizerProperties
  import opened BuildMinimizerOutcome
  import opened ChangeSetPlanner
  import opened ChangeSetProperties

  // ---- When dependents count -------------------------------------------------------

  ghost predicate AllArtifacts(r: Resolved, w: World) {
    r.relevantFiles != [] && forall f :: f in r.relevantFiles ==> w.isArtifact(f)
  }

  /** Artifacts, members of artifacts and targets without a component have no dependents. */
  ghost predicate DependentsCount(r: Resolved, w: World) {
    !w.artifactMember && r.primary.Some? && !AllArtifacts(r, w)
  }

  lemma DependentsWhereTheyCount(r: Resolved, w: World)
    ensures Dependents(r, w) == if DependentsCount(r, w) then w.dependents else []
  {
  }

  // ---- The parts of a plan -----------------------------------------------------------

  /** The steps of a plan, and how they were put together. */
  ghost predicate Steps(r: Resolved, w: World, direct: MinimizedBuilds, fallback: seq<Exclusion>, builds: MinimizedBuilds,
                        cs: ChangeSet)
  {
    && DirectBuilds(r, w) == Ok(direct) && FallbackExclusions(r, w, direct) == Ok(fallback)
    && FinalBuilds(r, w, direct) == Ok(builds) && Runners(r, w) == Ok(cs.runners)
    && cs.tests == FinalTests(r, w, direct) && cs.builds == builds.items
    && cs.validation == QualityOperations(r, w, true) && cs.hygiene == QualityOperations(r, w, false)
    && cs.excluded == Exclusions(Related(w), w.describe) + fallback + builds.exclusions + Breadth(r, cs) + Availability(r, w, cs)
    && cs.provenance == OverallProvenance(cs, cs.excluded != [])
  }

  lemma PlanSteps(r: Resolved, w: World) returns (direct: MinimizedBuilds, fallback: seq<Exclusion>, builds: MinimizedBuilds)
    requires Plan(r, w).Ok?
    ensures Steps(r, w, direct, fallback, builds, Plan(r, w).value)
  {
    direct := DirectBuilds(r, w).value;
    fallback := FallbackExclusions(r, w, direct).value;
    builds := FinalBuilds(r, w, direct).value;
    AssembledWhole(r, w, FinalTests(r, w, direct), builds.items, Runners(r, w).value,
                   Exclusions(Related(w), w.describe) + fallback + builds.exclusions);
  }

  lemma AssembledWhole(r: Resolved, w: World, tests: seq<TestItem>, builds: seq<BuildItem>, runners: seq<RunnerAction>,
                       exclusions: seq<Exclusion>)
    requires Assemble(r, w, tests, builds, runners, exclusions).Ok?
    ensures var cs := Assemble(r, w, tests, builds, runners, exclusions).value;
            && cs.tests == tests && cs.builds == builds && cs.runners == runners
            && cs.validation == QualityOperations(r, w, true) && cs.hygiene == QualityOperations(r, w, false)
            && cs.excluded == exclusions + Breadth(r, cs) + Availability(r, w, cs)
            && cs.provenance == OverallProvenance(cs, cs.excluded != [])
  {
  }

  lemma TestReasons(matches: seq<TestMatch>, describe: Id -> seq<Provenance>)
    ensures forall e :: e in Exclusions(matches, describe) ==>
              e.reason == DuplicateReplacedByStrongerMatch || e.reason == BroadTestReplacedBySpecificTests
  {
    ExclusionsInOrder(matches, describe);
  }

  lemma BuildReasons(owner: Id, primary: Option<Id>, targets: seq<BuildTarget>, dependents: seq<Dependent>, m: MinimizedBuilds)
    requires Minimize(owner, primary, targets, dependents) == Ok(m)
    ensures forall e :: e in m.exclusions ==> e.reason == RepositoryBuildReplacedByNarrowerBuild
  {
    Shape(owner, primary, targets, dependents, m);
  }

  /** The exclusions by kind, in the order of the steps that made them. */
  ghost predicate ByKind(excluded: seq<Exclusion>, tests: seq<Exclusion>, dependents: seq<Exclusion>, builds: seq<Exclusion>,
                         breadth: seq<Exclusion>, availability: seq<Exclusion>)
  {
    && excluded == tests + dependents + builds + breadth + availability
    && (forall e :: e in tests ==> e.reason == DuplicateReplacedByStrongerMatch || e.reason == BroadTestReplacedBySpecificTests)
    && (forall e :: e in dependents ==> e.reason == DependentTestReplacedByNarrowerBuild)
    && (forall e :: e in builds ==> e.reason == RepositoryBuildReplacedByNarrowerBuild)
    && (forall e :: e in breadth ==> e.reason == NoNarrowerSurfaceForFile)
    && (forall e :: e in availability ==> e.reason == NoDeterministicTestTargets || e.reason == NoSurfaceForArtifactMember
                                          || e.reason == NoSurfaceForStructuredArtifact)
  }

  lemma KindsOf(r: Resolved, w: World, direct: MinimizedBuilds, fallback: seq<Exclusion>, builds: MinimizedBuilds, cs: ChangeSet)
    requires Steps(r, w, direct, fallback, builds, cs)
    ensures ByKind(cs.excluded, Exclusions(Related(w), w.describe), fallback, builds.exclusions, Breadth(r, cs), Availability(r, w, cs))
  {
    TestReasons(Related(w), w.describe);
    FallbackReasons(r, w, direct, fallback);
    BuildKinds(r, w, direct, builds);
    NoteReasons(r, w, cs);
  }

  lemma FallbackReasons(r: Resolved, w: World, direct: MinimizedBuilds, fallback: seq<Exclusion>)
    requires FallbackExclusions(r, w, direct) == Ok(fallback)
    ensures forall e :: e in fallback ==> e.reason == DependentTestReplacedByNarrowerBuild
  {
  }

  lemma NoteReasons(r: Resolved, w: World, cs: ChangeSet)
    ensures forall e :: e in Breadth(r, cs) ==> e.reason == NoNarrowerSurfaceForFile
    ensures forall e :: e in Availability(r, w, cs) ==> e.reason == NoDeterministicTestTargets || e.reason == NoSurfaceForArtifactMember
                                                        || e.reason == NoSurfaceForStructuredArtifact
  {
  }

  lemma BuildKinds(r: Resolved, w: World, direct: MinimizedBuilds, builds: MinimizedBuilds)
    requires DirectBuilds(r, w) == Ok(direct) && FinalBuilds(r, w, direct) == Ok(builds)
    ensures forall e :: e in builds.exclusions ==> e.reason == RepositoryBuildReplacedByNarrowerBuild
  {
    if builds == direct {
      if !w.artifactMember { BuildReasons(r.owner, r.primary, w.buildTargets, [], builds); }
    } else {
      BuildReasons(r.owner, r.primary, w.buildTargets, Dependents(r, w), builds);
    }
  }

  // ---- Tests of dependents -------------------------------------------------------------

  /** The first dependent that relates the test, and the first time it does. */
  ghost predicate FirstOfferAt(ds: seq<Dependent>, id: Id, i: nat, j: nat) {
    && i < |ds| && j < |ds[i].related| && ds[i].related[j].testId == id
    && (forall x, y :: 0 <= x < i && 0 <= y < |ds[x].related| ==> ds[x].related[y].testId != id)
    && (forall y :: 0 <= y < j ==> ds[i].related[y].testId != id)
  }

  function OfTest(id: Id): DependentMatch -> bool { (m: DependentMatch) => m.0.testId == id }

  function OfferOf(d: Dependent, x: TestMatch): DependentMatch { (Relabel(x, d.componentId), Merged(d.edges)) }

  lemma {:induction false} FirstOfferedBy(d: Dependent, related: seq<TestMatch>, id: Id) returns (j: nat)
    ensures var own := Filter(OfferedBy(d, related), OfTest(id));
            if own == [] then j == |related| else j < |related| && own[0] == OfferOf(d, related[j]) && related[j].testId == id
    ensures forall y :: 0 <= y < j ==> related[y].testId != id
  {
    if related == [] {
      j := 0;
    } else {
      var n := |related| - 1;
      j := FirstOfferedBy(d, related[..n], id);
      FilterStep(OfferedBy(d, related[..n]), OfferOf(d, related[n]), OfTest(id));
      if Filter(OfferedBy(d, related[..n]), OfTest(id)) == [] && related[n].testId != id { j := |related|; }
    }
  }

  ghost predicate LeadsOffers(ds: seq<Dependent>, id: Id, own: seq<DependentMatch>, i: nat, j: nat) {
    if own == [] then forall x, y :: 0 <= x < |ds| && 0 <= y < |ds[x].related| ==> ds[x].related[y].testId != id
    else FirstOfferAt(ds, id, i, j) && own[0] == OfferOf(ds[i], ds[i].related[j])
  }

  lemma {:induction false} FirstOfferStays(front: seq<Dependent>, d: Dependent, id: Id, before: seq<DependentMatch>,
                                           own: seq<DependentMatch>, i: nat, j: nat)
    requires LeadsOffers(front, id, before, i, j) && before != []
    ensures LeadsOffers(front + [d], id, before + own, i, j)
  {
    var all := front + [d];
    assert all[i] == front[i];
    forall x, y | 0 <= x < i && 0 <= y < |all[x].related| ensures all[x].related[y].testId != id { assert all[x] == front[x]; }
  }

  lemma {:induction false} OnlyLastOffers(front: seq<Dependent>, d: Dependent, id: Id, own: seq<DependentMatch>, k: nat)
    requires LeadsOffers(front, id, [], 0, 0)
    requires if own == [] then k == |d.related| else k < |d.related| && own[0] == OfferOf(d, d.related[k]) && d.related[k].testId == id
    requires forall y :: 0 <= y < k ==> d.related[y].testId != id
    ensures LeadsOffers(front + [d], id, own, |front|, k)
  {
    var all := front + [d];
    forall x, y | 0 <= x < |front| && 0 <= y < |all[x].related| ensures all[x].related[y].testId != id {
      assert all[x] == front[x];
    }
  }

  lemma {:induction false} FirstOfferOf(ds: seq<Dependent>, id: Id) returns (i: nat, j: nat)
    ensures LeadsOffers(ds, id, Filter(Offered(ds), OfTest(id)), i, j)
  {
    if ds == [] {
      i, j := 0, 0;
    } else {
      var n := |ds| - 1;
      var front, d := ds[..n], ds[n];
      var before, own := Filter(Offered(front), OfTest(id)), Filter(OfferedBy(d, d.related), OfTest(id));
      i, j := FirstOfferOf(front, id);
      FilterAppend(Offered(front), OfferedBy(d, d.related), OfTest(id));
      assert ds == front + [d];
      if before == [] {
        assert before + own == own;
        var k := FirstOfferedBy(d, d.related, id);
        OnlyLastOffers(front, d, id, own, k);
        i, j := n, k;
      } else {
        FirstOfferStays(front, d, id, before, own, i, j);
      }
    }
  }

  /** A match that was kept for a test is that of the first offer. */
  lemma KeptOffer(ds: seq<Dependent>, m: DependentMatch) returns (i: nat, j: nat)
    requires m in DependentMatches(ds)
    ensures FirstOfferAt(ds, m.0.testId, i, j) && m == OfferOf(ds[i], ds[i].related[j])
  {
    FirstPerIsFirst(Offered(ds), TestOf(), m, OfTest(m.0.testId));
    i, j := FirstOfferOf(ds, m.0.testId);
  }

  /** The ids of all related tests, dependent by dependent. */
  ghost function RelatedIds(ds: seq<Dependent>): seq<Id> {
    if ds == [] then [] else
      var d := ds[|ds| - 1];
      RelatedIds(ds[..|ds| - 1]) + seq(|d.related|, i requires 0 <= i < |d.related| => d.related[i].testId)
  }

  lemma {:induction false} OfferedByIds(d: Dependent, related: seq<TestMatch>)
    ensures |OfferedBy(d, related)| == |related|
    ensures forall i :: 0 <= i < |related| ==> OfferedBy(d, related)[i].0.testId == related[i].testId
  {
    if related != [] { OfferedByIds(d, related[..|related| - 1]); }
  }

  lemma {:induction false} OfferedIds(ds: seq<Dependent>)
    ensures KeysOf(Offered(ds), TestOf()) == RelatedIds(ds)
  {
    if ds != [] {
      var front, d := ds[..|ds| - 1], ds[|ds| - 1];
      OfferedIds(front);
      KeysOfAppend(Offered(front), OfferedBy(d, d.related), TestOf());
      OwnOfferedIds(d);
    }
  }

  lemma OwnOfferedIds(d: Dependent)
    ensures KeysOf(OfferedBy(d, d.related), TestOf()) == seq(|d.related|, i requires 0 <= i < |d.related| => d.related[i].testId)
  {
    OfferedByIds(d, d.related);
    KeysOfAt(OfferedBy(d, d.related), TestOf());
  }

  function Because(reason: ExclusionReason): Exclusion -> bool { (e: Exclusion) => e.reason == reason }

  lemma DependentExclusions(excluded: seq<Exclusion>, tests: seq<Exclusion>, dependents: seq<Exclusion>, builds: seq<Exclusion>,
                            breadth: seq<Exclusion>, availability: seq<Exclusion>)
    requires ByKind(excluded, tests, dependents, builds, breadth, availability)
    ensures Filter(excluded, Because(DependentTestReplacedByNarrowerBuild)) == dependents
  {
    var p := Because(DependentTestReplacedByNarrowerBuild);
    FilterAppend(tests + dependents + builds + breadth, availability, p);
    FilterAppend(tests + dependents + builds, breadth, p);
    FilterAppend(tests + dependents, builds, p);
    FilterAppend(tests, dependents, p);
    FilterNone(tests, p);
    FilterAll(dependents, p);
    FilterNone(builds, p);
    FilterNone(breadth, p);
    FilterNone(availability, p);
  }

  ghost predicate FreeOfDependents(w: World, cs: ChangeSet) {
    && (forall t :: t in cs.tests ==> !w.artifactMember && exists m :: m in w.relatedTests && m.testId == t.testId)
    && (forall b :: b in cs.builds ==> b.reason != DependentScoped)
    && (forall e :: e in cs.excluded ==> e.reason != DependentTestReplacedByNarrowerBuild)
  }

  /** Where they do not count, nothing of a dependent is in the plan. */
  lemma NothingFromDependents(r: Resolved, w: World)
    requires Plan(r, w).Ok? && !DependentsCount(r, w)
    ensures FreeOfDependents(w, Plan(r, w).value)
  {
    var direct, fallback, builds := PlanSteps(r, w);
    StepsFreeOfDependents(r, w, direct, fallback, builds, Plan(r, w).value);
  }

  lemma StepsFreeOfDependents(r: Resolved, w: World, direct: MinimizedBuilds, fallback: seq<Exclusion>, builds: MinimizedBuilds,
                              cs: ChangeSet)
    requires Steps(r, w, direct, fallback, builds, cs) && !DependentsCount(r, w)
    ensures FreeOfDependents(w, cs)
  {
    NoFallback(r, w, direct);
    DirectTestsAreMatched(w);
    DirectBuildsAreDirect(r, w, direct);
    assert fallback == [] by { KindsOf(r, w, direct, fallback, builds, cs); }
    NoDependentKind(r, w, direct, builds, cs);
  }

  lemma NoDependentKind(r: Resolved, w: World, direct: MinimizedBuilds, builds: MinimizedBuilds, cs: ChangeSet)
    requires Steps(r, w, direct, [], builds, cs)
    ensures forall e :: e in cs.excluded ==> e.reason != DependentTestReplacedByNarrowerBuild
  {
    KindsOf(r, w, direct, [], builds, cs);
    KindsWithoutDependents(cs.excluded, Exclusions(Related(w), w.describe), builds.exclusions, Breadth(r, cs), Availability(r, w, cs));
  }

  lemma KindsWithoutDependents(excluded: seq<Exclusion>, tests: seq<Exclusion>, builds: seq<Exclusion>, breadth: seq<Exclusion>,
                               availability: seq<Exclusion>)
    requires ByKind(excluded, tests, [], builds, breadth, availability)
    ensures forall e :: e in excluded ==> e.reason != DependentTestReplacedByNarrowerBuild
  {
    assert forall e :: e in excluded ==> e in tests || e in builds || e in breadth || e in availability;
  }

  lemma DirectTestsAreMatched(w: World)
    ensures forall t :: t in DirectTests(w) ==> !w.artifactMember && exists m :: m in w.relatedTests && m.testId == t.testId
  {
    KeptItemsSpec(Related(w), w.describe);
    forall t | t in DirectTests(w) ensures !w.artifactMember && exists m :: m in w.relatedTests && m.testId == t.testId {
      assert SaysWhatWasMatched(Related(w), w.describe, t);
    }
  }

  lemma DirectBuildsAreDirect(r: Resolved, w: World, direct: MinimizedBuilds)
    requires DirectBuilds(r, w) == Ok(direct)
    ensures forall b :: b in direct.items ==> b.reason != DependentScoped
  {
    DirectBuildsTier(r, w, direct);
  }

  lemma NoFallback(r: Resolved, w: World, direct: MinimizedBuilds)
    requires !DependentsCount(r, w)
    ensures Fallback(r, w) == [] && FinalTests(r, w, direct) == DirectTests(w) && FallbackExclusions(r, w, direct) == Ok([])
    ensures FinalBuilds(r, w, direct) == Ok(direct)
  {
    DependentsWhereTheyCount(r, w);
    assert Offered([]) == [];
    assert DependentMatches([]) == [];
  }

  // ---- A target without tests of its own --------------------------------------------------

  /** A component, owner or repository build is on offer. */
  ghost predicate DirectlyBuildable(r: Resolved, w: World) {
    exists tier :: tier != DependentScoped && Available(tier, r.owner, r.primary, w.buildTargets, [])
  }

  lemma BuildableIff(r: Resolved, w: World)
    ensures DirectlyBuildable(r, w) <==> OffersDirect(r, w)
  {
    SameAvailability(ComponentScoped, r.owner, r.primary, w.buildTargets, []);
    SameAvailability(OwnerAssociated, r.owner, r.primary, w.buildTargets, []);
    SameAvailability(RepositoryWide, r.owner, r.primary, w.buildTargets, []);
  }

  /** A dependent's test: its provenance is that of the dependency, of the match and of the test. */
  ghost predicate StandsIn(ds: seq<Dependent>, describe: Id -> seq<Provenance>, t: TestItem) {
    t.reason == DirectDependent &&
    exists i: nat, j: nat :: FirstOfferAt(ds, t.testId, i, j)
                             && Unites(t.provenance, ds[i].edges + [ds[i].related[j].provenance] + [describe(t.testId)])
  }

  /** A dependent's test that was dropped in favour of all the builds. */
  ghost predicate GivesWay(ds: seq<Dependent>, builds: seq<BuildItem>, e: Exclusion, id: Id) {
    && e.item == TestRef(id) && e.reason == DependentTestReplacedByNarrowerBuild
    && |e.replacedBy| == |builds| && (forall k :: 0 <= k < |builds| ==> e.replacedBy[k] == BuildRef(builds[k].target.actionId))
    && exists i: nat, j: nat :: FirstOfferAt(ds, id, i, j) && Unites(e.provenance, ds[i].edges + [ds[i].related[j].provenance])
  }

  lemma ThreeGroups(edges: seq<seq<Provenance>>, a: seq<Provenance>, b: seq<Provenance>)
    ensures Merged([Merged(edges), a, b]) == Merged(edges + [a] + [b])
  {
    MergedTwice(edges, a);
    MergedTwice(edges + [a], b);
    MergedTwice([Merged(edges), a], b);
    assert [Merged(edges), a] + [b] == [Merged(edges), a, b];
  }

  lemma DependentItemStandsIn(ds: seq<Dependent>, describe: Id -> seq<Provenance>, m: DependentMatch)
    requires m in DependentMatches(ds)
    ensures StandsIn(ds, describe, DependentTestItem(m, describe))
  {
    var i, j := KeptOffer(ds, m);
    ThreeGroups(ds[i].edges, m.0.provenance, describe(m.0.testId));
    MergedUnites(ds[i].edges + [m.0.provenance] + [describe(m.0.testId)]);
  }

  lemma DependentExclusionGivesWay(ds: seq<Dependent>, builds: seq<BuildItem>, m: DependentMatch)
    requires m in DependentMatches(ds)
    ensures GivesWay(ds, builds, DependentTestExclusion(m, Targets(builds)), m.0.testId)
  {
    var i, j := KeptOffer(ds, m);
    MergedTwice(ds[i].edges, m.0.provenance);
    MergedUnites(ds[i].edges + [m.0.provenance]);
  }

  lemma MatchIds(ds: seq<Dependent>)
    ensures |DependentMatches(ds)| == |FirstOccurrences(RelatedIds(ds))|
    ensures forall k :: 0 <= k < |DependentMatches(ds)| ==> DependentMatches(ds)[k].0.testId == FirstOccurrences(RelatedIds(ds))[k]
  {
    OfferedIds(ds);
    KeysOfFirstPer(Offered(ds), TestOf());
    KeysOfAt(DependentMatches(ds), TestOf());
  }

  ghost predicate DependentsStandInFor(r: Resolved, w: World, cs: ChangeSet) {
    var ids := FirstOccurrences(RelatedIds(w.dependents));
    var dropped := Filter(cs.excluded, Because(DependentTestReplacedByNarrowerBuild));
    if DirectlyBuildable(r, w) then
      && cs.tests == [] && cs.builds != [] && |dropped| == |ids|
      && forall k :: 0 <= k < |ids| ==> GivesWay(w.dependents, cs.builds, dropped[k], ids[k])
    else
      && dropped == [] && |cs.tests| == |ids| && (ids != [] ==> cs.builds == [])
      && forall k :: 0 <= k < |ids| ==> cs.tests[k].testId == ids[k] && StandsIn(w.dependents, w.describe, cs.tests[k])
  }

  /** The tests, or the exclusions, are those of the dependents, in the order in which the
      dependents first relate them: tests when nothing can be built directly, else exclusions. */
  lemma UntestedTarget(r: Resolved, w: World)
    requires ValidWorld(w) && Plan(r, w).Ok? && w.relatedTests == [] && DependentsCount(r, w)
    ensures DependentsStandInFor(r, w, Plan(r, w).value)
  {
    var direct, fallback, builds := PlanSteps(r, w);
    StepsStandIn(r, w, direct, fallback, builds, Plan(r, w).value);
  }

  lemma StepsStandIn(r: Resolved, w: World, direct: MinimizedBuilds, fallback: seq<Exclusion>, builds: MinimizedBuilds, cs: ChangeSet)
    requires Steps(r, w, direct, fallback, builds, cs)
    requires ValidWorld(w) && w.relatedTests == [] && DependentsCount(r, w)
    ensures DependentsStandInFor(r, w, cs)
  {
    KindsOf(r, w, direct, fallback, builds, cs);
    DependentExclusions(cs.excluded, Exclusions(Related(w), w.describe), fallback, builds.exclusions, Breadth(r, cs),
                        Availability(r, w, cs));
    UntestedSteps(r, w, direct, fallback, builds);
    MatchIds(w.dependents);
    AllStandIn(w.dependents, w.describe);
    AllGiveWay(w.dependents, cs.builds);
  }

  lemma UntestedSteps(r: Resolved, w: World, direct: MinimizedBuilds, fallback: seq<Exclusion>, builds: MinimizedBuilds)
    requires ValidWorld(w) && w.relatedTests == [] && DependentsCount(r, w)
    requires DirectBuilds(r, w) == Ok(direct) && FallbackExclusions(r, w, direct) == Ok(fallback) && FinalBuilds(r, w, direct) == Ok(builds)
    ensures var ms := DependentMatches(w.dependents);
            if DirectlyBuildable(r, w) then
              FinalTests(r, w, direct) == [] && builds.items != [] && fallback == DependentTestExclusions(ms, Targets(builds.items))
            else
              fallback == [] && FinalTests(r, w, direct) == DependentTestItems(ms, w.describe) && (ms != [] ==> builds.items == [])
  {
    DependentsWhereTheyCount(r, w);
    NoDirectTestsIff(w);
    DirectBuildsTier(r, w, direct);
    BuildableIff(r, w);
    assert Fallback(r, w) == DependentMatches(w.dependents);
  }

  lemma AllStandIn(ds: seq<Dependent>, describe: Id -> seq<Provenance>)
    ensures var ms := DependentMatches(ds);
            forall k :: 0 <= k < |ms| ==> StandsIn(ds, describe, DependentTestItems(ms, describe)[k])
  {
    forall m | m in DependentMatches(ds) { DependentItemStandsIn(ds, describe, m); }
  }

  lemma AllGiveWay(ds: seq<Dependent>, builds: seq<BuildItem>)
    ensures var ms := DependentMatches(ds);
            forall k :: 0 <= k < |ms| ==> GivesWay(ds, builds, DependentTestExclusions(ms, Targets(builds))[k], ms[k].0.testId)
  {
    forall m | m in DependentMatches(ds) { DependentExclusionGivesWay(ds, builds, m); }
  }

  // ---- The rest of the plan -----------------------------------------------------------------

  ghost predicate KeepsRelatedTests(w: World, cs: ChangeSet) {
    && cs.tests == Items(Kept(w.relatedTests), w.describe) != []
    && Exclusions(w.relatedTests, w.describe) <= cs.excluded
    && Filter(cs.excluded, Because(DependentTestReplacedByNarrowerBuild)) == []
  }

  /** With related tests of its own a target gets those the minimizer keeps. */
  lemma TestedTarget(r: Resolved, w: World)
    requires ValidWorld(w) && Plan(r, w).Ok? && w.relatedTests != [] && !w.artifactMember
    ensures KeepsRelatedTests(w, Plan(r, w).value)
  {
    var direct, fallback, builds := PlanSteps(r, w);
    StepsKeepTests(r, w, direct, fallback, builds, Plan(r, w).value);
  }

  lemma StepsKeepTests(r: Resolved, w: World, direct: MinimizedBuilds, fallback: seq<Exclusion>, builds: MinimizedBuilds, cs: ChangeSet)
    requires Steps(r, w, direct, fallback, builds, cs)
    requires ValidWorld(w) && w.relatedTests != [] && !w.artifactMember
    ensures KeepsRelatedTests(w, cs)
  {
    NoDirectTestsIff(w);
    KindsOf(r, w, direct, fallback, builds, cs);
    DependentExclusions(cs.excluded, Exclusions(Related(w), w.describe), fallback, builds.exclusions, Breadth(r, cs),
                        Availability(r, w, cs));
  }

  ghost predicate BuildsWhatIsMinimal(r: Resolved, w: World, cs: ChangeSet) {
    if w.artifactMember then cs.builds == []
    else
      var asked := DependentsCount(r, w) && cs.tests == [] && !DirectlyBuildable(r, w);
      var m := Minimize(r.owner, r.primary, w.buildTargets, if asked then w.dependents else []);
      m.Ok? && cs.builds == m.value.items && forall e :: e in m.value.exclusions ==> e in cs.excluded
  }

  /** The builds are the minimizer's: of all targets, and with the dependents if there is no test
      and nothing narrower to build. */
  lemma BuildsOfPlan(r: Resolved, w: World)
    requires Plan(r, w).Ok?
    ensures BuildsWhatIsMinimal(r, w, Plan(r, w).value)
  {
    var direct, fallback, builds := PlanSteps(r, w);
    StepsBuild(r, w, direct, fallback, builds, Plan(r, w).value);
  }

  lemma StepsBuild(r: Resolved, w: World, direct: MinimizedBuilds, fallback: seq<Exclusion>, builds: MinimizedBuilds, cs: ChangeSet)
    requires Steps(r, w, direct, fallback, builds, cs)
    ensures BuildsWhatIsMinimal(r, w, cs)
  {
    DependentsWhereTheyCount(r, w);
    DirectBuildsTier(r, w, direct);
    BuildableIff(r, w);
  }

  ghost predicate Operation(op: QualityOperation, provider: Id, isLint: bool, files: seq<Id>) {
    && op.provider == provider && op.isLint == isLint && op.files == files
    && op.provenance == [Derived(if isLint then LintSummary(provider) else FormatSummary(provider))]
  }

  ghost predicate RunsAndChecks(r: Resolved, w: World, cs: ChangeSet) {
    && (if r.ownerIsRunner then |cs.runners| == 1 && cs.runners == w.runnerActions else cs.runners == [])
    && |cs.validation| == |cs.hygiene| == (if r.relevantFiles == [] || w.artifactMember then 0 else |w.qualityProviders|)
    && forall k :: 0 <= k < |cs.validation| ==>
         && Operation(cs.validation[k], w.qualityProviders[k], true, r.relevantFiles)
         && Operation(cs.hygiene[k], w.qualityProviders[k], false, r.relevantFiles)
  }

  /** A runner target runs its one action; each quality provider lints and formats the files. */
  lemma RunnersAndQuality(r: Resolved, w: World)
    requires Plan(r, w).Ok?
    ensures RunsAndChecks(r, w, Plan(r, w).value)
  {
    var direct, fallback, builds := PlanSteps(r, w);
    StepsRun(r, w, Plan(r, w).value);
  }

  lemma StepsRun(r: Resolved, w: World, cs: ChangeSet)
    requires Runners(r, w) == Ok(cs.runners)
    requires cs.validation == QualityOperations(r, w, true) && cs.hygiene == QualityOperations(r, w, false)
    ensures RunsAndChecks(r, w, cs)
  {
  }

  /** The path the target was named by, else its owner. */
  ghost predicate IsAnchor(r: Resolved, anchor: Id) {
    match r.evidencePath
    case Some(p) => anchor == p
    case None => anchor == r.owner
  }

  ghost predicate SurfaceNote(e: Exclusion, about: Id, reason: ExclusionReason, summary: Summary) {
    e.item == SurfaceRef(about) && e.reason == reason && e.replacedBy == [] && e.provenance == [Derived(summary)]
  }

  /** The last exclusion says why there is no test, or nothing at all: for a member of an
      artifact, for artifacts, and for targets with other surfaces only. */
  ghost predicate SaysWhatIsMissing(r: Resolved, w: World, cs: ChangeSet) {
    var untested := cs.tests == [] && (cs.builds != [] || cs.runners != [] || cs.validation != [] || cs.hygiene != []);
    var last := if cs.excluded == [] then None else Some(cs.excluded[|cs.excluded| - 1]);
    if w.artifactMember then
      last.Some? && exists a :: IsAnchor(r, a) && SurfaceNote(last.value, a, NoSurfaceForArtifactMember, ArtifactMemberSummary)
    else if AllArtifacts(r, w) then
      last.Some? && exists a :: IsAnchor(r, a) && SurfaceNote(last.value, a, NoSurfaceForStructuredArtifact, StructuredArtifactSummary)
    else if untested then last.Some? && SurfaceNote(last.value, r.owner, NoDeterministicTestTargets, NoTestsSummary)
    else forall e :: e in cs.excluded ==>
           e.reason != NoDeterministicTestTargets && e.reason != NoSurfaceForArtifactMember && e.reason != NoSurfaceForStructuredArtifact
  }

  lemma MissingOf(r: Resolved, w: World, cs: ChangeSet, tests: seq<Exclusion>, dependents: seq<Exclusion>, builds: seq<Exclusion>,
                  breadth: seq<Exclusion>)
    requires ByKind(cs.excluded, tests, dependents, builds, breadth, Availability(r, w, cs))
    ensures SaysWhatIsMissing(r, w, cs)
  {
    var notes := Availability(r, w, cs);
    assert IsAnchor(r, ChangeSetPlanner.Anchor(r));
    if notes != [] { assert cs.excluded[|cs.excluded| - 1] == notes[|notes| - 1]; }
  }

  lemma AvailabilitySpec(r: Resolved, w: World)
    requires Plan(r, w).Ok?
    ensures SaysWhatIsMissing(r, w, Plan(r, w).value)
  {
    var cs := Plan(r, w).value;
    var direct, fallback, builds := PlanSteps(r, w);
    KindsOf(r, w, direct, fallback, builds, cs);
    MissingOf(r, w, cs, Exclusions(Related(w), w.describe), fallback, builds.exclusions, Breadth(r, cs));
  }

  /** All provenance of tests and builds, then of the other surfaces. */
  ghost function TestAndBuildSources(cs: ChangeSet): seq<seq<Provenance>> {
    seq(|cs.tests|, i requires 0 <= i < |cs.tests| => cs.tests[i].provenance)
    + seq(|cs.builds|, i requires 0 <= i < |cs.builds| => cs.builds[i].provenance)
  }

  ghost function OtherSources(cs: ChangeSet): seq<seq<Provenance>> {
    seq(|cs.runners|, i requires 0 <= i < |cs.runners| => cs.runners[i].provenance)
    + seq(|cs.validation|, i requires 0 <= i < |cs.validation| => cs.validation[i].provenance)
    + seq(|cs.hygiene|, i requires 0 <= i < |cs.hygiene| => cs.hygiene[i].provenance)
  }

  /** The provenance of all items, and a note if anything was excluded. */
  ghost predicate SaysWhere(cs: ChangeSet) {
    exists items :: Unites(items, TestAndBuildSources(cs) + OtherSources(cs))
                    && cs.provenance == items + if cs.excluded != [] then [Derived(ExclusionsSummary)] else []
  }

  lemma ProvenanceOf(cs: ChangeSet)
    requires cs.provenance == OverallProvenance(cs, cs.excluded != [])
    ensures SaysWhere(cs)
  {
    assert ItemProvenances(cs) == TestAndBuildSources(cs) + OtherSources(cs);
    MergedUnites(ItemProvenances(cs));
    if cs.excluded == [] { assert Merged(ItemProvenances(cs)) + [] == Merged(ItemProvenances(cs)); }
  }

  lemma ProvenanceSpec(r: Resolved, w: World)
    requires Plan(r, w).Ok?
    ensures SaysWhere(Plan(r, w).value)
  {
    var direct, fallback, builds := PlanSteps(r, w);
    ProvenanceOf(Plan(r, w).value);
  }

  /** A file that only its dependents validate. */
  ghost predicate OnlyDependents(r: Resolved, cs: ChangeSet) {
    && r.form == FileTarget && cs.runners == [] && cs.validation == [] && cs.hygiene == []
    && (cs.tests != [] || cs.builds != []) && (forall t :: t in cs.tests ==> t.reason == DirectDependent)
    && (forall b :: b in cs.builds ==> b.reason == DependentScoped)
  }

  /** Such a file has a note that says so, with all provenance of its tests and builds. */
  ghost predicate NotesBreadth(r: Resolved, cs: ChangeSet) {
    && (OnlyDependents(r, cs) <==> exists e :: e in cs.excluded && e.reason == NoNarrowerSurfaceForFile)
    && forall e :: e in cs.excluded && e.reason == NoNarrowerSurfaceForFile ==>
         && e.item.SurfaceRef? && IsAnchor(r, e.item.anchor) && e.replacedBy == []
         && Unites(e.provenance, TestAndBuildSources(cs) + [[Derived(SharedFileSummary)]])
  }

  lemma BreadthOf(r: Resolved, w: World, cs: ChangeSet, tests: seq<Exclusion>, dependents: seq<Exclusion>, builds: seq<Exclusion>)
    requires ByKind(cs.excluded, tests, dependents, builds, Breadth(r, cs), Availability(r, w, cs))
    ensures NotesBreadth(r, cs)
  {
    BreadthProvenance(cs);
    assert Breadth(r, cs) != [] <==> OnlyDependents(r, cs);
    if Breadth(r, cs) != [] { assert Breadth(r, cs)[0] in cs.excluded; }
  }

  lemma BreadthSpec(r: Resolved, w: World)
    requires Plan(r, w).Ok?
    ensures NotesBreadth(r, Plan(r, w).value)
  {
    var cs := Plan(r, w).value;
    var direct, fallback, builds := PlanSteps(r, w);
    KindsOf(r, w, direct, fallback, builds, cs);
    BreadthOf(r, w, cs, Exclusions(Related(w), w.describe), fallback, builds.exclusions);
  }

  lemma BreadthProvenance(cs: ChangeSet)
    ensures Unites(Merged([Flatten(TestProvenance(cs.tests)), Flatten(BuildProvenance(cs.builds)), [Derived(SharedFileSummary)]]),
                   TestAndBuildSources(cs) + [[Derived(SharedFileSummary)]])
  {
    var t, b, last := TestProvenance(cs.tests), BuildProvenance(cs.builds), [Derived(SharedFileSummary)];
    var sources := TestAndBuildSources(cs);
    assert sources == t + b;
    FlattenThree(t, b, last);
    MergedUnites(sources + [last]);
    assert Merged([Flatten(t), Flatten(b), last]) == Merged(sources + [last]);
  }

  lemma FlattenThree(a: seq<seq<Provenance>>, b: seq<seq<Provenance>>, c: seq<Provenance>)
    ensures Flatten([Flatten(a), Flatten(b), c]) == Flatten(a + b + [c])
  {
    FlattenAppend(a, b);
    var three := [Flatten(a), Flatten(b), c];
    assert three[..2] == [Flatten(a), Flatten(b)] && three[..2][..1] == [Flatten(a)] && three[..2][..1][..0] == [];
    assert (a + b + [c])[..|a + b|] == a + b;
    assert Flatten(three[..2][..1]) == [] + Flatten(a) == Flatten(a);
  }

  /** Every exclusion, by kind: those of the test minimizer, of dependents' tests, of the build
      minimizer, and at most one note on breadth and one on what is missing. */
  lemma ExclusionsByKind(r: Resolved, w: World)
    returns (dependents: seq<Exclusion>, builds: seq<Exclusion>, breadth: seq<Exclusion>, missing: seq<Exclusion>)
    requires Plan(r, w).Ok?
    ensures var tests := Exclusions(if w.artifactMember then [] else w.relatedTests, w.describe);
            ByKind(Plan(r, w).value.excluded, tests, dependents, builds, breadth, missing) && |breadth| <= 1 && |missing| <= 1
  {
    var direct, fallback, last := PlanSteps(r, w);
    dependents, builds, breadth, missing := StepsByKind(r, w, direct, fallback, last, Plan(r, w).value);
  }

  lemma NotesAreFew(r: Resolved, w: World, cs: ChangeSet)
    ensures |Breadth(r, cs)| <= 1 && |Availability(r, w, cs)| <= 1
  {
  }

  lemma StepsByKind(r: Resolved, w: World, direct: MinimizedBuilds, fallback: seq<Exclusion>, last: MinimizedBuilds, cs: ChangeSet)
    returns (dependents: seq<Exclusion>, builds: seq<Exclusion>, breadth: seq<Exclusion>, missing: seq<Exclusion>)
    requires Steps(r, w, direct, fallback, last, cs)
    ensures var tests := Exclusions(if w.artifactMember then [] else w.relatedTests, w.describe);
            ByKind(cs.excluded, tests, dependents, builds, breadth, missing) && |breadth| <= 1 && |missing| <= 1
  {
    KindsOf(r, w, direct, fallback, last, cs);
    NotesAreFew(r, w, cs);
    assert Related(w) == if w.artifactMember then [] else w.relatedTests;
    dependents, builds, breadth, missing := fallback, last.exclusions, Breadth(r, cs), Availability(r, w, cs);
  }
}
