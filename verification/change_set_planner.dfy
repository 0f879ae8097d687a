/** `MinimumVerifiedChangeSetService.get_minimum_verified_change_set`: tests first,
    builds next, dependents only when nothing narrower exists, and an exclusion
    for everything that was considered and dropped. */
module ChangeSetPlanner {
  import opened Ordering
  import opened ChangeSetModels
  import opened FirstPerKey
  import opened TestMinimizer
  import opened BuildMinimizer
  import opened BuildMinimizerProperties

  datatype TargetForm = SymbolTarget | FileTarget | OwnerTarget

  datatype Resolved = Resolved(form: TargetForm, owner: Id, ownerIsRunner: bool, primary: Option<Id>,
                               evidencePath: Option<Id>, relevantFiles: seq<Id>)

  datatype RunnerAction = RunnerAction(actionId: Id, provenance: seq<Provenance>)

  /** What the repository answers about the target. */
  datatype World = World(artifactMember: bool, isArtifact: Id -> bool, relatedTests: seq<TestMatch>,
                         buildTargets: seq<BuildTarget>, dependents: seq<Dependent>,
                         runnerActions: seq<RunnerAction>, qualityProviders: seq<Id>,
                         describe: Id -> seq<Provenance>)

  datatype QualityOperation = QualityOperation(provider: Id, isLint: bool, files: seq<Id>, provenance: seq<Provenance>)

  datatype ChangeSet = ChangeSet(tests: seq<TestItem>, builds: seq<BuildItem>, runners: seq<RunnerAction>,
                                 validation: seq<QualityOperation>, hygiene: seq<QualityOperation>,
                                 excluded: seq<Exclusion>, provenance: seq<Provenance>)

  // ---- Tests of dependent components ------------------------------------------

  /** A related test seen through a dependent component, with the provenance of
      the dependency. */
  type DependentMatch = (TestMatch, seq<Provenance>)

  function Relabel(m: TestMatch, component: Id): TestMatch {
    m.(reason := DependentComponent, owner := Some(component), path := None)
  }

  function OfferedBy(d: Dependent, related: seq<TestMatch>): seq<DependentMatch> {
    if related == [] then [] else
      OfferedBy(d, related[..|related| - 1])
      + [(Relabel(related[|related| - 1], d.componentId), Merged(d.edges))]
  }

  function Offered(ds: seq<Dependent>): seq<DependentMatch> {
    if ds == [] then [] else
      Offered(ds[..|ds| - 1]) + OfferedBy(ds[|ds| - 1], ds[|ds| - 1].related)
  }

  function TestOf(): DependentMatch -> Id { (m: DependentMatch) => m.0.testId }

  /** Each test related to a dependent component, through the first that offers it. */
  function DependentMatches(ds: seq<Dependent>): seq<DependentMatch> {
    FirstPer(Offered(ds), TestOf())
  }

  /** The inner loop: what one dependent adds to the candidates. */
  method AddOffered(d: Dependent, candidates: seq<DependentMatch>, seen: set<Id>, ghost offered: seq<DependentMatch>)
    returns (grown: seq<DependentMatch>, seenAfter: set<Id>)
    requires candidates == FirstPer(offered, TestOf()) && seen == KeySet(candidates, TestOf())
    ensures grown == FirstPer(offered + OfferedBy(d, d.related), TestOf()) && seenAfter == KeySet(grown, TestOf())
  {
    var dependency := MergedProvenance(d.edges);
    grown, seenAfter := candidates, seen;
    assert offered + OfferedBy(d, []) == offered;
    for k := 0 to |d.related|
      invariant grown == FirstPer(OfferedUpTo(offered, d, k), TestOf())
      invariant seenAfter == KeySet(grown, TestOf())
    {
      var m := (Relabel(d.related[k], d.componentId), dependency);
      OfferedUpToStep(offered, d, k);
      FirstPerSeen(OfferedUpTo(offered, d, k), m, TestOf());
      if d.related[k].testId !in seenAfter {
        seenAfter := seenAfter + {d.related[k].testId};
        grown := grown + [m];
      }
    }
    assert d.related[..|d.related|] == d.related;
  }

  /** What has been offered after `k` related tests of one more dependent. */
  ghost function OfferedUpTo(offered: seq<DependentMatch>, d: Dependent, k: nat): seq<DependentMatch>
    requires k <= |d.related|
  {
    offered + OfferedBy(d, d.related[..k])
  }

  lemma OfferedUpToStep(offered: seq<DependentMatch>, d: Dependent, k: nat)
    requires k < |d.related|
    ensures OfferedUpTo(offered, d, k + 1) ==
            OfferedUpTo(offered, d, k) + [(Relabel(d.related[k], d.componentId), Merged(d.edges))]
  {
    assert d.related[..k + 1][..k] == d.related[..k];
  }

  method RelatedTestsForDependents(ds: seq<Dependent>) returns (candidates: seq<DependentMatch>)
    ensures candidates == DependentMatches(ds)
  {
    candidates := [];
    var seen: set<Id> := {};
    for d := 0 to |ds|
      invariant candidates == FirstPer(Offered(ds[..d]), TestOf())
      invariant seen == KeySet(candidates, TestOf())
    {
      assert ds[..d + 1][..d] == ds[..d];
      candidates, seen := AddOffered(ds[d], candidates, seen, Offered(ds[..d]));
    }
    assert ds[..|ds|] == ds;
  }

  function DependentTestItem(m: DependentMatch, describe: Id -> seq<Provenance>): TestItem {
    TestItem(m.0.testId, HumanReason(m.0), Merged([m.1, m.0.provenance, describe(m.0.testId)]))
  }

  function DependentTestItems(ms: seq<DependentMatch>, describe: Id -> seq<Provenance>): (r: seq<TestItem>)
    ensures |r| == |ms|
  {
    seq(|ms|, i requires 0 <= i < |ms| => DependentTestItem(ms[i], describe))
  }

  function DependentTestExclusion(m: DependentMatch, builds: seq<BuildTarget>): Exclusion {
    Exclusion(TestRef(m.0.testId), DependentTestReplacedByNarrowerBuild, BuildRefs(builds), Merged([m.1, m.0.provenance]))
  }

  function DependentTestExclusions(ms: seq<DependentMatch>, builds: seq<BuildTarget>): (r: seq<Exclusion>)
    ensures |r| == |ms|
  {
    seq(|ms|, i requires 0 <= i < |ms| => DependentTestExclusion(ms[i], builds))
  }

  // ---- The steps of the plan ------------------------------------------------------

  predicate Structured(r: Resolved, w: World) {
    r.relevantFiles != [] && forall f :: f in r.relevantFiles ==> w.isArtifact(f)
  }

  function Dependents(r: Resolved, w: World): seq<Dependent> {
    if Structured(r, w) || w.artifactMember || r.primary.None? then [] else w.dependents
  }

  function Related(w: World): seq<TestMatch> {
    if w.artifactMember then [] else w.relatedTests
  }

  function DirectTests(w: World): seq<TestItem> {
    Items(Kept(Related(w)), w.describe)
  }

  function DirectBuilds(r: Resolved, w: World): Result<MinimizedBuilds, PlanError> {
    if w.artifactMember then Ok(MinimizedBuilds([], []))
    else Minimize(r.owner, r.primary, w.buildTargets, [])
  }

  /** The dependents' tests that come into question once no direct test was kept. */
  function Fallback(r: Resolved, w: World): seq<DependentMatch> {
    if DirectTests(w) == [] then DependentMatches(Dependents(r, w)) else []
  }

  function FinalTests(r: Resolved, w: World, direct: MinimizedBuilds): seq<TestItem> {
    if Fallback(r, w) != [] && direct.items == [] then DependentTestItems(Fallback(r, w), w.describe)
    else DirectTests(w)
  }

  function FallbackExclusions(r: Resolved, w: World, direct: MinimizedBuilds): Result<seq<Exclusion>, PlanError> {
    if Fallback(r, w) == [] || direct.items == [] then Ok([])
    else if !Distinct(BuildRefs(Targets(direct.items))) then Err(DuplicateReplacement)
    else Ok(DependentTestExclusions(Fallback(r, w), Targets(direct.items)))
  }

  function FinalBuilds(r: Resolved, w: World, direct: MinimizedBuilds): Result<MinimizedBuilds, PlanError> {
    if !w.artifactMember && FinalTests(r, w, direct) == [] && direct.items == [] && Dependents(r, w) != []
    then Minimize(r.owner, r.primary, w.buildTargets, Dependents(r, w))
    else Ok(direct)
  }

  function Runners(r: Resolved, w: World): Result<seq<RunnerAction>, PlanError> {
    if !r.ownerIsRunner then Ok([])
    else if |w.runnerActions| != 1 then Err(RunnerActionCount)
    else Ok(w.runnerActions)
  }

  function QualityOperations(r: Resolved, w: World, isLint: bool): (ops: seq<QualityOperation>)
    ensures ops != [] <==> r.relevantFiles != [] && !w.artifactMember && w.qualityProviders != []
    ensures forall op :: op in ops ==> op.provenance != []
  {
    if r.relevantFiles == [] || w.artifactMember then [] else
      seq(|w.qualityProviders|, i requires 0 <= i < |w.qualityProviders| =>
        var p := w.qualityProviders[i];
        QualityOperation(p, isLint, r.relevantFiles, [Derived(if isLint then LintSummary(p) else FormatSummary(p))]))
  }

  predicate AnySurface(cs: ChangeSet) {
    cs.tests != [] || cs.builds != [] || cs.runners != [] || cs.validation != [] || cs.hygiene != []
  }

  function Anchor(r: Resolved): Id {
    if r.evidencePath.Some? then r.evidencePath.value else r.owner
  }

  /** The exclusion that says why no test, or no surface at all, was available. */
  function Availability(r: Resolved, w: World, cs: ChangeSet): seq<Exclusion> {
    if w.artifactMember then
      [Exclusion(SurfaceRef(Anchor(r)), NoSurfaceForArtifactMember, [], [Derived(ArtifactMemberSummary)])]
    else if Structured(r, w) then
      [Exclusion(SurfaceRef(Anchor(r)), NoSurfaceForStructuredArtifact, [], [Derived(StructuredArtifactSummary)])]
    else if cs.tests != [] || !AnySurface(cs) then []
    else [Exclusion(SurfaceRef(r.owner), NoDeterministicTestTargets, [], [Derived(NoTestsSummary)])]
  }

  function TestProvenance(items: seq<TestItem>): (r: seq<seq<Provenance>>)
    ensures |r| == |items|
  {
    seq(|items|, i requires 0 <= i < |items| => items[i].provenance)
  }

  function BuildProvenance(items: seq<BuildItem>): (r: seq<seq<Provenance>>)
    ensures |r| == |items|
  {
    seq(|items|, i requires 0 <= i < |items| => items[i].provenance)
  }

  function RunnerProvenance(items: seq<RunnerAction>): (r: seq<seq<Provenance>>)
    ensures |r| == |items|
  {
    seq(|items|, i requires 0 <= i < |items| => items[i].provenance)
  }

  function QualityProvenance(items: seq<QualityOperation>): (r: seq<seq<Provenance>>)
    ensures |r| == |items|
  {
    seq(|items|, i requires 0 <= i < |items| => items[i].provenance)
  }

  predicate TestsAreDependent(items: seq<TestItem>) {
    forall t :: t in items ==> t.reason.DirectDependent?
  }

  predicate BuildsAreDependent(items: seq<BuildItem>) {
    forall b :: b in items ==> b.reason.DependentScoped?
  }

  /** The note on a shared file that only its dependents can validate. */
  function Breadth(r: Resolved, cs: ChangeSet): seq<Exclusion> {
    if !r.form.FileTarget? then []
    else if cs.runners != [] || cs.validation != [] || cs.hygiene != [] then []
    else if cs.tests == [] && cs.builds == [] then []
    else if !TestsAreDependent(cs.tests) || !BuildsAreDependent(cs.builds) then []
    else [Exclusion(SurfaceRef(Anchor(r)), NoNarrowerSurfaceForFile, [],
                    Merged([Flatten(TestProvenance(cs.tests)), Flatten(BuildProvenance(cs.builds)), [Derived(SharedFileSummary)]]))]
  }

  function ItemProvenances(cs: ChangeSet): seq<seq<Provenance>> {
    TestProvenance(cs.tests) + BuildProvenance(cs.builds) + RunnerProvenance(cs.runners)
    + QualityProvenance(cs.validation) + QualityProvenance(cs.hygiene)
  }

  function OverallProvenance(cs: ChangeSet, hasExclusions: bool): seq<Provenance> {
    Merged(ItemProvenances(cs)) + if hasExclusions then [Derived(ExclusionsSummary)] else []
  }

  /** The validator of the change set. */
  function Construct(cs: ChangeSet): Result<ChangeSet, PlanError> {
    if cs.provenance == [] || (!AnySurface(cs) && cs.excluded == []) then Err(InvalidChangeSet) else Ok(cs)
  }

  function Assemble(r: Resolved, w: World, tests: seq<TestItem>, builds: seq<BuildItem>, runners: seq<RunnerAction>,
                    exclusions: seq<Exclusion>): Result<ChangeSet, PlanError>
  {
    var surfaces := ChangeSet(tests, builds, runners, QualityOperations(r, w, true), QualityOperations(r, w, false), [], []);
    var availability := Availability(r, w, surfaces);
    var excluded := exclusions + Breadth(r, surfaces) + availability;
    if !AnySurface(surfaces) && availability == [] then Err(NoSurfaces)
    else Construct(surfaces.(excluded := excluded, provenance := OverallProvenance(surfaces, excluded != [])))
  }

  function Plan(r: Resolved, w: World): Result<ChangeSet, PlanError> {
    match DirectBuilds(r, w)
    case Err(e) => Err(e)
    case Ok(direct) =>
      match FallbackExclusions(r, w, direct)
      case Err(e) => Err(e)
      case Ok(fallback) =>
        match FinalBuilds(r, w, direct)
        case Err(e) => Err(e)
        case Ok(builds) =>
          match Runners(r, w)
          case Err(e) => Err(e)
          case Ok(runners) =>
            Assemble(r, w, FinalTests(r, w, direct), builds.items, runners,
                     Exclusions(Related(w), w.describe) + fallback + builds.exclusions)
  }

  // ---- The method of the source -----------------------------------------------------

  method ExcludeFallback(ms: seq<DependentMatch>, builds: seq<BuildTarget>) returns (r: Result<seq<Exclusion>, PlanError>)
    requires ms != []
    ensures r == if !Distinct(BuildRefs(builds)) then Err(DuplicateReplacement)
                 else Ok(DependentTestExclusions(ms, builds))
  {
    var replacements := BuildRefs(builds);
    var exclusions: seq<Exclusion> := [];
    for i := 0 to |ms|
      invariant exclusions == DependentTestExclusions(ms[..i], builds)
      invariant i > 0 ==> Distinct(replacements)
    {
      if !Distinct(replacements) {
        return Err(DuplicateReplacement);
      }
      var provenance := MergedProvenance([ms[i].1, ms[i].0.provenance]);
      exclusions := exclusions + [Exclusion(TestRef(ms[i].0.testId), DependentTestReplacedByNarrowerBuild, replacements, provenance)];
    }
    assert ms[..|ms|] == ms;
    return Ok(exclusions);
  }

  /** The fallback step: dependents' tests, either dropped for the direct builds
      or taken in place of the missing direct tests. */
  method FallBackToDependentTests(r: Resolved, w: World, tests: seq<TestItem>, builds: MinimizedBuilds)
    returns (fallback: Result<(seq<TestItem>, seq<Exclusion>), PlanError>)
    requires tests == DirectTests(w)
    ensures fallback == match FallbackExclusions(r, w, builds)
                        case Err(e) => Err(e)
                        case Ok(exclusions) => Ok((FinalTests(r, w, builds), exclusions))
  {
    var dependents := Dependents(r, w);
    if tests != [] || dependents == [] {
      return Ok((tests, []));
    }
    var matches := RelatedTestsForDependents(dependents);
    if matches == [] {
      return Ok((tests, []));
    }
    if builds.items == [] {
      return Ok((DependentTestItems(matches, w.describe), []));
    }
    var excluded := ExcludeFallback(matches, Targets(builds.items));
    if excluded.Err? { return Err(excluded.error); }
    return Ok((tests, excluded.value));
  }

  method GetMinimumVerifiedChangeSet(r: Resolved, w: World) returns (plan: Result<ChangeSet, PlanError>)
    ensures plan == Plan(r, w)
  {
    var tests, testExclusions := MinimizeTests(Related(w), w.describe);
    var builds := MinimizedBuilds([], []);
    if !w.artifactMember {
      var direct := MinimizeBuildTargets(r.owner, r.primary, w.buildTargets, []);
      if direct.Err? { return Err(direct.error); }
      builds := direct.value;
    }
    assert DirectBuilds(r, w) == Ok(builds);
    ghost var direct := builds;
    var fallback := FallBackToDependentTests(r, w, tests, builds);
    if fallback.Err? { return Err(fallback.error); }
    tests := fallback.value.0;
    if !w.artifactMember && tests == [] && builds.items == [] && Dependents(r, w) != [] {
      var dependentBuilds := MinimizeBuildTargets(r.owner, r.primary, w.buildTargets, Dependents(r, w));
      if dependentBuilds.Err? { return Err(dependentBuilds.error); }
      builds := dependentBuilds.value;
    }
    assert FinalBuilds(r, w, direct) == Ok(builds);
    var runners: seq<RunnerAction> := [];
    if r.ownerIsRunner {
      if |w.runnerActions| != 1 { return Err(RunnerActionCount); }
      runners := w.runnerActions;
    }
    plan := Assemble(r, w, tests, builds.items, runners, testExclusions + fallback.value.1 + builds.exclusions);
  }
}
