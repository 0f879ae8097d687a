/** What the planner promises, whatever the repository answers. */
module ChangeSetProperties {
  import opened Ordering
  import opened ChangeSetModels
  import opened FirstPerKey
  import opened TestMinimizer
  import opened TestMinimizerProperties
  import opened BuildMinimizer
  import opened BuildMinimizerProperties
  import opened ChangeSetPlanner

  /** What the validators of the repository's answers guarantee, and that related
      tests found through a dependent component name it. */
  ghost predicate ValidWorld(w: World) {
    && ValidMatches(w.relatedTests) && DependentsCarryOwner(w.relatedTests)
    && ValidTargets(w.buildTargets)
    && (forall a :: a in w.runnerActions ==> a.provenance != [])
    && (forall d :: d in w.dependents ==> ValidMatches(d.related))
  }

  /** Build targets are listed once per action id. */
  ghost predicate UniqueActions(w: World) { Distinct(ActionIds(w.buildTargets)) }

  // ---- Dependents' tests ------------------------------------------------------------

  lemma {:induction false} OfferedByMember(d: Dependent, related: seq<TestMatch>, m: DependentMatch)
    ensures m in OfferedBy(d, related) <==>
            exists x :: x in related && m == (Relabel(x, d.componentId), Merged(d.edges))
  {
    if related != [] {
      var n := |related| - 1;
      OfferedByMember(d, related[..n], m);
      assert related == related[..n] + [related[n]];
    }
  }

  lemma {:induction false} OfferedMember(ds: seq<Dependent>, m: DependentMatch)
    ensures m in Offered(ds) <==>
            exists d, x :: d in ds && x in d.related && m == (Relabel(x, d.componentId), Merged(d.edges))
  {
    if ds != [] {
      var n := |ds| - 1;
      OfferedMember(ds[..n], m);
      OfferedByMember(ds[n], ds[n].related, m);
      assert ds == ds[..n] + [ds[n]];
    }
  }

  /** Each test related to a dependent component comes up exactly once, marked as
      reached through a component, never by file. */
  lemma DependentMatchesSpec(ds: seq<Dependent>)
    ensures DistinctKeys(DependentMatches(ds), TestOf())
    ensures forall m :: m in DependentMatches(ds) ==>
              exists d, x :: d in ds && x in d.related && m == (Relabel(x, d.componentId), Merged(d.edges))
    ensures forall d, x :: d in ds && x in d.related ==> x.testId in KeySet(DependentMatches(ds), TestOf())
  {
    FirstPerSpec(Offered(ds), TestOf());
    forall m | m in DependentMatches(ds)
      ensures exists d, x :: d in ds && x in d.related && m == (Relabel(x, d.componentId), Merged(d.edges))
    {
      OfferedMember(ds, m);
    }
    forall d, x | d in ds && x in d.related ensures x.testId in KeySet(DependentMatches(ds), TestOf()) {
      var m := (Relabel(x, d.componentId), Merged(d.edges));
      OfferedMember(ds, m);
      assert TestOf()(m) == x.testId;
    }
  }

  lemma FallbackMatchSpec(r: Resolved, w: World, m: DependentMatch)
    requires ValidWorld(w) && m in DependentMatches(Dependents(r, w))
    ensures m.0.provenance != [] && HumanReason(m.0).DirectDependent?
  {
    DependentMatchesSpec(Dependents(r, w));
    var d, x :| d in Dependents(r, w) && x in d.related && m == (Relabel(x, d.componentId), Merged(d.edges));
    assert d in w.dependents && ValidMatches(d.related);
  }

  // ---- Pieces of a successful plan -----------------------------------------------------

  lemma {:induction false} ItemsMember(gs: seq<Group>, describe: Id -> seq<Provenance>, t: TestItem)
    ensures |Items(gs, describe)| == |gs|
    ensures t in Items(gs, describe) <==> exists g :: g in gs && t == Item(g, describe)
  {
    if gs != [] {
      var n := |gs| - 1;
      ItemsMember(gs[..n], describe, t);
      assert gs == gs[..n] + [gs[n]];
    }
  }

  lemma AssembledParts(r: Resolved, w: World, tests: seq<TestItem>, builds: seq<BuildItem>, runners: seq<RunnerAction>,
                       exclusions: seq<Exclusion>)
    requires Assemble(r, w, tests, builds, runners, exclusions).Ok?
    ensures var cs := Assemble(r, w, tests, builds, runners, exclusions).value;
            && cs.tests == tests && cs.builds == builds && cs.runners == runners
            && (forall e :: e in exclusions ==> e in cs.excluded)
            && (forall e :: e in cs.excluded ==> e in exclusions || e.replacedBy == [])
  {
  }

  lemma PlanParts(r: Resolved, w: World) returns (direct: MinimizedBuilds, fallback: seq<Exclusion>, builds: MinimizedBuilds)
    requires Plan(r, w).Ok?
    ensures DirectBuilds(r, w) == Ok(direct) && FallbackExclusions(r, w, direct) == Ok(fallback)
    ensures FinalBuilds(r, w, direct) == Ok(builds)
    ensures var cs := Plan(r, w).value;
            && cs.tests == FinalTests(r, w, direct) && cs.builds == builds.items
            && (forall e :: e in cs.excluded ==>
                  e in Exclusions(Related(w), w.describe) || e in fallback || e in builds.exclusions || e.replacedBy == [])
            && (forall e :: e in Exclusions(Related(w), w.describe) || e in fallback || e in builds.exclusions ==> e in cs.excluded)
  {
    direct := DirectBuilds(r, w).value;
    fallback := FallbackExclusions(r, w, direct).value;
    builds := FinalBuilds(r, w, direct).value;
    AssembledParts(r, w, FinalTests(r, w, direct), builds.items, Runners(r, w).value,
                   Exclusions(Related(w), w.describe) + fallback + builds.exclusions);
  }

  lemma NoDirectTestsIff(w: World)
    requires ValidWorld(w)
    ensures DirectTests(w) == [] <==> Related(w) == []
  {
    KeptTests(Related(w));
    if Kept(Related(w)) != [] { ItemsAt(Kept(Related(w)), 0, w.describe); }
    if Related(w) == [] {
      GroupsSpec([]);
      assert Groups([]) == [];
    }
  }

  lemma DirectBuildsTier(r: Resolved, w: World, direct: MinimizedBuilds)
    requires DirectBuilds(r, w) == Ok(direct)
    ensures forall b :: b in direct.items ==> b.reason == Tier(r.owner, r.primary, w.buildTargets, [])
    ensures direct.items == [] <==> w.artifactMember || !OffersDirect(r, w)
  {
    if !w.artifactMember {
      OneTier(r.owner, r.primary, w.buildTargets, [], direct);
      Shape(r.owner, r.primary, w.buildTargets, [], direct);
      ActionIdsAt(Targets(direct.items));
      FilterNone(w.buildTargets, RepositoryWideTarget());
      TierOfMinimize(r.owner, r.primary, w.buildTargets, []);
    }
  }

  /** A component, owner or repository build is on offer. */
  ghost predicate OffersDirect(r: Resolved, w: World) {
    || Offers(w.buildTargets, InComponent(r.primary))
    || Offers(w.buildTargets, OwnedBy(r.owner, r.primary))
    || Offers(w.buildTargets, RepositoryWideTarget())
  }

  lemma FinalBuildsTier(r: Resolved, w: World, direct: MinimizedBuilds, builds: MinimizedBuilds)
    requires DirectBuilds(r, w) == Ok(direct) && FinalBuilds(r, w, direct) == Ok(builds)
    ensures builds == direct || (FinalTests(r, w, direct) == [] && direct.items == [] && !w.artifactMember && !OffersDirect(r, w)
                                 && forall b :: b in builds.items ==> b.reason.DependentScoped?)
    ensures !w.artifactMember && FinalTests(r, w, direct) == [] && direct.items == [] && Dependents(r, w) != [] ==>
              (builds.items == [] <==> !OffersDependent(w.buildTargets, Dependents(r, w)))
  {
    DirectBuildsTier(r, w, direct);
    if !w.artifactMember && FinalTests(r, w, direct) == [] && direct.items == [] && Dependents(r, w) != [] {
      var ds := Dependents(r, w);
      OneTier(r.owner, r.primary, w.buildTargets, ds, builds);
      Shape(r.owner, r.primary, w.buildTargets, ds, builds);
      TierOfMinimize(r.owner, r.primary, w.buildTargets, ds);
      FilterNone(w.buildTargets, RepositoryWideTarget());
    }
  }

  // ---- Tier safety -----------------------------------------------------------------------

  /** The tier all builds come from, and what choosing it says about the other tiers. */
  lemma BuildsTier(r: Resolved, w: World) returns (tier: BuildReason)
    requires Plan(r, w).Ok?
    ensures forall b :: b in Plan(r, w).value.builds ==> b.reason == tier
    ensures tier.RepositoryWide? ==>
              !Offers(w.buildTargets, InComponent(r.primary)) && !Offers(w.buildTargets, OwnedBy(r.owner, r.primary))
    ensures tier.DependentScoped? ==> Plan(r, w).value.tests == [] && !OffersDirect(r, w)
  {
    var direct, fallback, builds := PlanParts(r, w);
    FinalBuildsTier(r, w, direct, builds);
    if builds == direct {
      DirectBuildsTier(r, w, direct);
      tier := Tier(r.owner, r.primary, w.buildTargets, []);
    } else {
      tier := DependentScoped;
    }
  }

  /** Builds come from one tier; a repository-wide build means nothing narrower was
      on offer; dependent builds mean there was no test and no direct build at all. */
  lemma TierSafety(r: Resolved, w: World)
    requires Plan(r, w).Ok?
    ensures var cs := Plan(r, w).value;
            && (forall a, b :: a in cs.builds && b in cs.builds ==> a.reason == b.reason)
            && ((exists b :: b in cs.builds && b.reason.RepositoryWide?) ==>
                  !Offers(w.buildTargets, InComponent(r.primary)) && !Offers(w.buildTargets, OwnedBy(r.owner, r.primary)))
            && ((exists b :: b in cs.builds && b.reason.DependentScoped?) ==> cs.tests == [] && !OffersDirect(r, w))
  {
    var tier := BuildsTier(r, w);
  }

  /** Dependents' tests are used only without any build; when there are builds instead,
      every such test is excluded in favour of exactly those builds. */
  ghost predicate DependentsStandIn(r: Resolved, w: World, cs: ChangeSet) {
    && (cs.tests != [] ==> cs.builds == [] && cs.tests == DependentTestItems(DependentMatches(Dependents(r, w)), w.describe))
    && (cs.builds != [] ==>
          forall m :: m in DependentMatches(Dependents(r, w)) ==>
            exists e :: e in cs.excluded && e.item == TestRef(m.0.testId) && e.replacedBy == BuildRefs(Targets(cs.builds)))
  }

  /** A target with related tests of its own gets those, and nothing of its dependents; for
      one without, its dependents stand in. */
  lemma DependentTestsOrBuilds(r: Resolved, w: World)
    requires ValidWorld(w) && Plan(r, w).Ok?
    ensures var cs := Plan(r, w).value;
            if Related(w) == [] then DependentsStandIn(r, w, cs)
            else cs.tests == DirectTests(w) != [] && forall b :: b in cs.builds ==> !b.reason.DependentScoped?
  {
    if Related(w) == [] {
      DependentsOfUntested(r, w);
    } else {
      var direct, fallback, builds := PlanParts(r, w);
      NoDirectTestsIff(w);
      var tier := BuildsTier(r, w);
    }
  }

  lemma DependentsOfUntested(r: Resolved, w: World)
    requires ValidWorld(w) && Plan(r, w).Ok? && Related(w) == []
    ensures DependentsStandIn(r, w, Plan(r, w).value)
  {
    var cs := Plan(r, w).value;
    var direct, fallback, builds := PlanParts(r, w);
    NoDirectTestsIff(w);
    FinalBuildsTier(r, w, direct, builds);
    var matches := DependentMatches(Dependents(r, w));
    assert Fallback(r, w) == matches;
    if cs.builds != [] {
      forall m | m in matches
        ensures exists e :: e in cs.excluded && e.item == TestRef(m.0.testId) && e.replacedBy == BuildRefs(Targets(cs.builds))
      {
        assert builds == direct;
        var k :| 0 <= k < |matches| && matches[k] == m;
        assert fallback[k] in fallback;
      }
    }
  }

  // ---- Constructible ------------------------------------------------------------------------

  lemma FinalTestsProvenance(r: Resolved, w: World, direct: MinimizedBuilds)
    requires ValidWorld(w)
    ensures forall t :: t in FinalTests(r, w, direct) ==> t.provenance != []
  {
    forall t | t in FinalTests(r, w, direct) ensures t.provenance != [] {
      var ms := Fallback(r, w);
      if ms != [] && direct.items == [] {
        var k :| 0 <= k < |ms| && FinalTests(r, w, direct)[k] == t;
        assert ms[k] in ms;
        FallbackMatchSpec(r, w, ms[k]);
        MergedNonEmpty([ms[k].1, ms[k].0.provenance, w.describe(ms[k].0.testId)], 1);
      } else {
        ItemsMember(Kept(Related(w)), w.describe, t);
        var g :| g in Kept(Related(w)) && t == Item(g, w.describe);
        KeptGroupsSpec(Related(w), Groups(Related(w)));
        ItemProvenance(Related(w), g, w.describe);
      }
    }
  }

  lemma FinalBuildsProvenance(r: Resolved, w: World, direct: MinimizedBuilds, builds: MinimizedBuilds)
    requires ValidWorld(w) && DirectBuilds(r, w) == Ok(direct) && FinalBuilds(r, w, direct) == Ok(builds)
    ensures forall b :: b in builds.items ==> b.provenance != []
  {
    if w.artifactMember {
    } else if FinalTests(r, w, direct) == [] && direct.items == [] && Dependents(r, w) != [] {
      BuildItemsCarryProvenance(r.owner, r.primary, w.buildTargets, Dependents(r, w), builds);
    } else {
      BuildItemsCarryProvenance(r.owner, r.primary, w.buildTargets, [], direct);
    }
  }

  ghost predicate ItemsCarryProvenance(cs: ChangeSet) {
    && (forall t :: t in cs.tests ==> t.provenance != [])
    && (forall b :: b in cs.builds ==> b.provenance != [])
    && (forall a :: a in cs.runners ==> a.provenance != [])
    && (forall op :: op in cs.validation ==> op.provenance != [])
    && (forall op :: op in cs.hygiene ==> op.provenance != [])
  }

  lemma SurfacesGiveProvenance(cs: ChangeSet)
    requires AnySurface(cs) && ItemsCarryProvenance(cs)
    ensures Merged(ItemProvenances(cs)) != []
  {
    var k := NonEmptyEntry(cs);
    MergedNonEmpty(ItemProvenances(cs), k);
  }

  lemma NonEmptyEntry(cs: ChangeSet) returns (k: nat)
    requires AnySurface(cs) && ItemsCarryProvenance(cs)
    ensures k < |ItemProvenances(cs)| && ItemProvenances(cs)[k] != []
  {
    var t, b, a, v := |cs.tests|, |cs.builds|, |cs.runners|, |cs.validation|;
    var all := ItemProvenances(cs);
    if cs.tests != [] { k := 0; assert all[k] == cs.tests[0].provenance; }
    else if cs.builds != [] { k := t; assert all[k] == cs.builds[0].provenance; }
    else if cs.runners != [] { k := t + b; assert all[k] == cs.runners[0].provenance; }
    else if cs.validation != [] { k := t + b + a; assert all[k] == cs.validation[0].provenance; }
    else { k := t + b + a + v; assert all[k] == cs.hygiene[0].provenance; }
  }

  lemma AssembleConstructs(r: Resolved, w: World, tests: seq<TestItem>, builds: seq<BuildItem>, runners: seq<RunnerAction>,
                           exclusions: seq<Exclusion>)
    requires forall t :: t in tests ==> t.provenance != []
    requires forall b :: b in builds ==> b.provenance != []
    requires forall a :: a in runners ==> a.provenance != []
    ensures Assemble(r, w, tests, builds, runners, exclusions) != Err(InvalidChangeSet)
  {
    var surfaces := ChangeSet(tests, builds, runners, QualityOperations(r, w, true), QualityOperations(r, w, false), [], []);
    if AnySurface(surfaces) { SurfacesGiveProvenance(surfaces); }
  }

  /** Once the non-empty check passes, the change set's own validator accepts. */
  lemma AlwaysConstructible(r: Resolved, w: World)
    requires ValidWorld(w)
    ensures Plan(r, w) != Err(InvalidChangeSet)
  {
    if DirectBuilds(r, w).Ok? {
      var direct := DirectBuilds(r, w).value;
      if FallbackExclusions(r, w, direct).Ok? && FinalBuilds(r, w, direct).Ok? && Runners(r, w).Ok? {
        var builds := FinalBuilds(r, w, direct).value;
        FinalTestsProvenance(r, w, direct);
        FinalBuildsProvenance(r, w, direct, builds);
        AssembleConstructs(r, w, FinalTests(r, w, direct), builds.items, Runners(r, w).value,
                           Exclusions(Related(w), w.describe) + FallbackExclusions(r, w, direct).value + builds.exclusions);
      }
    }
  }

  // ---- Exactly when there is a plan -----------------------------------------------------------

  /** Nothing at all validates the target. */
  ghost predicate NothingApplies(r: Resolved, w: World) {
    && !w.artifactMember && !Structured(r, w)
    && w.relatedTests == [] && !OffersDirect(r, w)
    && (r.primary.Some? ==> !OffersDependent(w.buildTargets, w.dependents) && forall d :: d in w.dependents ==> d.related == [])
    && !r.ownerIsRunner && (r.relevantFiles == [] || w.qualityProviders == [])
  }

  lemma {:induction false} FilterDistinctActions(targets: seq<BuildTarget>, p: BuildTarget -> bool)
    requires Distinct(ActionIds(targets))
    ensures Distinct(ActionIds(Filter(targets, p)))
  {
    if targets != [] {
      var n := |targets| - 1;
      ActionIdsAt(targets);
      assert ActionIds(targets[..n]) == ActionIds(targets)[..n];
      FilterDistinctActions(targets[..n], p);
      var f := Filter(targets[..n], p);
      ActionIdsAt(f);
      if p(targets[n]) {
        forall k | 0 <= k < |f| ensures ActionIds(f)[k] != targets[n].actionId {
          assert f[k] in f;
          FilterMember(targets[..n], p, f[k]);
          var j :| 0 <= j < n && targets[j] == f[k];
          assert ActionIds(targets)[j] != ActionIds(targets)[n];
        }
        assert (f + [targets[n]])[..|f|] == f;
      }
    }
  }

  /** Once-listed targets stay once-listed in every tier. */
  lemma TierActionsDistinct(tier: BuildReason, r: Resolved, w: World, ds: seq<Dependent>)
    requires UniqueActions(w)
    ensures Distinct(ActionIds(TierTargets(tier, r.owner, r.primary, w.buildTargets, ds)))
  {
    match tier
    case ComponentScoped => FilterDistinctActions(w.buildTargets, InComponent(r.primary));
    case OwnerAssociated => NarrowSpec(Filter(w.buildTargets, OwnedBy(r.owner, r.primary)));
    case DependentScoped => DedupedSpec(ds, w.buildTargets);
    case RepositoryWide => FilterDistinctActions(w.buildTargets, RepositoryWideTarget());
  }

  /** With listed-once build targets no exclusion is ever refused. */
  lemma NeverRefused(r: Resolved, w: World, ds: seq<Dependent>)
    requires UniqueActions(w)
    ensures Minimize(r.owner, r.primary, w.buildTargets, ds).Ok?
    ensures Distinct(BuildRefs(Targets(Minimize(r.owner, r.primary, w.buildTargets, ds).value.items)))
  {
    FilterDistinctActions(w.buildTargets, InComponent(r.primary));
    RefusedIff(r.owner, r.primary, w.buildTargets, ds);
    var m := Minimize(r.owner, r.primary, w.buildTargets, ds).value;
    ChosenTargets(r.owner, r.primary, w.buildTargets, ds, m);
    TierActionsDistinct(Tier(r.owner, r.primary, w.buildTargets, ds), r, w, ds);
    RefsDistinct(Targets(m.items));
  }

  lemma FallbackIff(r: Resolved, w: World)
    ensures DependentMatches(Dependents(r, w)) == [] <==> forall d :: d in Dependents(r, w) ==> d.related == []
  {
    var ds := Dependents(r, w);
    DependentMatchesSpec(ds);
    var ms := DependentMatches(ds);
    if ms != [] {
      assert ms[0] in ms;
    }
    if d :| d in ds && d.related != [] {
      assert d.related[0] in d.related;
      assert d.related[0].testId in KeySet(ms, TestOf());
    }
  }

  /** The plan fails exactly when a runner target does not have one action, or when
      nothing at all applies to the target. */
  lemma PlanOutcome(r: Resolved, w: World)
    requires ValidWorld(w) && UniqueActions(w)
    ensures Plan(r, w) == Err(RunnerActionCount) <==> r.ownerIsRunner && |w.runnerActions| != 1
    ensures Plan(r, w) == Err(NoSurfaces) <==> NothingApplies(r, w)
    ensures Plan(r, w).Ok? <==> !(r.ownerIsRunner && |w.runnerActions| != 1) && !NothingApplies(r, w)
  {
    AlwaysConstructible(r, w);
    NeverRefused(r, w, []);
    NeverRefused(r, w, Dependents(r, w));
    var direct := DirectBuilds(r, w).value;
    assert FallbackExclusions(r, w, direct).Ok?;
    assert FinalBuilds(r, w, direct).Ok?;
    var builds := FinalBuilds(r, w, direct).value;
    if Runners(r, w).Ok? { SurfacesIff(r, w, direct, builds); }
  }

  lemma SurfacesIff(r: Resolved, w: World, direct: MinimizedBuilds, builds: MinimizedBuilds)
    requires ValidWorld(w) && DirectBuilds(r, w) == Ok(direct) && FinalBuilds(r, w, direct) == Ok(builds) && Runners(r, w).Ok?
    ensures var cs := ChangeSet(FinalTests(r, w, direct), builds.items, Runners(r, w).value,
                                QualityOperations(r, w, true), QualityOperations(r, w, false), [], []);
            NothingApplies(r, w) <==> !AnySurface(cs) && Availability(r, w, cs) == []
  {
    NoDirectTestsIff(w);
    DirectBuildsTier(r, w, direct);
    FinalBuildsTier(r, w, direct, builds);
    FallbackIff(r, w);
  }

  // ---- Every exclusion is justified -----------------------------------------------------------

  ghost function KeptRefs(cs: ChangeSet): set<ItemRef> {
    (set t | t in cs.tests :: TestRef(t.testId)) + (set b | b in cs.builds :: BuildRef(b.target.actionId))
  }

  lemma {:induction false} LeadsMonotone(item: ItemRef, k1: set<ItemRef>, e1: seq<Exclusion>, k2: set<ItemRef>, e2: seq<Exclusion>,
                                         steps: nat)
    requires Leads(item, k1, e1, steps) && k1 <= k2 && forall e :: e in e1 ==> e in e2
    ensures Leads(item, k2, e2, steps)
    decreases steps
  {
    if item !in k1 {
      var e, x :| e in e1 && e.item == item && x in e.replacedBy && Leads(x, k1, e1, steps - 1);
      LeadsMonotone(x, k1, e1, k2, e2, steps - 1);
    }
  }

  lemma DirectTestRefs(w: World, cs: ChangeSet)
    requires cs.tests == DirectTests(w)
    ensures KeptTestRefs(Related(w)) <= KeptRefs(cs)
  {
    var kept := Kept(Related(w));
    GroupIdsAt(kept);
    forall id | id in GroupIds(kept) ensures TestRef(id) in KeptRefs(cs) {
      var k :| 0 <= k < |kept| && GroupIds(kept)[k] == id;
      ItemsAt(kept, k, w.describe);
      assert cs.tests[k] in cs.tests && cs.tests[k].testId == id;
    }
  }

  lemma ChosenBuildKept(cs: ChangeSet, e: Exclusion)
    requires cs.builds != [] && e.replacedBy == BuildRefs(Targets(cs.builds))
    ensures Justified(e, KeptRefs(cs), cs.excluded)
  {
    var ref := BuildRef(cs.builds[0].target.actionId);
    assert e.replacedBy[0] == ref;
    assert cs.builds[0] in cs.builds;
    assert ref in e.replacedBy && Leads(ref, KeptRefs(cs), cs.excluded, 1);
  }

  lemma TestExclusionJustified(w: World, cs: ChangeSet, e: Exclusion)
    requires ValidWorld(w) && e in Exclusions(Related(w), w.describe)
    requires DirectTests(w) != [] ==> cs.tests == DirectTests(w)
    requires forall x :: x in Exclusions(Related(w), w.describe) ==> x in cs.excluded
    ensures Justified(e, KeptRefs(cs), cs.excluded)
  {
    ExclusionsJustified(Related(w), w.describe, e);
    NoDirectTestsIff(w);
    IdsMember(Related(w), e.item.testId);
    DirectTestRefs(w, cs);
    var x :| x in e.replacedBy && Leads(x, KeptTestRefs(Related(w)), Exclusions(Related(w), w.describe), 1);
    LeadsMonotone(x, KeptTestRefs(Related(w)), Exclusions(Related(w), w.describe), KeptRefs(cs), cs.excluded, 1);
  }

  /** From every exclusion that names replacements, following them reaches an item
      of the change set. */
  lemma EveryExclusionJustified(r: Resolved, w: World, e: Exclusion)
    requires ValidWorld(w) && Plan(r, w).Ok? && e in Plan(r, w).value.excluded
    ensures Justified(e, KeptRefs(Plan(r, w).value), Plan(r, w).value.excluded)
  {
    var cs := Plan(r, w).value;
    var direct, fallback, builds := PlanParts(r, w);
    FinalBuildsTier(r, w, direct, builds);
    if e in Exclusions(Related(w), w.describe) {
      TestExclusionJustified(w, cs, e);
    } else if e in fallback {
      ChosenBuildKept(cs, e);
    } else if e in builds.exclusions {
      if builds == direct {
        BuildExclusionsSpec(r.owner, r.primary, w.buildTargets, [], builds);
      } else {
        BuildExclusionsSpec(r.owner, r.primary, w.buildTargets, Dependents(r, w), builds);
      }
      ChosenBuildKept(cs, e);
    }
  }
}
