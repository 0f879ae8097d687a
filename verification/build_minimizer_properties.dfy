/** What `minimize_build_targets` promises, for any list of targets. */
module BuildMinimizerProperties {
  import opened Ordering
  import opened ChangeSetModels
  import opened FirstPerKey
  import opened BuildMinimizer

  // ---- The tier, stated by what exists -------------------------------------------

  ghost predicate Offers(targets: seq<BuildTarget>, p: BuildTarget -> bool) {
    exists t :: t in targets && p(t)
  }

  ghost predicate OffersDependent(targets: seq<BuildTarget>, dependents: seq<Dependent>) {
    exists d, t :: d in dependents && t in targets && DependsOn(d)(t)
  }

  ghost function Tier(owner: Id, primary: Option<Id>, targets: seq<BuildTarget>, dependents: seq<Dependent>): BuildReason {
    if Offers(targets, InComponent(primary)) then ComponentScoped
    else if Offers(targets, OwnedBy(owner, primary)) then OwnerAssociated
    else if primary.Some? && OffersDependent(targets, dependents) then DependentScoped
    else RepositoryWide
  }

  /** Whether the target belongs to the tier. */
  ghost predicate InTier(tier: BuildReason, owner: Id, primary: Option<Id>, dependents: seq<Dependent>, t: BuildTarget) {
    match tier
    case ComponentScoped => InComponent(primary)(t)
    case OwnerAssociated => OwnedBy(owner, primary)(t)
    case DependentScoped => exists d :: d in dependents && DependsOn(d)(t)
    case RepositoryWide => RepositoryWideTarget()(t)
  }

  function Targets(items: seq<BuildItem>): (r: seq<BuildTarget>)
    ensures |r| == |items|
  {
    seq(|items|, i requires 0 <= i < |items| => items[i].target)
  }

  // ---- Action ids ------------------------------------------------------------------

  lemma {:induction false} ActionIdsAt(ts: seq<BuildTarget>)
    ensures |ActionIds(ts)| == |ts|
    ensures forall k :: 0 <= k < |ts| ==> ActionIds(ts)[k] == ts[k].actionId
  {
    if ts != [] { ActionIdsAt(ts[..|ts| - 1]); }
  }

  lemma {:induction false} LastWithSpec(ts: seq<BuildTarget>, id: Id)
    ensures id in ActionIds(ts) <==> LastWith(ts, id).Some?
    ensures LastWith(ts, id).Some? ==> LastWith(ts, id).value in ts && LastWith(ts, id).value.actionId == id
  {
    if ts != [] {
      LastWithSpec(ts[..|ts| - 1], id);
      assert ts == ts[..|ts| - 1] + [ts[|ts| - 1]];
    }
  }

  lemma {:induction false} LastPerActionSpec(ts: seq<BuildTarget>, ids: seq<Id>)
    requires forall id :: id in ids ==> id in ActionIds(ts)
    ensures ActionIds(LastPerAction(ts, ids)) == ids
    ensures forall t :: t in LastPerAction(ts, ids) ==> t in ts
  {
    if ids != [] {
      var n := |ids| - 1;
      LastPerActionSpec(ts, ids[..n]);
      assert ids[n] in ids;
      LastWithSpec(ts, ids[n]);
      var r := LastPerAction(ts, ids[..n]);
      assert (r + [LastWith(ts, ids[n]).value])[..|r|] == r;
    }
  }

  /** The dict comprehension keeps each action id once, in increasing order. */
  lemma NarrowSpec(ts: seq<BuildTarget>)
    ensures Increasing(ActionIds(Narrow(ts)))
    ensures forall id :: id in ActionIds(Narrow(ts)) <==> id in ActionIds(ts)
    ensures forall t :: t in Narrow(ts) ==> t in ts
    ensures Narrow(ts) == [] <==> ts == []
  {
    SortedKeysSpec(ActionIds(ts));
    LastPerActionSpec(ts, SortedKeys(ActionIds(ts)));
    ActionIdsAt(ts);
    ActionIdsAt(Narrow(ts));
    if ts != [] {
      assert ActionIds(ts)[0] in ActionIds(Narrow(ts));
    }
    if Narrow(ts) != [] {
      assert Narrow(ts)[0] in Narrow(ts);
    }
  }

  /** Two lists of targets over one set, with the same increasing ids, are equal. */
  lemma SameTargets(a: seq<BuildTarget>, b: seq<BuildTarget>)
    requires ActionIds(a) == ActionIds(b) && Increasing(ActionIds(b))
    requires forall t :: t in a ==> t in b
    ensures a == b
  {
    ActionIdsAt(a);
    ActionIdsAt(b);
    forall k | 0 <= k < |a| ensures a[k] == b[k] {
      assert a[k] in b;
      var j :| 0 <= j < |b| && b[j] == a[k];
      assert ActionIds(b)[j] == ActionIds(b)[k];
    }
  }

  lemma NarrowFixesIncreasing(ts: seq<BuildTarget>)
    requires Increasing(ActionIds(ts))
    ensures Narrow(ts) == ts
  {
    NarrowSpec(ts);
    IncreasingUnique(ActionIds(Narrow(ts)), ActionIds(ts));
    SameTargets(Narrow(ts), ts);
  }

  // ---- Dependent pairs -------------------------------------------------------------

  lemma {:induction false} PairsOfMember(d: Dependent, ts: seq<BuildTarget>, p: Pair)
    ensures p in PairsOf(d, ts) <==> p.0 == d && p.1 in ts && DependsOn(d)(p.1)
  {
    if ts != [] {
      PairsOfMember(d, ts[..|ts| - 1], p);
      assert ts == ts[..|ts| - 1] + [ts[|ts| - 1]];
    }
  }

  lemma {:induction false} PairsMember(ds: seq<Dependent>, ts: seq<BuildTarget>, p: Pair)
    ensures p in Pairs(ds, ts) <==> p.0 in ds && p.1 in ts && DependsOn(p.0)(p.1)
  {
    if ds != [] {
      var n := |ds| - 1;
      PairsMember(ds[..n], ts, p);
      PairsOfMember(ds[n], ts, p);
      assert ds == ds[..n] + [ds[n]];
    }
  }

  function Seconds(ps: seq<Pair>): (r: seq<BuildTarget>)
    ensures |r| == |ps|
  {
    seq(|ps|, i requires 0 <= i < |ps| => ps[i].1)
  }

  lemma SecondsActions(ps: seq<Pair>)
    ensures forall id :: id in ActionIds(Seconds(ps)) <==> id in KeySet(ps, ActionOf())
  {
    var ids := ActionIds(Seconds(ps));
    ActionIdsAt(Seconds(ps));
    forall id | id in ids ensures id in KeySet(ps, ActionOf()) {
      var k :| 0 <= k < |ids| && ids[k] == id;
      assert ps[k] in ps && ActionOf()(ps[k]) == id;
    }
    forall p | p in ps ensures p.1.actionId in ids {
      var k :| 0 <= k < |ps| && ps[k] == p;
      assert ids[k] == p.1.actionId;
    }
  }

  /** One pair per action id, by increasing id. */
  lemma DedupedSpec(ds: seq<Dependent>, ts: seq<BuildTarget>)
    ensures Increasing(ActionIds(Seconds(Deduped(ds, ts))))
    ensures forall p :: p in Deduped(ds, ts) ==> p in Pairs(ds, ts)
    ensures forall id :: id in ActionIds(Seconds(Deduped(ds, ts))) <==> id in KeySet(Pairs(ds, ts), ActionOf())
    ensures Deduped(ds, ts) == [] <==> !OffersDependent(ts, ds)
  {
    var sorted, deduped := Sort(Pairs(ds, ts), PairOrder()), Deduped(ds, ts);
    SortPermutes(Pairs(ds, ts), PairOrder());
    FirstPerSpec(sorted, ActionOf());
    SecondsActions(deduped);
    DedupedIncreasing(ds, ts);
    DedupedEmpty(ds, ts);
    assert KeySet(sorted, ActionOf()) == KeySet(Pairs(ds, ts), ActionOf());
  }

  lemma DedupedIncreasing(ds: seq<Dependent>, ts: seq<BuildTarget>)
    ensures Increasing(ActionIds(Seconds(Deduped(ds, ts))))
  {
    var sorted, deduped := Sort(Pairs(ds, ts), PairOrder()), Deduped(ds, ts);
    SortSorts(Pairs(ds, ts), PairOrder());
    FirstPerSpec(sorted, ActionOf());
    FirstPerSorted(sorted, ActionOf(), PairOrder());
    ActionIdsAt(Seconds(deduped));
    forall i, j | 0 <= i < j < |deduped| ensures deduped[i].1.actionId < deduped[j].1.actionId {
      assert PairOrder()(deduped[i], deduped[j]) && ActionOf()(deduped[i]) != ActionOf()(deduped[j]);
    }
  }

  lemma DedupedEmpty(ds: seq<Dependent>, ts: seq<BuildTarget>)
    ensures Deduped(ds, ts) == [] <==> !OffersDependent(ts, ds)
  {
    var sorted := Sort(Pairs(ds, ts), PairOrder());
    SortPermutes(Pairs(ds, ts), PairOrder());
    assert sorted == [] <==> Deduped(ds, ts) == [] by {
      if sorted != [] { FirstPerKeepsFirsts(sorted, ActionOf(), 0); }
    }
    if sorted != [] {
      assert sorted[0] in sorted;
      PairsMember(ds, ts, sorted[0]);
    }
    if d, t :| d in ds && t in ts && DependsOn(d)(t) {
      PairsMember(ds, ts, (d, t));
      assert (d, t) in sorted;
    }
  }

  // ---- Theorems ---------------------------------------------------------------------

  lemma TierOfMinimize(owner: Id, primary: Option<Id>, targets: seq<BuildTarget>, dependents: seq<Dependent>)
    ensures Filter(targets, InComponent(primary)) != [] <==> Offers(targets, InComponent(primary))
    ensures Narrow(Filter(targets, OwnedBy(owner, primary))) != [] <==> Offers(targets, OwnedBy(owner, primary))
    ensures Deduped(dependents, targets) != [] <==> OffersDependent(targets, dependents)
  {
    FilterNone(targets, InComponent(primary));
    FilterNone(targets, OwnedBy(owner, primary));
    NarrowSpec(Filter(targets, OwnedBy(owner, primary)));
    DedupedSpec(dependents, targets);
  }

  /** What the minimizer returns, tier by tier. */
  lemma Shape(owner: Id, primary: Option<Id>, targets: seq<BuildTarget>, dependents: seq<Dependent>, m: MinimizedBuilds)
    requires Minimize(owner, primary, targets, dependents) == Ok(m)
    ensures var tier := Tier(owner, primary, targets, dependents);
            var repository := Filter(targets, RepositoryWideTarget());
            match tier
            case ComponentScoped =>
              primary.Some? && m == MinimizedBuilds(BuildItems(Filter(targets, InComponent(primary)), tier, primary.value),
                                                    ReplacedRepositories(repository, Filter(targets, InComponent(primary))))
            case OwnerAssociated =>
              m == MinimizedBuilds(BuildItems(Narrow(Filter(targets, OwnedBy(owner, primary))), tier, owner),
                                   ReplacedRepositories(repository, Narrow(Filter(targets, OwnedBy(owner, primary)))))
            case DependentScoped =>
              primary.Some? && m == MinimizedBuilds(DependentItems(Deduped(dependents, targets), primary.value), [])
            case RepositoryWide => m == MinimizedBuilds(BuildItems(repository, tier, owner), [])
  {
    TierOfMinimize(owner, primary, targets, dependents);
  }

  /** The targets are all in the tier, and every action the tier offers is among them. */
  ghost predicate Exactly(tier: BuildReason, owner: Id, primary: Option<Id>, targets: seq<BuildTarget>,
                          dependents: seq<Dependent>, chosen: seq<BuildTarget>)
  {
    && (forall t :: t in chosen ==> t in targets && InTier(tier, owner, primary, dependents, t))
    && (forall t :: t in targets && InTier(tier, owner, primary, dependents, t) ==> t.actionId in ActionIds(chosen))
  }

  /** Which targets are built: all from the narrowest tier that offers any, every
      offered action of that tier, and none from any other. */
  lemma OneTier(owner: Id, primary: Option<Id>, targets: seq<BuildTarget>, dependents: seq<Dependent>, m: MinimizedBuilds)
    requires Minimize(owner, primary, targets, dependents) == Ok(m)
    ensures var tier := Tier(owner, primary, targets, dependents);
            && (forall b :: b in m.items ==> b.reason == tier)
            && Exactly(tier, owner, primary, targets, dependents, Targets(m.items))
  {
    Shape(owner, primary, targets, dependents, m);
    ChosenTargets(owner, primary, targets, dependents, m);
  }

  /** The chosen targets, tier by tier. */
  ghost function TierTargets(tier: BuildReason, owner: Id, primary: Option<Id>, targets: seq<BuildTarget>,
                             dependents: seq<Dependent>): seq<BuildTarget>
  {
    match tier
    case ComponentScoped => Filter(targets, InComponent(primary))
    case OwnerAssociated => Narrow(Filter(targets, OwnedBy(owner, primary)))
    case DependentScoped => Seconds(Deduped(dependents, targets))
    case RepositoryWide => Filter(targets, RepositoryWideTarget())
  }

  lemma ChosenTargets(owner: Id, primary: Option<Id>, targets: seq<BuildTarget>, dependents: seq<Dependent>, m: MinimizedBuilds)
    requires Minimize(owner, primary, targets, dependents) == Ok(m)
    ensures Targets(m.items) == TierTargets(Tier(owner, primary, targets, dependents), owner, primary, targets, dependents)
    ensures Exactly(Tier(owner, primary, targets, dependents), owner, primary, targets, dependents, Targets(m.items))
  {
    Shape(owner, primary, targets, dependents, m);
    var tier := Tier(owner, primary, targets, dependents);
    assert Targets(m.items) == TierTargets(tier, owner, primary, targets, dependents);
    TierTargetsExactly(tier, owner, primary, targets, dependents);
  }

  lemma TierTargetsExactly(tier: BuildReason, owner: Id, primary: Option<Id>, targets: seq<BuildTarget>, dependents: seq<Dependent>)
    ensures Exactly(tier, owner, primary, targets, dependents, TierTargets(tier, owner, primary, targets, dependents))
  {
    match tier
    case ComponentScoped => FilteredTargets(targets, InComponent(primary));
    case OwnerAssociated => OwnedTargets(owner, primary, targets, dependents);
    case DependentScoped => DependentTargets(owner, primary, targets, dependents);
    case RepositoryWide => FilteredTargets(targets, RepositoryWideTarget());
  }

  lemma FilteredTargets(targets: seq<BuildTarget>, p: BuildTarget -> bool)
    ensures forall t :: t in Filter(targets, p) <==> t in targets && p(t)
    ensures forall t :: t in targets && p(t) ==> t.actionId in ActionIds(Filter(targets, p))
  {
    var filtered := Filter(targets, p);
    forall t { FilterMember(targets, p, t); }
    ActionIdsAt(filtered);
    forall t | t in targets && p(t) ensures t.actionId in ActionIds(filtered) {
      var k :| 0 <= k < |filtered| && filtered[k] == t;
      assert ActionIds(filtered)[k] == t.actionId;
    }
  }

  lemma OwnedTargets(owner: Id, primary: Option<Id>, targets: seq<BuildTarget>, dependents: seq<Dependent>)
    ensures Exactly(OwnerAssociated, owner, primary, targets, dependents, Narrow(Filter(targets, OwnedBy(owner, primary))))
  {
    FilteredTargets(targets, OwnedBy(owner, primary));
    NarrowSpec(Filter(targets, OwnedBy(owner, primary)));
  }

  lemma DependentTargets(owner: Id, primary: Option<Id>, targets: seq<BuildTarget>, dependents: seq<Dependent>)
    ensures Exactly(DependentScoped, owner, primary, targets, dependents, Seconds(Deduped(dependents, targets)))
  {
    var deduped := Deduped(dependents, targets);
    DedupedSpec(dependents, targets);
    forall t | t in Seconds(deduped) ensures t in targets && InTier(DependentScoped, owner, primary, dependents, t) {
      var k :| 0 <= k < |deduped| && Seconds(deduped)[k] == t;
      assert deduped[k] in deduped;
      PairsMember(dependents, targets, deduped[k]);
    }
    forall t | t in targets && InTier(DependentScoped, owner, primary, dependents, t)
      ensures t.actionId in ActionIds(Seconds(deduped))
    {
      var d :| d in dependents && DependsOn(d)(t);
      PairsMember(dependents, targets, (d, t));
      assert ActionOf()((d, t)) in KeySet(Pairs(dependents, targets), ActionOf());
    }
  }

  lemma RefsDistinct(ts: seq<BuildTarget>)
    ensures Distinct(BuildRefs(ts)) <==> Distinct(ActionIds(ts))
  {
    ActionIdsAt(ts);
    if Distinct(BuildRefs(ts)) {
      forall i, j | 0 <= i < j < |ts| ensures ActionIds(ts)[i] != ActionIds(ts)[j] {
        assert BuildRefs(ts)[i] != BuildRefs(ts)[j];
      }
    }
  }

  /** Exactly when building the exclusions is refused: two component-scoped targets
      share an action id while there is a repository-wide target to exclude. */
  lemma RefusedIff(owner: Id, primary: Option<Id>, targets: seq<BuildTarget>, dependents: seq<Dependent>)
    ensures Minimize(owner, primary, targets, dependents).Err? <==>
            && Offers(targets, RepositoryWideTarget())
            && !Distinct(ActionIds(Filter(targets, InComponent(primary))))
  {
    TierOfMinimize(owner, primary, targets, dependents);
    FilterNone(targets, RepositoryWideTarget());
    RefsDistinct(Filter(targets, InComponent(primary)));
    NarrowSpec(Filter(targets, OwnedBy(owner, primary)));
    RefsDistinct(Narrow(Filter(targets, OwnedBy(owner, primary))));
  }

  /** Such an input: two targets of one component under one action id, and a repository-wide
      one. The planner never passes it, since the build service lists an action id once. */
  lemma SharedActionIsRefused(owner: Id, component: Id) returns (targets: seq<BuildTarget>)
    ensures |targets| == 3 && Minimize(owner, Some(component), targets, []) == Err(DuplicateReplacement)
  {
    var a := BuildTarget(1, component, ComponentTarget, [], [Evidence(1)]);
    var b := BuildTarget(1, component, ComponentTarget, [], [Evidence(2)]);
    var wide := BuildTarget(2, 0, RepositoryTarget, [], [Evidence(3)]);
    targets := [a, b, wide];
    var p := InComponent(Some(component));
    assert targets == [] + [a] + [b] + [wide];
    FilterStep([], a, p);
    FilterStep([] + [a], b, p);
    FilterStep([] + [a] + [b], wide, p);
    ActionIdsAt([a, b]);
    assert Filter(targets, p) == [a, b] && ActionIds([a, b])[0] == ActionIds([a, b])[1];
    assert wide in targets && RepositoryWideTarget()(wide);
    RefusedIff(owner, Some(component), targets, []);
  }

  /** Running the minimizer on what it selected selects the same targets, in the
      same order, for the same reason. */
  lemma Idempotent(owner: Id, primary: Option<Id>, targets: seq<BuildTarget>, dependents: seq<Dependent>, m: MinimizedBuilds)
    requires Minimize(owner, primary, targets, dependents) == Ok(m)
    ensures var again := Minimize(owner, primary, Targets(m.items), dependents);
            && again.Ok? && Targets(again.value.items) == Targets(m.items)
            && forall k :: 0 <= k < |m.items| ==> again.value.items[k].reason == m.items[k].reason
  {
    var selected := Targets(m.items);
    var tier := Tier(owner, primary, targets, dependents);
    SelectedTier(owner, primary, targets, dependents, m);
    ChosenTargets(owner, primary, targets, dependents, m);
    SelectedAgain(owner, primary, targets, dependents, tier);
    RefusedIff(owner, primary, selected, dependents);
    if !tier.RepositoryWide? { NoRepositoryWide(owner, primary, targets, dependents, m); }
    var again := Minimize(owner, primary, selected, dependents).value;
    ChosenTargets(owner, primary, selected, dependents, again);
    SameReasons(owner, primary, selected, dependents, again);
    SameReasons(owner, primary, targets, dependents, m);
  }

  lemma SameReasons(owner: Id, primary: Option<Id>, targets: seq<BuildTarget>, dependents: seq<Dependent>, m: MinimizedBuilds)
    requires Minimize(owner, primary, targets, dependents) == Ok(m)
    ensures forall k :: 0 <= k < |m.items| ==> m.items[k].reason == Tier(owner, primary, targets, dependents)
  {
    Shape(owner, primary, targets, dependents, m);
  }

  lemma NoRepositoryWide(owner: Id, primary: Option<Id>, targets: seq<BuildTarget>, dependents: seq<Dependent>, m: MinimizedBuilds)
    requires Minimize(owner, primary, targets, dependents) == Ok(m)
    requires !Tier(owner, primary, targets, dependents).RepositoryWide?
    ensures !Offers(Targets(m.items), RepositoryWideTarget())
  {
    OneTier(owner, primary, targets, dependents, m);
  }

  /** The selection offers the same tier as the targets it was made from. */
  lemma SelectedTier(owner: Id, primary: Option<Id>, targets: seq<BuildTarget>, dependents: seq<Dependent>, m: MinimizedBuilds)
    requires Minimize(owner, primary, targets, dependents) == Ok(m)
    ensures Tier(owner, primary, Targets(m.items), dependents) == Tier(owner, primary, targets, dependents)
    ensures Tier(owner, primary, targets, dependents).RepositoryWide? ==>
              !Offers(Targets(m.items), InComponent(primary)) && Filter(Targets(m.items), InComponent(primary)) == []
  {
    var selected := Targets(m.items);
    OneTier(owner, primary, targets, dependents, m);
    ActionIdsAt(selected);
    var tier := Tier(owner, primary, targets, dependents);
    if t :| t in targets && InTier(tier, owner, primary, dependents, t) {
      var k :| 0 <= k < |selected| && ActionIds(selected)[k] == t.actionId;
      assert selected[k] in selected;
    }
    FilterNone(selected, InComponent(primary));
  }

  /** Applying the tier's own selection to the selection changes nothing. */
  lemma SelectedAgain(owner: Id, primary: Option<Id>, targets: seq<BuildTarget>, dependents: seq<Dependent>, tier: BuildReason)
    ensures var selected := TierTargets(tier, owner, primary, targets, dependents);
            TierTargets(tier, owner, primary, selected, dependents) == selected
  {
    var selected := TierTargets(tier, owner, primary, targets, dependents);
    match tier
    case ComponentScoped => FilteredAgain(targets, InComponent(primary));
    case OwnerAssociated => OwnedAgain(owner, primary, targets);
    case DependentScoped => DependentIdempotent(targets, dependents);
    case RepositoryWide => FilteredAgain(targets, RepositoryWideTarget());
  }

  lemma FilteredAgain(targets: seq<BuildTarget>, p: BuildTarget -> bool)
    ensures Filter(Filter(targets, p), p) == Filter(targets, p)
  {
    FilteredTargets(targets, p);
    FilterAll(Filter(targets, p), p);
  }

  lemma OwnedAgain(owner: Id, primary: Option<Id>, targets: seq<BuildTarget>)
    ensures var selected := Narrow(Filter(targets, OwnedBy(owner, primary)));
            Narrow(Filter(selected, OwnedBy(owner, primary))) == selected
  {
    var owned := Filter(targets, OwnedBy(owner, primary));
    FilteredTargets(targets, OwnedBy(owner, primary));
    NarrowSpec(owned);
    FilterAll(Narrow(owned), OwnedBy(owner, primary));
    NarrowFixesIncreasing(Narrow(owned));
  }

  lemma DependentIdempotent(targets: seq<BuildTarget>, dependents: seq<Dependent>)
    ensures Seconds(Deduped(dependents, Seconds(Deduped(dependents, targets)))) == Seconds(Deduped(dependents, targets))
  {
    var deduped := Deduped(dependents, targets);
    var selected := Seconds(deduped);
    var again := Deduped(dependents, selected);
    DedupedSpec(dependents, targets);
    DedupedSpec(dependents, selected);
    ActionIdsAt(selected);
    forall id ensures id in ActionIds(Seconds(again)) <==> id in ActionIds(selected) {
      if id in ActionIds(selected) {
        var k :| 0 <= k < |selected| && ActionIds(selected)[k] == id;
        assert deduped[k] in deduped && selected[k] in selected;
        PairsMember(dependents, targets, deduped[k]);
        PairsMember(dependents, selected, deduped[k]);
      }
      if id in ActionIds(Seconds(again)) {
        var p :| p in Pairs(dependents, selected) && p.1.actionId == id;
        PairsMember(dependents, selected, p);
        var k :| 0 <= k < |selected| && selected[k] == p.1;
        assert ActionIds(selected)[k] == id;
      }
    }
    IncreasingUnique(ActionIds(Seconds(again)), ActionIds(selected));
    forall t | t in Seconds(again) ensures t in selected {
      var k :| 0 <= k < |again| && Seconds(again)[k] == t;
      assert again[k] in again;
      PairsMember(dependents, selected, again[k]);
    }
    SameTargets(Seconds(again), selected);
  }

  ghost predicate ValidTargets(targets: seq<BuildTarget>) {
    forall t :: t in targets ==> t.provenance != []
  }

  /** Every exclusion is a repository-wide target, valid, and names exactly the chosen builds. */
  lemma BuildExclusionsSpec(owner: Id, primary: Option<Id>, targets: seq<BuildTarget>, dependents: seq<Dependent>,
                            m: MinimizedBuilds)
    requires ValidTargets(targets) && Minimize(owner, primary, targets, dependents) == Ok(m)
    ensures forall e :: e in m.exclusions ==> ValidExclusion(e) && e.replacedBy == BuildRefs(Targets(m.items)) && m.items != []
    ensures forall e :: e in m.exclusions ==>
              exists t :: t in targets && RepositoryWideTarget()(t) && e.item == BuildRef(t.actionId)
  {
    TierOfMinimize(owner, primary, targets, dependents);
    Shape(owner, primary, targets, dependents, m);
    var repository := Filter(targets, RepositoryWideTarget());
    FilteredTargets(targets, RepositoryWideTarget());
    var tier := Tier(owner, primary, targets, dependents);
    if tier.ComponentScoped? || tier.OwnerAssociated? {
      var chosen := Targets(m.items);
      ChosenTargets(owner, primary, targets, dependents, m);
      assert m.exclusions == ReplacedRepositories(repository, chosen);
      RefsDistinct(chosen);
      NarrowSpec(Filter(targets, OwnedBy(owner, primary)));
      RefusedIff(owner, primary, targets, dependents);
      ReplacedSpec(repository, chosen);
    }
  }

  ghost predicate Mentioned(m: MinimizedBuilds, t: BuildTarget) {
    t in Targets(m.items) || exists e :: e in m.exclusions && e.item == BuildRef(t.actionId)
  }

  /** Every repository-wide target is selected or excluded exactly if the tier is not the
      dependent one, or there is no such target. */
  lemma RepositoryWideMentionedIff(owner: Id, primary: Option<Id>, targets: seq<BuildTarget>, dependents: seq<Dependent>,
                                   m: MinimizedBuilds)
    requires Minimize(owner, primary, targets, dependents) == Ok(m)
    ensures (forall t :: t in targets && RepositoryWideTarget()(t) ==> Mentioned(m, t)) <==>
            !Tier(owner, primary, targets, dependents).DependentScoped? || !Offers(targets, RepositoryWideTarget())
  {
    Shape(owner, primary, targets, dependents, m);
    var repository := Filter(targets, RepositoryWideTarget());
    FilteredTargets(targets, RepositoryWideTarget());
    match Tier(owner, primary, targets, dependents)
    case ComponentScoped => ReplacedMentions(repository, Filter(targets, InComponent(primary)));
    case OwnerAssociated => ReplacedMentions(repository, Narrow(Filter(targets, OwnedBy(owner, primary))));
    case DependentScoped => DependentTierForgets(owner, primary, targets, dependents, m);
    case RepositoryWide => ChosenTargets(owner, primary, targets, dependents, m);
  }

  /** Such a target: a build of a dependent component is chosen, and the repository-wide one is
      neither selected nor excluded. */
  lemma RepositoryWideIsForgotten(owner: Id, component: Id)
    returns (targets: seq<BuildTarget>, dependents: seq<Dependent>, m: MinimizedBuilds)
    ensures |targets| == 2 && RepositoryWideTarget()(targets[1])
    ensures Minimize(owner, Some(component), targets, dependents) == Ok(m) && !Mentioned(m, targets[1])
  {
    var narrow := BuildTarget(1, component + 1, ComponentTarget, [], [Evidence(1)]);
    var wide := BuildTarget(2, 0, RepositoryTarget, [], [Evidence(2)]);
    var dependent := Dependent(component + 1, [], []);
    targets, dependents := [narrow, wide], [dependent];
    assert !Offers(targets, InComponent(Some(component))) && !Offers(targets, OwnedBy(owner, Some(component)));
    assert dependent in dependents && narrow in targets && DependsOn(dependent)(narrow);
    FilterNone(targets, InComponent(Some(component)));
    RefusedIff(owner, Some(component), targets, dependents);
    m := Minimize(owner, Some(component), targets, dependents).value;
    DependentTierForgets(owner, Some(component), targets, dependents, m);
  }

  lemma ReplacedMentions(repository: seq<BuildTarget>, chosen: seq<BuildTarget>)
    ensures forall t :: t in repository ==>
              exists e :: e in ReplacedRepositories(repository, chosen) && e.item == BuildRef(t.actionId)
  {
    var exclusions := ReplacedRepositories(repository, chosen);
    forall t | t in repository ensures exists e :: e in exclusions && e.item == BuildRef(t.actionId) {
      var k :| 0 <= k < |repository| && repository[k] == t;
      assert exclusions[k] in exclusions;
    }
  }

  lemma DependentTierForgets(owner: Id, primary: Option<Id>, targets: seq<BuildTarget>, dependents: seq<Dependent>,
                             m: MinimizedBuilds)
    requires Minimize(owner, primary, targets, dependents) == Ok(m)
    requires Tier(owner, primary, targets, dependents).DependentScoped?
    ensures m.exclusions == [] && forall t :: RepositoryWideTarget()(t) ==> !Mentioned(m, t)
  {
    Shape(owner, primary, targets, dependents, m);
    OneTier(owner, primary, targets, dependents, m);
  }

  lemma ReplacedSpec(repository: seq<BuildTarget>, chosen: seq<BuildTarget>)
    requires ValidTargets(repository) && (repository != [] ==> Distinct(BuildRefs(chosen)))
    ensures forall e :: e in ReplacedRepositories(repository, chosen) ==>
              ValidExclusion(e) && e.replacedBy == BuildRefs(chosen)
              && exists t :: t in repository && e.item == BuildRef(t.actionId)
  {
    var exclusions := ReplacedRepositories(repository, chosen);
    forall e | e in exclusions
      ensures ValidExclusion(e) && e.replacedBy == BuildRefs(chosen)
              && exists t :: t in repository && e.item == BuildRef(t.actionId)
    {
      var k :| 0 <= k < |exclusions| && exclusions[k] == e;
      assert repository[k] in repository;
    }
  }

  /** Every built target carries provenance. */
  lemma BuildItemsCarryProvenance(owner: Id, primary: Option<Id>, targets: seq<BuildTarget>, dependents: seq<Dependent>,
                                  m: MinimizedBuilds)
    requires ValidTargets(targets) && Minimize(owner, primary, targets, dependents) == Ok(m)
    ensures forall b :: b in m.items ==> b.provenance != []
  {
    OneTier(owner, primary, targets, dependents, m);
    Shape(owner, primary, targets, dependents, m);
    forall b | b in m.items ensures b.provenance != [] {
      var k :| 0 <= k < |m.items| && m.items[k] == b;
      assert Targets(m.items)[k] in Targets(m.items);
      if Tier(owner, primary, targets, dependents).DependentScoped? {
        var p := Deduped(dependents, targets)[k];
        MergedNonEmpty([Merged(p.0.edges), p.1.provenance], 1);
      }
    }
  }
}
