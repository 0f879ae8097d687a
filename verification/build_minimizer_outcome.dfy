/** What `minimize_build_targets` returns, said of the targets it was given: tier by tier which
    targets, in which order, on whose account, and what the exclusions hold. */
module BuildMinimizerOutcome {
  import opened Ordering
  import opened StableSort
  import opened ChangeSetModels
  import opened FirstPerKey
  import opened BuildMinimizer
  import opened BuildMinimizerProperties

  /** Whether a target is on offer in a tier. */
  ghost predicate OnOffer(tier: BuildReason, owner: Id, primary: Option<Id>, dependents: seq<Dependent>, t: BuildTarget) {
    match tier
    case ComponentScoped => t.kind == ComponentTarget && primary == Some(t.targetId)
    case OwnerAssociated =>
      t.kind == ComponentTarget && (owner in t.ownerIds || (primary.Some? && primary.value in t.ownerIds))
    case DependentScoped => primary.Some? && t.kind == ComponentTarget && exists d :: d in dependents && d.componentId == t.targetId
    case RepositoryWide => t.kind == RepositoryTarget
  }

  ghost predicate Available(tier: BuildReason, owner: Id, primary: Option<Id>, targets: seq<BuildTarget>, dependents: seq<Dependent>) {
    exists t :: t in targets && OnOffer(tier, owner, primary, dependents, t)
  }

  /** The narrowest tier with anything on offer; the repository-wide one when there is none. */
  ghost predicate Narrowest(tier: BuildReason, owner: Id, primary: Option<Id>, targets: seq<BuildTarget>, dependents: seq<Dependent>) {
    && (tier != ComponentScoped ==> !Available(ComponentScoped, owner, primary, targets, dependents))
    && (tier != ComponentScoped && tier != OwnerAssociated ==> !Available(OwnerAssociated, owner, primary, targets, dependents))
    && (tier == RepositoryWide ==> !Available(DependentScoped, owner, primary, targets, dependents))
    && (tier != RepositoryWide ==> Available(tier, owner, primary, targets, dependents))
  }

  lemma TierIsNarrowest(owner: Id, primary: Option<Id>, targets: seq<BuildTarget>, dependents: seq<Dependent>)
    ensures forall tier :: Narrowest(tier, owner, primary, targets, dependents) <==> tier == Tier(owner, primary, targets, dependents)
  {
    SameAvailability(ComponentScoped, owner, primary, targets, dependents);
    SameAvailability(OwnerAssociated, owner, primary, targets, dependents);
    if primary.Some? { SameAvailability(DependentScoped, owner, primary, targets, dependents); }
    assert Offers(targets, InComponent(primary)) <==> Available(ComponentScoped, owner, primary, targets, dependents);
  }

  lemma OnOfferIsInTier(tier: BuildReason, owner: Id, primary: Option<Id>, dependents: seq<Dependent>, t: BuildTarget)
    requires primary.Some? || tier != DependentScoped
    ensures OnOffer(tier, owner, primary, dependents, t) <==> InTier(tier, owner, primary, dependents, t)
  {
    if tier == DependentScoped {
      if d :| d in dependents && d.componentId == t.targetId && t.kind == ComponentTarget { assert DependsOn(d)(t); }
    }
  }

  lemma SameAvailability(tier: BuildReason, owner: Id, primary: Option<Id>, targets: seq<BuildTarget>, dependents: seq<Dependent>)
    requires primary.Some? || tier != DependentScoped
    ensures Available(tier, owner, primary, targets, dependents) <==>
            match tier
            case ComponentScoped => Offers(targets, InComponent(primary))
            case OwnerAssociated => Offers(targets, OwnedBy(owner, primary))
            case DependentScoped => OffersDependent(targets, dependents)
            case RepositoryWide => Offers(targets, RepositoryWideTarget())
  {
    forall t { OnOfferIsInTier(tier, owner, primary, dependents, t); }
    if tier == DependentScoped && OffersDependent(targets, dependents) {
      var d, t :| d in dependents && t in targets && DependsOn(d)(t);
      assert InTier(tier, owner, primary, dependents, t);
    }
  }

  // ---- Component and repository-wide builds: every target on offer, in the order given -----

  /** The items are the targets at the positions `at`. */
  ghost predicate ListedAt(items: seq<BuildItem>, targets: seq<BuildTarget>, at: seq<nat>) {
    && |at| == |items|
    && (forall i :: 0 <= i < |at| ==> at[i] < |targets| && targets[at[i]] == items[i].target)
    && (forall i, j :: 0 <= i < j < |at| ==> at[i] < at[j])
  }

  lemma PlainTierSpec(tier: BuildReason, owner: Id, primary: Option<Id>, targets: seq<BuildTarget>, dependents: seq<Dependent>,
                      m: MinimizedBuilds) returns (at: seq<nat>)
    requires Minimize(owner, primary, targets, dependents) == Ok(m) && Narrowest(tier, owner, primary, targets, dependents)
    requires tier == ComponentScoped || tier == RepositoryWide
    ensures ListedAt(m.items, targets, at)
    ensures forall k :: 0 <= k < |targets| ==> (k in at <==> OnOffer(tier, owner, primary, dependents, targets[k]))
  {
    TierIsNarrowest(owner, primary, targets, dependents);
    ChosenTargets(owner, primary, targets, dependents, m);
    var p := if tier == ComponentScoped then InComponent(primary) else RepositoryWideTarget();
    at := FilterPicks(targets, p);
    assert forall i :: 0 <= i < |m.items| ==> Targets(m.items)[i] == m.items[i].target;
    forall k | 0 <= k < |targets| ensures k in at <==> OnOffer(tier, owner, primary, dependents, targets[k]) {
      OnOfferIsInTier(tier, owner, primary, dependents, targets[k]);
    }
  }

  // ---- Owner builds: the last target of each action, by action id --------------------------

  ghost predicate ByAction(items: seq<BuildItem>) {
    forall i, j :: 0 <= i < j < |items| ==> items[i].target.actionId < items[j].target.actionId
  }

  ghost predicate LastOffer(tier: BuildReason, owner: Id, primary: Option<Id>, targets: seq<BuildTarget>, dependents: seq<Dependent>,
                            t: BuildTarget)
  {
    exists k :: 0 <= k < |targets| && targets[k] == t && OnOffer(tier, owner, primary, dependents, t)
                && forall j :: k < j < |targets| && OnOffer(tier, owner, primary, dependents, targets[j]) ==>
                     targets[j].actionId != t.actionId
  }

  lemma {:induction false} LastWithAt(ts: seq<BuildTarget>, id: Id) returns (k: nat)
    requires LastWith(ts, id).Some?
    ensures k < |ts| && ts[k] == LastWith(ts, id).value && ts[k].actionId == id
    ensures forall j :: k < j < |ts| ==> ts[j].actionId != id
  {
    var n := |ts| - 1;
    if ts[n].actionId == id { k := n; } else { k := LastWithAt(ts[..n], id); }
  }

  lemma {:induction false} LastPerActionMember(ts: seq<BuildTarget>, ids: seq<Id>, t: BuildTarget)
    requires t in LastPerAction(ts, ids)
    ensures LastWith(ts, t.actionId) == Some(t)
  {
    var n := |ids| - 1;
    LastWithSpec(ts, ids[n]);
    if LastWith(ts, ids[n]) != Some(t) { LastPerActionMember(ts, ids[..n], t); }
  }

  lemma {:induction false} ItemsByAction(items: seq<BuildItem>, ts: seq<BuildTarget>)
    requires |items| == |ts| && (forall i :: 0 <= i < |items| ==> items[i].target == ts[i]) && Increasing(ActionIds(ts))
    ensures ByAction(items)
    ensures forall id :: id in ActionIds(ts) ==> exists b :: b in items && b.target.actionId == id
  {
    ActionIdsAt(ts);
    forall i, j | 0 <= i < j < |items| ensures items[i].target.actionId < items[j].target.actionId {
      assert ActionIds(ts)[i] < ActionIds(ts)[j];
    }
    forall id | id in ActionIds(ts) ensures exists b :: b in items && b.target.actionId == id {
      var i :| 0 <= i < |items| && ActionIds(ts)[i] == id;
      assert items[i] in items;
    }
  }

  lemma OwnerTierSpec(owner: Id, primary: Option<Id>, targets: seq<BuildTarget>, dependents: seq<Dependent>, m: MinimizedBuilds)
    requires Minimize(owner, primary, targets, dependents) == Ok(m)
    requires Narrowest(OwnerAssociated, owner, primary, targets, dependents)
    ensures ByAction(m.items)
    ensures forall b :: b in m.items ==> LastOffer(OwnerAssociated, owner, primary, targets, dependents, b.target)
    ensures forall t :: t in targets && OnOffer(OwnerAssociated, owner, primary, dependents, t) ==>
              exists b :: b in m.items && b.target.actionId == t.actionId
  {
    TierIsNarrowest(owner, primary, targets, dependents);
    ChosenTargets(owner, primary, targets, dependents, m);
    var owned := Filter(targets, OwnedBy(owner, primary));
    NarrowSpec(owned);
    assert forall i :: 0 <= i < |m.items| ==> Narrow(owned)[i] == Targets(m.items)[i] == m.items[i].target;
    ItemsByAction(m.items, Narrow(owned));
    forall b | b in m.items ensures LastOffer(OwnerAssociated, owner, primary, targets, dependents, b.target) {
      var i :| 0 <= i < |m.items| && m.items[i] == b;
      assert Narrow(owned)[i] == b.target;
      LastOwned(owner, primary, targets, dependents, b.target);
    }
    forall t | t in targets && OnOffer(OwnerAssociated, owner, primary, dependents, t)
      ensures exists b :: b in m.items && b.target.actionId == t.actionId
    {
      FilteredTargets(targets, OwnedBy(owner, primary));
      assert t.actionId in ActionIds(Narrow(owned));
    }
  }

  lemma LastOwned(owner: Id, primary: Option<Id>, targets: seq<BuildTarget>, dependents: seq<Dependent>, t: BuildTarget)
    requires t in Narrow(Filter(targets, OwnedBy(owner, primary)))
    ensures LastOffer(OwnerAssociated, owner, primary, targets, dependents, t)
  {
    var owned := Filter(targets, OwnedBy(owner, primary));
    LastPerActionMember(owned, SortedKeys(ActionIds(owned)), t);
    var q := LastWithAt(owned, t.actionId);
    var at := FilterPicks(targets, OwnedBy(owner, primary));
    var k := at[q];
    forall j | k < j < |targets| && OnOffer(OwnerAssociated, owner, primary, dependents, targets[j])
      ensures targets[j].actionId != t.actionId
    {
      var p :| 0 <= p < |at| && at[p] == j;
      assert p > q;
    }
  }

  // ---- Dependents' builds: of each action the first dependent's, by action id ---------------

  /** The first dependent with a target for this action, and the first such target. */
  ghost predicate FirstPairAt(dependents: seq<Dependent>, targets: seq<BuildTarget>, action: Id, i: nat, j: nat) {
    && i < |dependents| && j < |targets|
    && BuildsAction(dependents[i], targets[j], action)
    && (forall x, y :: 0 <= x < i && 0 <= y < |targets| ==> !BuildsAction(dependents[x], targets[y], action))
    && (forall y :: 0 <= y < j ==> !BuildsAction(dependents[i], targets[y], action))
  }

  ghost predicate BuildsAction(d: Dependent, t: BuildTarget, action: Id) {
    t.kind == ComponentTarget && t.targetId == d.componentId && t.actionId == action
  }

  function OfAction(action: Id): Pair -> bool { (p: Pair) => p.1.actionId == action }

  lemma OwnPairStep(d: Dependent, targets: seq<BuildTarget>, action: Id)
    requires targets != []
    ensures var n := |targets| - 1;
            Filter(PairsOf(d, targets), OfAction(action)) ==
            Filter(PairsOf(d, targets[..n]), OfAction(action)) + if BuildsAction(d, targets[n], action) then [(d, targets[n])] else []
  {
    var n := |targets| - 1;
    FilterStep(PairsOf(d, targets[..n]), (d, targets[n]), OfAction(action));
  }

  lemma {:induction false} FirstOfDependent(d: Dependent, targets: seq<BuildTarget>, action: Id) returns (j: nat)
    ensures var own := Filter(PairsOf(d, targets), OfAction(action));
            if own == [] then j == |targets| else j < |targets| && own[0] == (d, targets[j]) && BuildsAction(d, targets[j], action)
    ensures forall y :: 0 <= y < j ==> !BuildsAction(d, targets[y], action)
  {
    if targets == [] {
      j := 0;
    } else {
      var n := |targets| - 1;
      j := FirstOfDependent(d, targets[..n], action);
      OwnPairStep(d, targets, action);
      if j == n && !BuildsAction(d, targets[n], action) { j := |targets|; }
    }
  }

  /** The first of all pairs of the action, if there is any. */
  ghost predicate LeadsPairs(dependents: seq<Dependent>, targets: seq<BuildTarget>, action: Id, own: seq<Pair>, i: nat, j: nat) {
    if own == [] then forall x, y :: 0 <= x < |dependents| && 0 <= y < |targets| ==> !BuildsAction(dependents[x], targets[y], action)
    else FirstPairAt(dependents, targets, action, i, j) && own[0] == (dependents[i], targets[j])
  }

  lemma {:induction false} FirstPairStays(front: seq<Dependent>, d: Dependent, targets: seq<BuildTarget>, action: Id, before: seq<Pair>,
                                          own: seq<Pair>, i: nat, j: nat)
    requires LeadsPairs(front, targets, action, before, i, j) && before != []
    ensures LeadsPairs(front + [d], targets, action, before + own, i, j)
  {
  }

  lemma {:induction false} OnlyLastDependent(front: seq<Dependent>, d: Dependent, targets: seq<BuildTarget>, action: Id,
                                             own: seq<Pair>, k: nat)
    requires LeadsPairs(front, targets, action, [], 0, 0)
    requires if own == [] then k == |targets| else k < |targets| && own[0] == (d, targets[k]) && BuildsAction(d, targets[k], action)
    requires forall y :: 0 <= y < k ==> !BuildsAction(d, targets[y], action)
    ensures LeadsPairs(front + [d], targets, action, own, |front|, k)
  {
    var all := front + [d];
    forall x, y | 0 <= x < |front| && 0 <= y < |targets| ensures !BuildsAction(all[x], targets[y], action) {
      assert all[x] == front[x];
    }
  }

  lemma {:induction false} FirstPairOf(dependents: seq<Dependent>, targets: seq<BuildTarget>, action: Id) returns (i: nat, j: nat)
    ensures LeadsPairs(dependents, targets, action, Filter(Pairs(dependents, targets), OfAction(action)), i, j)
  {
    if dependents == [] {
      i, j := 0, 0;
    } else {
      var n := |dependents| - 1;
      var front := dependents[..n];
      var before, own := Filter(Pairs(front, targets), OfAction(action)), Filter(PairsOf(dependents[n], targets), OfAction(action));
      i, j := FirstPairOf(front, targets, action);
      FilterAppend(Pairs(front, targets), PairsOf(dependents[n], targets), OfAction(action));
      assert dependents == front + [dependents[n]];
      if before == [] {
        assert before + own == own;
        var k := FirstOfDependent(dependents[n], targets, action);
        OnlyLastDependent(front, dependents[n], targets, action, own, k);
        i, j := n, k;
      } else {
        FirstPairStays(front, dependents[n], targets, action, before, own, i, j);
      }
    }
  }

  lemma DedupedIsFirst(dependents: seq<Dependent>, targets: seq<BuildTarget>, p: Pair) returns (i: nat, j: nat)
    requires p in Deduped(dependents, targets)
    ensures FirstPairAt(dependents, targets, p.1.actionId, i, j) && p == (dependents[i], targets[j])
  {
    var pairs := Pairs(dependents, targets);
    FirstPerIsFirst(Sort(pairs, PairOrder()), ActionOf(), p, OfAction(p.1.actionId));
    SortKeepsTies(pairs, PairOrder(), OfAction(p.1.actionId));
    i, j := FirstPairOf(dependents, targets, p.1.actionId);
  }

  /** The item's provenance: that of the dependency edges, then the target's own. */
  ghost predicate FirstDependentBuild(dependents: seq<Dependent>, targets: seq<BuildTarget>, b: BuildItem) {
    exists i: nat, j: nat :: FirstPairAt(dependents, targets, b.target.actionId, i, j) && targets[j] == b.target
                   && Unites(b.provenance, dependents[i].edges + [b.target.provenance])
  }

  lemma DependentItemSays(dependents: seq<Dependent>, targets: seq<BuildTarget>, p: Pair, source: Id)
    requires p in Deduped(dependents, targets)
    ensures FirstDependentBuild(dependents, targets, DependentItem(p, source))
  {
    var i, j := DedupedIsFirst(dependents, targets, p);
    MergedTwice(p.0.edges, p.1.provenance);
    MergedUnites(p.0.edges + [p.1.provenance]);
  }

  lemma DependentTierSpec(owner: Id, primary: Option<Id>, targets: seq<BuildTarget>, dependents: seq<Dependent>, m: MinimizedBuilds)
    requires Minimize(owner, primary, targets, dependents) == Ok(m)
    requires Narrowest(DependentScoped, owner, primary, targets, dependents)
    ensures ByAction(m.items)
    ensures forall b :: b in m.items ==> FirstDependentBuild(dependents, targets, b)
    ensures forall t :: t in targets && OnOffer(DependentScoped, owner, primary, dependents, t) ==>
              exists b :: b in m.items && b.target.actionId == t.actionId
  {
    TierIsNarrowest(owner, primary, targets, dependents);
    Shape(owner, primary, targets, dependents, m);
    var deduped := Deduped(dependents, targets);
    DedupedIncreasing(dependents, targets);
    assert forall i :: 0 <= i < |m.items| ==> m.items[i] == DependentItem(deduped[i], primary.value);
    ItemsByAction(m.items, Seconds(deduped));
    forall b | b in m.items ensures FirstDependentBuild(dependents, targets, b) {
      var i :| 0 <= i < |m.items| && m.items[i] == b;
      DependentItemSays(dependents, targets, deduped[i], primary.value);
    }
    forall t | t in targets && OnOffer(DependentScoped, owner, primary, dependents, t)
      ensures exists b :: b in m.items && b.target.actionId == t.actionId
    {
      DependentTargets(owner, primary, targets, dependents);
      OnOfferIsInTier(DependentScoped, owner, primary, dependents, t);
    }
  }

  // ---- Attribution and exclusions ------------------------------------------------------------

  /** Whom an item is attributed to, and on what provenance. */
  lemma AttributionSpec(tier: BuildReason, owner: Id, primary: Option<Id>, targets: seq<BuildTarget>, dependents: seq<Dependent>,
                        m: MinimizedBuilds, b: BuildItem)
    requires Minimize(owner, primary, targets, dependents) == Ok(m) && Narrowest(tier, owner, primary, targets, dependents)
    requires b in m.items
    ensures b.reason == tier
    ensures if tier == ComponentScoped || tier == DependentScoped then primary == Some(b.sourceId) else b.sourceId == owner
    ensures tier != DependentScoped ==> b.provenance == b.target.provenance
  {
    TierIsNarrowest(owner, primary, targets, dependents);
    Shape(owner, primary, targets, dependents, m);
    var k :| 0 <= k < |m.items| && m.items[k] == b;
  }

  /** In the two narrower tiers each repository-wide target is excluded, in the order given,
      with its own provenance and in favour of all items; in the others nothing is. */
  lemma ExclusionsSpec(tier: BuildReason, owner: Id, primary: Option<Id>, targets: seq<BuildTarget>, dependents: seq<Dependent>,
                       m: MinimizedBuilds) returns (at: seq<nat>)
    requires Minimize(owner, primary, targets, dependents) == Ok(m) && Narrowest(tier, owner, primary, targets, dependents)
    ensures tier == DependentScoped || tier == RepositoryWide ==> m.exclusions == []
    ensures tier == ComponentScoped || tier == OwnerAssociated ==>
              && |at| == |m.exclusions| && (forall i, j :: 0 <= i < j < |at| ==> at[i] < at[j])
              && (forall i :: 0 <= i < |at| ==> at[i] < |targets| && ExcludedFor(m.exclusions[i], targets[at[i]], m.items))
              && (forall k :: 0 <= k < |targets| ==> (k in at <==> targets[k].kind == RepositoryTarget))
  {
    TierIsNarrowest(owner, primary, targets, dependents);
    Shape(owner, primary, targets, dependents, m);
    at := FilterPicks(targets, RepositoryWideTarget());
    var repository := Filter(targets, RepositoryWideTarget());
    if tier == ComponentScoped || tier == OwnerAssociated {
      ChosenTargets(owner, primary, targets, dependents, m);
      assert m.exclusions == ReplacedRepositories(repository, Targets(m.items));
    }
  }

  ghost predicate ExcludedFor(e: Exclusion, t: BuildTarget, items: seq<BuildItem>) {
    && e.item == BuildRef(t.actionId) && e.reason == RepositoryBuildReplacedByNarrowerBuild && e.provenance == t.provenance
    && |e.replacedBy| == |items| && forall i :: 0 <= i < |items| ==> e.replacedBy[i] == BuildRef(items[i].target.actionId)
  }
}
