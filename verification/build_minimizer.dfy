/** `MinimumVerifiedMinimizer.minimize_build_targets`: builds come from the
    narrowest of four tiers that has any. */
module BuildMinimizer {
  import opened Ordering
  import opened ChangeSetModels
  import opened FirstPerKey
  import opened TestMinimizer

  datatype TargetKind = ComponentTarget | RepositoryTarget

  datatype BuildTarget = BuildTarget(actionId: Id, targetId: Id, kind: TargetKind, ownerIds: seq<Id>,
                                     provenance: seq<Provenance>)

  datatype BuildReason = ComponentScoped | OwnerAssociated | DependentScoped | RepositoryWide

  datatype BuildItem = BuildItem(target: BuildTarget, reason: BuildReason, sourceId: Id, provenance: seq<Provenance>)

  /** A component that depends on the changed one, with its dependency edges'
      provenance and the tests related to it. */
  datatype Dependent = Dependent(componentId: Id, edges: seq<seq<Provenance>>, related: seq<TestMatch>)

  type Pair = (Dependent, BuildTarget)

  datatype MinimizedBuilds = MinimizedBuilds(items: seq<BuildItem>, exclusions: seq<Exclusion>)

  // ---- The tiers -------------------------------------------------------------

  function InComponent(primary: Option<Id>): BuildTarget -> bool {
    (t: BuildTarget) => primary.Some? && t.kind.ComponentTarget? && t.targetId == primary.value
  }

  function OwnedBy(owner: Id, primary: Option<Id>): BuildTarget -> bool {
    (t: BuildTarget) => t.kind.ComponentTarget? && (owner in t.ownerIds || (primary.Some? && primary.value in t.ownerIds))
  }

  function RepositoryWideTarget(): BuildTarget -> bool { (t: BuildTarget) => t.kind.RepositoryTarget? }

  function DependsOn(d: Dependent): BuildTarget -> bool {
    (t: BuildTarget) => t.kind.ComponentTarget? && t.targetId == d.componentId
  }

  function ActionIds(targets: seq<BuildTarget>): seq<Id> {
    if targets == [] then [] else
      ActionIds(targets[..|targets| - 1]) + [targets[|targets| - 1].actionId]
  }

  function LastWith(targets: seq<BuildTarget>, id: Id): Option<BuildTarget> {
    if targets == [] then None
    else if targets[|targets| - 1].actionId == id then Some(targets[|targets| - 1])
    else LastWith(targets[..|targets| - 1], id)
  }

  function LastPerAction(targets: seq<BuildTarget>, ids: seq<Id>): seq<BuildTarget> {
    if ids == [] then [] else
      var r := LastPerAction(targets, ids[..|ids| - 1]);
      match LastWith(targets, ids[|ids| - 1])
      case Some(t) => r + [t]
      case None => r
  }

  /** `sorted({t.action_id: t for t in targets}.values(), key=action_id)` */
  function Narrow(targets: seq<BuildTarget>): seq<BuildTarget> {
    LastPerAction(targets, SortedKeys(ActionIds(targets)))
  }

  function PairsOf(d: Dependent, targets: seq<BuildTarget>): seq<Pair> {
    if targets == [] then [] else
      var r := PairsOf(d, targets[..|targets| - 1]);
      var t := targets[|targets| - 1];
      if DependsOn(d)(t) then r + [(d, t)] else r
  }

  function Pairs(dependents: seq<Dependent>, targets: seq<BuildTarget>): seq<Pair> {
    if dependents == [] then [] else
      Pairs(dependents[..|dependents| - 1], targets) + PairsOf(dependents[|dependents| - 1], targets)
  }

  function PairOrder(): (Pair, Pair) -> bool { (a: Pair, b: Pair) => a.1.actionId <= b.1.actionId }

  function ActionOf(): Pair -> Id { (p: Pair) => p.1.actionId }

  function Deduped(dependents: seq<Dependent>, targets: seq<BuildTarget>): seq<Pair> {
    FirstPer(Sort(Pairs(dependents, targets), PairOrder()), ActionOf())
  }

  // ---- Items and exclusions ----------------------------------------------------

  function BuildItems(targets: seq<BuildTarget>, reason: BuildReason, source: Id): (r: seq<BuildItem>)
    ensures |r| == |targets|
  {
    seq(|targets|, i requires 0 <= i < |targets| => BuildItem(targets[i], reason, source, targets[i].provenance))
  }

  function DependentItem(p: Pair, source: Id): BuildItem {
    BuildItem(p.1, DependentScoped, source, Merged([Merged(p.0.edges), p.1.provenance]))
  }

  function DependentItems(pairs: seq<Pair>, source: Id): (r: seq<BuildItem>)
    ensures |r| == |pairs|
  {
    seq(|pairs|, i requires 0 <= i < |pairs| => DependentItem(pairs[i], source))
  }

  function BuildRefs(targets: seq<BuildTarget>): (r: seq<ItemRef>)
    ensures |r| == |targets|
  {
    seq(|targets|, i requires 0 <= i < |targets| => BuildRef(targets[i].actionId))
  }

  function ReplacedRepository(t: BuildTarget, chosen: seq<BuildTarget>): Exclusion {
    Exclusion(BuildRef(t.actionId), RepositoryBuildReplacedByNarrowerBuild, BuildRefs(chosen), t.provenance)
  }

  function ReplacedRepositories(repository: seq<BuildTarget>, chosen: seq<BuildTarget>): (r: seq<Exclusion>)
    ensures |r| == |repository|
  {
    seq(|repository|, i requires 0 <= i < |repository| => ReplacedRepository(repository[i], chosen))
  }

  /** The exclusions name every chosen build; their validator refuses a repeated name. */
  function Narrowed(chosen: seq<BuildTarget>, repository: seq<BuildTarget>, reason: BuildReason, source: Id)
    : Result<MinimizedBuilds, PlanError>
  {
    if repository != [] && !Distinct(BuildRefs(chosen)) then Err(DuplicateReplacement)
    else Ok(MinimizedBuilds(BuildItems(chosen, reason, source), ReplacedRepositories(repository, chosen)))
  }

  function Minimize(owner: Id, primary: Option<Id>, targets: seq<BuildTarget>, dependents: seq<Dependent>)
    : Result<MinimizedBuilds, PlanError>
  {
    var component := Filter(targets, InComponent(primary));
    var narrow := Narrow(Filter(targets, OwnedBy(owner, primary)));
    var repository := Filter(targets, RepositoryWideTarget());
    var pairs := Deduped(dependents, targets);
    if component != [] && primary.Some? then Narrowed(component, repository, ComponentScoped, primary.value)
    else if narrow != [] then Narrowed(narrow, repository, OwnerAssociated, owner)
    else if pairs != [] && primary.Some? then Ok(MinimizedBuilds(DependentItems(pairs, primary.value), []))
    else Ok(MinimizedBuilds(BuildItems(repository, RepositoryWide, owner), []))
  }

  // ---- The loops of the source --------------------------------------------------

  method ExcludeRepositories(repository: seq<BuildTarget>, chosen: seq<BuildTarget>)
    returns (r: Result<seq<Exclusion>, PlanError>)
    ensures r == if repository != [] && !Distinct(BuildRefs(chosen)) then Err(DuplicateReplacement)
                 else Ok(ReplacedRepositories(repository, chosen))
  {
    var exclusions: seq<Exclusion> := [];
    for i := 0 to |repository|
      invariant exclusions == ReplacedRepositories(repository[..i], chosen)
      invariant i > 0 ==> Distinct(BuildRefs(chosen))
    {
      var refs := BuildRefs(chosen);
      if !Distinct(refs) {
        return Err(DuplicateReplacement);
      }
      exclusions := exclusions + [Exclusion(BuildRef(repository[i].actionId), RepositoryBuildReplacedByNarrowerBuild,
                                            refs, repository[i].provenance)];
    }
    assert repository[..|repository|] == repository;
    return Ok(exclusions);
  }

  method CollectPairs(dependents: seq<Dependent>, targets: seq<BuildTarget>) returns (pairs: seq<Pair>)
    ensures pairs == Pairs(dependents, targets)
  {
    pairs := [];
    for d := 0 to |dependents|
      invariant pairs == Pairs(dependents[..d], targets)
    {
      assert dependents[..d + 1][..d] == dependents[..d];
      ghost var before := pairs;
      for t := 0 to |targets|
        invariant pairs == before + PairsOf(dependents[d], targets[..t])
      {
        assert targets[..t + 1][..t] == targets[..t];
        if targets[t].kind.ComponentTarget? && targets[t].targetId == dependents[d].componentId {
          pairs := pairs + [(dependents[d], targets[t])];
        }
      }
      assert targets[..|targets|] == targets;
    }
    assert dependents[..|dependents|] == dependents;
  }

  method DedupePairs(pairs: seq<Pair>) returns (values: seq<Pair>)
    ensures values == FirstPer(pairs, ActionOf())
  {
    var deduped: map<Id, Pair> := map[];
    values := [];
    for i := 0 to |pairs|
      invariant values == FirstPer(pairs[..i], ActionOf())
      invariant deduped.Keys == KeySet(values, ActionOf())
    {
      PrefixStep(pairs, i);
      FirstPerSeen(pairs[..i], pairs[i], ActionOf());
      var id := pairs[i].1.actionId;
      if id !in deduped {
        deduped := deduped[id := pairs[i]];
        values := values + [pairs[i]];
      }
    }
    assert pairs[..|pairs|] == pairs;
  }

  method MinimizeBuildTargets(owner: Id, primary: Option<Id>, targets: seq<BuildTarget>, dependents: seq<Dependent>)
    returns (r: Result<MinimizedBuilds, PlanError>)
    ensures r == Minimize(owner, primary, targets, dependents)
  {
    var component := Filter(targets, InComponent(primary));
    var repository := Filter(targets, RepositoryWideTarget());
    if component != [] && primary.Some? {
      var excluded := ExcludeRepositories(repository, component);
      if excluded.Err? { return Err(excluded.error); }
      return Ok(MinimizedBuilds(BuildItems(component, ComponentScoped, primary.value), excluded.value));
    }
    var narrow := Narrow(Filter(targets, OwnedBy(owner, primary)));
    if narrow != [] {
      var excluded := ExcludeRepositories(repository, narrow);
      if excluded.Err? { return Err(excluded.error); }
      return Ok(MinimizedBuilds(BuildItems(narrow, OwnerAssociated, owner), excluded.value));
    }
    var pairs := CollectPairs(dependents, targets);
    var deduped := DedupePairs(Sort(pairs, PairOrder()));
    if deduped != [] && primary.Some? {
      return Ok(MinimizedBuilds(DependentItems(deduped, primary.value), []));
    }
    return Ok(MinimizedBuilds(BuildItems(repository, RepositoryWide, owner), []));
  }
}
