/** `MinimumVerifiedMinimizer.minimize_tests`: group matches by test, keep the
    strongest match of each test, then drop broad fallback suites when anything
    more specific was found. */
module TestMinimizer {
  import opened Ordering
  import opened ChangeSetModels
  import opened Sums

  /** Constructors in the alphabetical order of the source's strings. */
  datatype RelationReason =
    DependentComponent | RepositoryDefaultSuite | SameComponent | SameOwner | SamePackage

  /** `ref` is the identity of the match object: two matches are the same object
      exactly when they are equal. */
  datatype TestMatch = TestMatch(ref: nat, testId: Id, reason: RelationReason, owner: Option<Id>,
                                 path: Option<Id>, authoritative: bool, provenance: seq<Provenance>)

  datatype TestReason = ExactFile | DirectDependent | SameOwnerOrComponent | BroadFallback

  datatype TestItem = TestItem(testId: Id, reason: TestReason, provenance: seq<Provenance>)

  predicate Specific(m: TestMatch) { m.path.Some? || m.owner.Some? }

  function HumanReason(m: TestMatch): TestReason {
    if m.path.Some? then ExactFile
    else if m.reason.DependentComponent? then DirectDependent
    else if m.owner.Some? then SameOwnerOrComponent
    else BroadFallback
  }

  function Specificity(m: TestMatch): int {
    if m.path.Some? then 0 else if m.owner.Some? then 1 else 2
  }

  function ReasonRank(r: RelationReason): int {
    match r
    case DependentComponent => 0
    case RepositoryDefaultSuite => 1
    case SameComponent => 2
    case SameOwner => 3
    case SamePackage => 4
  }

  function Anchor(m: TestMatch): Id {
    match m.path
    case Some(p) => p
    case None => match m.owner
                 case Some(o) => o
                 case None => 0
  }

  /** Comparison of sort keys, component by component. */
  predicate MatchLeq(a: TestMatch, b: TestMatch) {
    var sa, sb := Specificity(a), Specificity(b);
    var ca, cb := if a.authoritative then 0 else 1, if b.authoritative then 0 else 1;
    var ra, rb := ReasonRank(a.reason), ReasonRank(b.reason);
    if sa != sb then sa < sb
    else if ca != cb then ca < cb
    else if ra != rb then ra < rb
    else Anchor(a) <= Anchor(b)
  }

  function MatchOrder(): (TestMatch, TestMatch) -> bool { (a, b) => MatchLeq(a, b) }

  lemma MatchOrderTotal()
    ensures TotalPreorder(MatchOrder())
  {
  }

  // ---- Grouping -------------------------------------------------------------

  function TestIdOf(): TestMatch -> Id { (m: TestMatch) => m.testId }

  function Ids(matches: seq<TestMatch>): seq<Id> {
    KeysOf(matches, TestIdOf())
  }

  lemma IdsMember(matches: seq<TestMatch>, id: Id)
    ensures id in Ids(matches) <==> exists m :: m in matches && m.testId == id
  {
    KeysOfMember(matches, TestIdOf(), id);
  }

  /** All matches of one test, in the order they were given. */
  function Candidates(matches: seq<TestMatch>, id: Id): seq<TestMatch> {
    WithKey(matches, TestIdOf(), id)
  }

  lemma CandidatesMember(matches: seq<TestMatch>, id: Id, m: TestMatch)
    ensures m in Candidates(matches, id) <==> m in matches && m.testId == id
  {
    WithKeyMember(matches, TestIdOf(), id, m);
  }

  lemma CandidatesEmpty(matches: seq<TestMatch>, id: Id)
    ensures Candidates(matches, id) == [] <==> id !in Ids(matches)
  {
    WithKeyEmpty(matches, TestIdOf(), id);
  }

  type Group = g: seq<TestMatch> | g != []
    witness [TestMatch(0, 0, SameOwner, None, None, true, [])]

  function GroupId(g: Group): Id { g[0].testId }

  /** `sorted(candidates, key)[0]`. */
  function Chosen(g: Group): TestMatch {
    SortPermutes(g, MatchOrder());
    Sort(g, MatchOrder())[0]
  }

  function GroupsFor(matches: seq<TestMatch>, ids: seq<Id>): seq<Group> {
    if ids == [] then [] else
      var n := |ids| - 1;
      var cs := Candidates(matches, ids[n]);
      var gs := GroupsFor(matches, ids[..n]);
      if cs == [] then gs else gs + [cs]
  }

  /** One group per test, by increasing test id. */
  function Groups(matches: seq<TestMatch>): seq<Group> {
    GroupsFor(matches, SortedKeys(Ids(matches)))
  }

  function GroupIds(gs: seq<Group>): seq<Id> {
    if gs == [] then [] else GroupIds(gs[..|gs| - 1]) + [GroupId(gs[|gs| - 1])]
  }

  // ---- What the minimizer returns ------------------------------------------

  function Weaker(cs: seq<TestMatch>, best: TestMatch): seq<TestMatch> {
    if cs == [] then [] else
      var n := |cs| - 1;
      var weaker := Weaker(cs[..n], best);
      if cs[n] == best then weaker else weaker + [cs[n]]
  }

  function DuplicateExclusion(c: TestMatch): Exclusion {
    Exclusion(TestRef(c.testId), DuplicateReplacedByStrongerMatch, [TestRef(c.testId)], c.provenance)
  }

  function DuplicatesOf(cs: seq<TestMatch>): seq<Exclusion> {
    if cs == [] then [] else DuplicatesOf(cs[..|cs| - 1]) + [DuplicateExclusion(cs[|cs| - 1])]
  }

  function Duplicates(gs: seq<Group>): seq<Exclusion> {
    if gs == [] then [] else
      var g := gs[|gs| - 1];
      Duplicates(gs[..|gs| - 1]) + DuplicatesOf(Weaker(g, Chosen(g)))
  }

  function Item(g: Group, describe: Id -> seq<Provenance>): TestItem {
    TestItem(GroupId(g), HumanReason(Chosen(g)), Merged([Chosen(g).provenance, describe(GroupId(g))]))
  }

  function Items(gs: seq<Group>, describe: Id -> seq<Provenance>): seq<TestItem> {
    if gs == [] then [] else Items(gs[..|gs| - 1], describe) + [Item(gs[|gs| - 1], describe)]
  }

  predicate HasSpecific(matches: seq<TestMatch>) {
    exists m :: m in matches && Specific(m)
  }

  /** The first match of the test that would have been described by `reason`. */
  function Relookup(matches: seq<TestMatch>, id: Id, reason: TestReason): Option<TestMatch> {
    if matches == [] then None
    else if matches[0].testId == id && HumanReason(matches[0]) == reason then Some(matches[0])
    else Relookup(matches[1..], id, reason)
  }

  /** Whether the second pass keeps the test: the re-lookup decides. */
  predicate Keeps(matches: seq<TestMatch>, g: Group) {
    var found := Relookup(matches, GroupId(g), HumanReason(Chosen(g)));
    found.Some? && Specific(found.value)
  }

  function KeptGroups(matches: seq<TestMatch>, gs: seq<Group>): seq<Group> {
    if gs == [] then [] else
      var g := gs[|gs| - 1];
      var kept := KeptGroups(matches, gs[..|gs| - 1]);
      if Keeps(matches, g) then kept + [g] else kept
  }

  function Others(gs: seq<Group>, id: Id): seq<Id> {
    if gs == [] then [] else
      var g := gs[|gs| - 1];
      var others := Others(gs[..|gs| - 1], id);
      if GroupId(g) == id then others else others + [GroupId(g)]
  }

  function TestRefs(ids: seq<Id>): seq<ItemRef> {
    seq(|ids|, i requires 0 <= i < |ids| => TestRef(ids[i]))
  }

  function BroadExclusion(g: Group, all: seq<Group>, describe: Id -> seq<Provenance>): Exclusion {
    Exclusion(TestRef(GroupId(g)), BroadTestReplacedBySpecificTests,
              TestRefs(Sort(Others(all, GroupId(g)), IntLeq())), Item(g, describe).provenance)
  }

  function Broads(matches: seq<TestMatch>, gs: seq<Group>, all: seq<Group>, describe: Id -> seq<Provenance>): seq<Exclusion> {
    if gs == [] then [] else
      var g := gs[|gs| - 1];
      var broads := Broads(matches, gs[..|gs| - 1], all, describe);
      if Keeps(matches, g) then broads else broads + [BroadExclusion(g, all, describe)]
  }

  /** The groups whose test stays. */
  function Kept(matches: seq<TestMatch>): seq<Group> {
    if HasSpecific(matches) then KeptGroups(matches, Groups(matches)) else Groups(matches)
  }

  function Exclusions(matches: seq<TestMatch>, describe: Id -> seq<Provenance>): seq<Exclusion> {
    var gs := Groups(matches);
    Duplicates(gs) + if HasSpecific(matches) then Broads(matches, gs, gs, describe) else []
  }

  // ---- The loops of the source ---------------------------------------------

  /** The groups in `sorted(grouped)` order. */
  method SortGroups(matches: seq<TestMatch>) returns (gs: seq<Group>)
    ensures gs == Groups(matches)
  {
    var keys, grouped := GroupBy(matches, TestIdOf());
    var ids := Sort(keys, IntLeq());
    SortedKeysSpec(Ids(matches));
    gs := [];
    for k := 0 to |ids|
      invariant gs == GroupsFor(matches, ids[..k])
    {
      assert ids[..k + 1][..k] == ids[..k];
      assert ids[k] in ids;
      CandidatesEmpty(matches, ids[k]);
      gs := gs + [grouped[ids[k]]];
    }
    assert ids[..|ids|] == ids;
  }

  lemma DuplicatesOfStep(cs: seq<TestMatch>, c: TestMatch)
    ensures DuplicatesOf(cs + [c]) == DuplicatesOf(cs) + [DuplicateExclusion(c)]
  {
    assert (cs + [c])[..|cs|] == cs;
  }

  lemma ItemsStep(gs: seq<Group>, g: Group, describe: Id -> seq<Provenance>)
    ensures Items(gs + [g], describe) == Items(gs, describe) + [Item(g, describe)]
  {
    assert (gs + [g])[..|gs|] == gs;
  }

  method ExcludeWeaker(candidates: seq<TestMatch>, selected: TestMatch) returns (exclusions: seq<Exclusion>)
    ensures exclusions == DuplicatesOf(Weaker(candidates, selected))
  {
    exclusions := [];
    for c := 0 to |candidates|
      invariant exclusions == DuplicatesOf(Weaker(candidates[..c], selected))
    {
      assert candidates[..c + 1][..c] == candidates[..c];
      if candidates[c] != selected {
        DuplicatesOfStep(Weaker(candidates[..c], selected), candidates[c]);
        exclusions := exclusions + [DuplicateExclusion(candidates[c])];
      }
    }
    assert candidates[..|candidates|] == candidates;
  }

  /** First pass: the strongest match of each test, the others as duplicates. */
  method SelectMatches(gs: seq<Group>, describe: Id -> seq<Provenance>)
    returns (included: seq<TestItem>, exclusions: seq<Exclusion>)
    ensures included == Items(gs, describe)
    ensures exclusions == Duplicates(gs)
  {
    included, exclusions := [], [];
    for k := 0 to |gs|
      invariant included == Items(gs[..k], describe)
      invariant exclusions == Duplicates(gs[..k])
    {
      assert gs[..k + 1][..k] == gs[..k];
      var testId := GroupId(gs[k]);
      var selected := Chosen(gs[k]);
      var weaker := ExcludeWeaker(gs[k], selected);
      var provenance := MergedProvenance([selected.provenance, describe(testId)]);
      exclusions := exclusions + weaker;
      included := included + [TestItem(testId, HumanReason(selected), provenance)];
    }
    assert gs[..|gs|] == gs;
  }

  /** Second pass: items whose re-lookup is not specific are broad. */
  method DropBroad(matches: seq<TestMatch>, gs: seq<Group>, included: seq<TestItem>, describe: Id -> seq<Provenance>)
    returns (kept: seq<TestItem>, exclusions: seq<Exclusion>)
    requires included == Items(gs, describe)
    requires forall g :: g in gs ==> Relookup(matches, GroupId(g), HumanReason(Chosen(g))).Some?
    ensures kept == Items(KeptGroups(matches, gs), describe)
    ensures exclusions == Broads(matches, gs, gs, describe)
  {
    kept, exclusions := [], [];
    for k := 0 to |gs|
      invariant kept == Items(KeptGroups(matches, gs[..k]), describe)
      invariant exclusions == Broads(matches, gs[..k], gs, describe)
    {
      assert gs[..k + 1][..k] == gs[..k];
      ItemsAt(gs, k, describe);
      var item := included[k];
      assert item == Item(gs[k], describe);
      var found := Relookup(matches, item.testId, item.reason);
      assert found.Some? by { assert gs[k] in gs; }
      if !Specific(found.value) {
        var others := TestRefs(Sort(Others(gs, item.testId), IntLeq()));
        exclusions := exclusions + [Exclusion(TestRef(item.testId), BroadTestReplacedBySpecificTests, others, item.provenance)];
      } else {
        ItemsStep(KeptGroups(matches, gs[..k]), gs[k], describe);
        kept := kept + [item];
      }
    }
    assert gs[..|gs|] == gs;
  }

  lemma {:induction false} ItemsAt(gs: seq<Group>, k: nat, describe: Id -> seq<Provenance>)
    requires k < |gs|
    ensures |Items(gs, describe)| == |gs| && Items(gs, describe)[k] == Item(gs[k], describe)
  {
    var n := |gs| - 1;
    if n > 0 {
      ItemsAt(gs[..n], if k < n then k else 0, describe);
    }
  }

  method MinimizeTests(matches: seq<TestMatch>, describe: Id -> seq<Provenance>)
    returns (kept: seq<TestItem>, exclusions: seq<Exclusion>)
    ensures kept == Items(Kept(matches), describe)
    ensures exclusions == Exclusions(matches, describe)
  {
    var gs := SortGroups(matches);
    var included, duplicates := SelectMatches(gs, describe);
    var hasSpecific := exists item ::
        item in included && exists c :: c in matches && c.testId == item.testId && Specific(c);
    SpecificSeenFromItems(matches, describe);
    if !hasSpecific {
      return included, duplicates;
    }
    RelookupSucceeds(matches);
    var broads;
    kept, broads := DropBroad(matches, gs, included, describe);
    exclusions := duplicates + broads;
  }

  // ---- Groups ---------------------------------------------------------------

  ghost predicate GroupOf(matches: seq<TestMatch>, g: Group) {
    g == Candidates(matches, GroupId(g))
  }

  lemma GroupIdsStep(gs: seq<Group>, g: Group)
    ensures GroupIds(gs + [g]) == GroupIds(gs) + [GroupId(g)]
  {
    assert (gs + [g])[..|gs|] == gs;
  }

  lemma GroupOfMatched(matches: seq<TestMatch>, id: Id) returns (g: Group)
    requires id in Ids(matches)
    ensures g == Candidates(matches, id) && GroupId(g) == id && GroupOf(matches, g)
  {
    CandidatesEmpty(matches, id);
    g := Candidates(matches, id);
    CandidatesMember(matches, id, g[0]);
  }

  lemma {:induction false} GroupsForSpec(matches: seq<TestMatch>, ids: seq<Id>)
    requires forall id :: id in ids ==> id in Ids(matches)
    ensures GroupIds(GroupsFor(matches, ids)) == ids
    ensures |GroupsFor(matches, ids)| == |ids|
  {
    if ids == [] {
    } else {
      var n := |ids| - 1;
      GroupsForSpec(matches, ids[..n]);
      assert ids[n] in ids;
      var cs := GroupOfMatched(matches, ids[n]);
      GroupIdsStep(GroupsFor(matches, ids[..n]), cs);
    }
  }

  lemma {:induction false} GroupsForAt(matches: seq<TestMatch>, ids: seq<Id>, k: nat)
    requires k < |ids| && forall id :: id in ids ==> id in Ids(matches)
    ensures k < |GroupsFor(matches, ids)| && GroupOf(matches, GroupsFor(matches, ids)[k])
    ensures GroupId(GroupsFor(matches, ids)[k]) == ids[k]
  {
    var n := |ids| - 1;
    GroupsForSpec(matches, ids[..n]);
    assert ids[n] in ids;
    var cs := GroupOfMatched(matches, ids[n]);
    if k < n { GroupsForAt(matches, ids[..n], k); }
  }

  /** The groups are exactly the tests that were matched, by increasing id. */
  lemma GroupsSpec(matches: seq<TestMatch>)
    ensures Increasing(GroupIds(Groups(matches))) && |GroupIds(Groups(matches))| == |Groups(matches)|
    ensures forall k :: 0 <= k < |Groups(matches)| ==>
              GroupOf(matches, Groups(matches)[k]) && GroupId(Groups(matches)[k]) == GroupIds(Groups(matches))[k]
    ensures forall id :: id in GroupIds(Groups(matches)) <==> id in Ids(matches)
  {
    var ids := SortedKeys(Ids(matches));
    SortedKeysSpec(Ids(matches));
    GroupsForSpec(matches, ids);
    forall k | 0 <= k < |ids| ensures GroupOf(matches, Groups(matches)[k]) && GroupId(Groups(matches)[k]) == ids[k] {
      GroupsForAt(matches, ids, k);
    }
  }

  lemma SpecificSeenFromItems(matches: seq<TestMatch>, describe: Id -> seq<Provenance>)
    ensures HasSpecific(matches) <==> exists item ::
              item in Items(Groups(matches), describe) && exists c :: c in matches && c.testId == item.testId && Specific(c)
  {
    if c :| c in matches && Specific(c) {
      GroupsSpec(matches);
      IdsMember(matches, c.testId);
      var gs := Groups(matches);
      var k :| 0 <= k < |gs| && GroupIds(gs)[k] == c.testId;
      ItemsAt(gs, k, describe);
      var item := Items(gs, describe)[k];
      assert item in Items(gs, describe) && item.testId == c.testId;
    }
  }

  /** Nothing beats the chosen match, and nothing that ties with it came earlier. */
  lemma ChosenIsStrongest(g: Group) returns (k: nat)
    ensures k < |g| && Chosen(g) == g[k]
    ensures forall i :: 0 <= i < |g| ==> MatchLeq(g[k], g[i])
    ensures forall i :: 0 <= i < k ==> !MatchLeq(g[i], g[k])
  {
    MatchOrderTotal();
    k := SortHead(g, MatchOrder());
  }

  lemma {:induction false} RelookupSpec(matches: seq<TestMatch>, id: Id, reason: TestReason)
    ensures var r := Relookup(matches, id, reason);
            if r.Some? then r.value in matches && r.value.testId == id && HumanReason(r.value) == reason
            else forall m :: m in matches && m.testId == id ==> HumanReason(m) != reason
  {
    if matches == [] {
    } else {
      RelookupSpec(matches[1..], id, reason);
      assert matches == [matches[0]] + matches[1..];
    }
  }

  /** The re-lookup by description always finds a match of the test. */
  lemma RelookupSucceeds(matches: seq<TestMatch>)
    ensures forall g :: g in Groups(matches) ==> Relookup(matches, GroupId(g), HumanReason(Chosen(g))).Some?
  {
    GroupsSpec(matches);
    forall g | g in Groups(matches) ensures Relookup(matches, GroupId(g), HumanReason(Chosen(g))).Some? {
      var k := ChosenIsStrongest(g);
      CandidatesMember(matches, GroupId(g), Chosen(g));
      RelookupSpec(matches, GroupId(g), HumanReason(Chosen(g)));
    }
  }
}
