/** What `minimize_tests` promises, for any list of matches. */
module TestMinimizerProperties {
  import opened Ordering
  import opened ChangeSetModels
  import opened Sums
  import opened TestMinimizer

  // ---- Which tests are kept --------------------------------------------------

  predicate IsDirectDependent(m: TestMatch) { HumanReason(m).DirectDependent? }

  /** The one way the re-lookup goes astray: the chosen match came through a
      dependent component that has an owner, but the first match of this test that
      came through a dependent component has none. */
  ghost predicate OwnerlessFirst(g: Group) {
    && IsDirectDependent(Chosen(g)) && Chosen(g).owner.Some?
    && exists i :: 0 <= i < |g| && IsDirectDependent(g[i]) && g[i].owner.None?
                   && forall j :: 0 <= j < i ==> !IsDirectDependent(g[j])
  }

  ghost predicate DependentsCarryOwner(matches: seq<TestMatch>) {
    forall m :: m in matches && m.reason.DependentComponent? ==> m.owner.Some?
  }

  ghost predicate SpecificallyMatched(matches: seq<TestMatch>, id: Id) {
    exists m :: m in matches && m.testId == id && Specific(m)
  }

  lemma {:induction false} CandidatesFront(matches: seq<TestMatch>, id: Id)
    requires matches != []
    ensures Candidates(matches, id) ==
            (if matches[0].testId == id then [matches[0]] else []) + Candidates(matches[1..], id)
  {
    var n := |matches| - 1;
    if n > 0 {
      CandidatesFront(matches[..n], id);
      assert matches[..n][1..] == matches[1..][..n - 1];
    }
  }

  lemma {:induction false} RelookupInGroup(matches: seq<TestMatch>, id: Id, reason: TestReason)
    ensures Relookup(matches, id, reason) == Relookup(Candidates(matches, id), id, reason)
  {
    if matches == [] {
    } else {
      RelookupInGroup(matches[1..], id, reason);
      CandidatesFront(matches, id);
      var rest := Candidates(matches[1..], id);
      if matches[0].testId == id {
        assert ([matches[0]] + rest)[1..] == rest;
      } else {
        assert [] + rest == rest;
      }
    }
  }

  /** In a group, the re-lookup finds the first match described by `reason`. */
  lemma {:induction false} RelookupFirst(g: seq<TestMatch>, id: Id, reason: TestReason, i: nat)
    requires i < |g| && HumanReason(g[i]) == reason
    requires forall j :: 0 <= j < |g| ==> g[j].testId == id
    requires forall j :: 0 <= j < i ==> HumanReason(g[j]) != reason
    ensures Relookup(g, id, reason) == Some(g[i])
  {
    if i > 0 {
      RelookupFirst(g[1..], id, reason, i - 1);
    }
  }

  lemma {:induction false} FirstWithReason(g: seq<TestMatch>, reason: TestReason, k: nat) returns (i: nat)
    requires k < |g| && HumanReason(g[k]) == reason
    ensures i <= k && HumanReason(g[i]) == reason
    ensures forall j :: 0 <= j < i ==> HumanReason(g[j]) != reason
  {
    if HumanReason(g[0]) == reason {
      i := 0;
    } else {
      var rest := FirstWithReason(g[1..], reason, k - 1);
      i := rest + 1;
      forall j | 0 <= j < i ensures HumanReason(g[j]) != reason {
        if j > 0 { assert g[j] == g[1..][j - 1]; }
      }
    }
  }

  /** The second pass keeps a test iff its chosen match is specific and the
      re-lookup is not led astray. */
  lemma KeepsSpec(matches: seq<TestMatch>, g: Group)
    requires GroupOf(matches, g)
    ensures Keeps(matches, g) <==> Specific(Chosen(g)) && !OwnerlessFirst(g)
  {
    var reason := HumanReason(Chosen(g));
    var k := ChosenIsStrongest(g);
    var i := FirstWithReason(g, reason, k);
    forall j | 0 <= j < |g| ensures g[j].testId == GroupId(g) {
      CandidatesMember(matches, GroupId(g), g[j]);
    }
    RelookupInGroup(matches, GroupId(g), reason);
    RelookupFirst(g, GroupId(g), reason, i);
    assert MatchLeq(g[k], g[i]);
  }

  lemma SpecificIffChosenSpecific(matches: seq<TestMatch>, g: Group)
    requires GroupOf(matches, g)
    ensures SpecificallyMatched(matches, GroupId(g)) <==> Specific(Chosen(g))
  {
    var k := ChosenIsStrongest(g);
    CandidatesMember(matches, GroupId(g), g[k]);
    if m :| m in matches && m.testId == GroupId(g) && Specific(m) {
      CandidatesMember(matches, GroupId(g), m);
      var i :| 0 <= i < |g| && g[i] == m;
      assert MatchLeq(g[k], g[i]);
    }
  }

  lemma {:induction false} GroupIdsAt(gs: seq<Group>)
    ensures |GroupIds(gs)| == |gs|
    ensures forall k :: 0 <= k < |gs| ==> GroupIds(gs)[k] == GroupId(gs[k])
  {
    if gs == [] {
    } else {
      GroupIdsAt(gs[..|gs| - 1]);
    }
  }

  lemma {:induction false} KeptGroupsMember(matches: seq<TestMatch>, gs: seq<Group>, g: Group)
    ensures g in KeptGroups(matches, gs) <==> g in gs && Keeps(matches, g)
  {
    if gs == [] {
    } else {
      var n := |gs| - 1;
      KeptGroupsMember(matches, gs[..n], g);
      assert gs == gs[..n] + [gs[n]];
    }
  }

  lemma {:induction false} KeptGroupsIncreasing(matches: seq<TestMatch>, gs: seq<Group>)
    requires Increasing(GroupIds(gs))
    ensures Increasing(GroupIds(KeptGroups(matches, gs)))
    ensures forall id :: id in GroupIds(KeptGroups(matches, gs)) ==> id in GroupIds(gs)
  {
    if gs == [] {
    } else {
      var n := |gs| - 1;
      var ids := GroupIds(gs);
      GroupIdsAt(gs);
      assert GroupIds(gs[..n]) == ids[..n];
      KeptGroupsIncreasing(matches, gs[..n]);
      var kept := KeptGroups(matches, gs[..n]);
      var keptIds := GroupIds(kept);
      assert (kept + [gs[n]])[..|kept|] == kept;
      forall k | 0 <= k < |keptIds| ensures keptIds[k] < ids[n] {
        assert keptIds[k] in keptIds;
        assert keptIds[k] in ids[..n];
      }
    }
  }

  lemma KeptGroupsSpec(matches: seq<TestMatch>, gs: seq<Group>)
    ensures forall g :: g in KeptGroups(matches, gs) <==> g in gs && Keeps(matches, g)
    ensures Increasing(GroupIds(gs)) ==> Increasing(GroupIds(KeptGroups(matches, gs)))
  {
    forall g { KeptGroupsMember(matches, gs, g); }
    if Increasing(GroupIds(gs)) { KeptGroupsIncreasing(matches, gs); }
  }

  lemma GroupOfId(matches: seq<TestMatch>, id: Id) returns (g: Group)
    requires id in Ids(matches)
    ensures g in Groups(matches) && GroupId(g) == id && GroupOf(matches, g)
  {
    GroupsSpec(matches);
    var k :| 0 <= k < |GroupIds(Groups(matches))| && GroupIds(Groups(matches))[k] == id;
    g := Groups(matches)[k];
  }

  lemma GroupInGroups(matches: seq<TestMatch>, g: Group)
    requires g in Groups(matches)
    ensures GroupOf(matches, g) && GroupId(g) in Ids(matches)
  {
    GroupsSpec(matches);
    var k :| 0 <= k < |Groups(matches)| && Groups(matches)[k] == g;
    assert GroupIds(Groups(matches))[k] == GroupId(g);
  }

  ghost predicate KeepsExactlySpecific(matches: seq<TestMatch>) {
    forall id :: id in GroupIds(Kept(matches)) <==> SpecificallyMatched(matches, id)
  }

  lemma KeptIdIff(matches: seq<TestMatch>, id: Id)
    requires HasSpecific(matches)
    ensures id in GroupIds(Kept(matches)) <==>
            exists g :: g in Groups(matches) && GroupId(g) == id && Specific(Chosen(g)) && !OwnerlessFirst(g)
  {
    var kept := Kept(matches);
    KeptGroupsSpec(matches, Groups(matches));
    GroupIdsAt(kept);
    if id in GroupIds(kept) {
      var k :| 0 <= k < |kept| && GroupIds(kept)[k] == id;
      assert kept[k] in kept;
      GroupInGroups(matches, kept[k]);
      KeepsSpec(matches, kept[k]);
    }
    if g :| g in Groups(matches) && GroupId(g) == id && Specific(Chosen(g)) && !OwnerlessFirst(g) {
      GroupInGroups(matches, g);
      KeepsSpec(matches, g);
      var k :| 0 <= k < |kept| && kept[k] == g;
      assert GroupIds(kept)[k] == id;
    }
  }

  /** Exactly when "specific beats broad" is what the minimizer does. */
  lemma KeptIffNotLedAstray(matches: seq<TestMatch>)
    requires HasSpecific(matches)
    ensures KeepsExactlySpecific(matches) <==> forall g :: g in Groups(matches) ==> !OwnerlessFirst(g)
  {
    forall id ensures SpecificallyMatched(matches, id) <==>
                      exists g :: g in Groups(matches) && GroupId(g) == id && Specific(Chosen(g)) {
      if SpecificallyMatched(matches, id) {
        IdsMember(matches, id);
        var g := GroupOfId(matches, id);
        SpecificIffChosenSpecific(matches, g);
      }
      if g :| g in Groups(matches) && GroupId(g) == id && Specific(Chosen(g)) {
        GroupInGroups(matches, g);
        SpecificIffChosenSpecific(matches, g);
      }
    }
    forall id { KeptIdIff(matches, id); }
    if g :| g in Groups(matches) && OwnerlessFirst(g) {
      GroupInGroups(matches, g);
      assert SpecificallyMatched(matches, GroupId(g));
      forall h | h in Groups(matches) && GroupId(h) == GroupId(g) ensures h == g {
        GroupInGroups(matches, h);
      }
      assert GroupId(g) !in GroupIds(Kept(matches));
    }
  }

  /** With an owner on every dependent-component match the promise holds: tests come
      in increasing id order; they are the specifically matched ones if there are
      any, and all of them otherwise; and something is kept whenever anything matched. */
  lemma KeptTests(matches: seq<TestMatch>)
    requires DependentsCarryOwner(matches)
    ensures Increasing(GroupIds(Kept(matches)))
    ensures forall id :: id in GroupIds(Kept(matches)) <==>
              if HasSpecific(matches) then SpecificallyMatched(matches, id) else id in Ids(matches)
    ensures matches != [] ==> Kept(matches) != []
  {
    GroupsSpec(matches);
    KeptGroupsSpec(matches, Groups(matches));
    if HasSpecific(matches) {
      forall g | g in Groups(matches) ensures !OwnerlessFirst(g) {
        GroupInGroups(matches, g);
        forall i | 0 <= i < |g| ensures g[i] in matches {
          CandidatesMember(matches, GroupId(g), g[i]);
        }
      }
      KeptIffNotLedAstray(matches);
      var m :| m in matches && Specific(m);
      assert SpecificallyMatched(matches, m.testId);
      assert m.testId in GroupIds(Kept(matches));
    } else if matches != [] {
      IdsMember(matches, matches[0].testId);
      assert matches[0].testId in GroupIds(Kept(matches));
    }
  }

  /** With an owner on every dependent-component match, the re-lookup may find another match
      than the chosen one, but always one that is just as specific. */
  lemma RelookupLandsInItsClass(matches: seq<TestMatch>, g: Group)
    requires DependentsCarryOwner(matches) && g in Groups(matches)
    ensures var found := Relookup(matches, GroupId(g), HumanReason(Chosen(g)));
            found.Some? && Specificity(found.value) == Specificity(Chosen(g))
  {
    RelookupSucceeds(matches);
    GroupInGroups(matches, g);
    var k := ChosenIsStrongest(g);
    CandidatesMember(matches, GroupId(g), g[k]);
    RelookupSpec(matches, GroupId(g), HumanReason(Chosen(g)));
  }

  /** Exactly when a non-empty list of matches is minimized to nothing. */
  lemma EmptiedIff(matches: seq<TestMatch>)
    requires matches != []
    ensures Kept(matches) == [] <==>
            HasSpecific(matches) && forall g :: g in Groups(matches) && Specific(Chosen(g)) ==> OwnerlessFirst(g)
  {
    if HasSpecific(matches) {
      KeptGroupsSpec(matches, Groups(matches));
      forall g | g in Groups(matches) ensures Keeps(matches, g) <==> Specific(Chosen(g)) && !OwnerlessFirst(g) {
        GroupInGroups(matches, g);
        KeepsSpec(matches, g);
      }
      if Kept(matches) != [] { assert Kept(matches)[0] in Kept(matches); }
    } else {
      IdsMember(matches, matches[0].testId);
      var g := GroupOfId(matches, matches[0].testId);
    }
  }

  lemma TwoMatchGroup(a: TestMatch, b: TestMatch)
    requires a.testId == b.testId
    ensures Candidates([a, b], a.testId) == [a, b]
    ensures forall id :: id in Ids([a, b]) ==> id == a.testId
  {
    assert [a, b] == [a] + [b] && [a] == [] + [a];
    WithKeyStep([], a, TestIdOf(), a.testId);
    WithKeyStep([a], b, TestIdOf(), a.testId);
    forall id | id in Ids([a, b]) ensures id == a.testId { IdsMember([a, b], id); }
  }

  /** Without that owner the minimizer can drop its only test. */
  lemma OwnerlessDependentDropsTheOnlyTest() returns (matches: seq<TestMatch>)
    ensures matches != [] && Kept(matches) == []
  {
    var ownerless := TestMatch(0, 7, DependentComponent, None, None, true, [Evidence(1)]);
    var owned := TestMatch(1, 7, DependentComponent, Some(3), None, true, [Evidence(2)]);
    matches := [ownerless, owned];
    assert Specific(matches[1]);
    TwoMatchGroup(ownerless, owned);
    forall g: Group | g in Groups(matches) ensures OwnerlessFirst(g) {
      GroupInGroups(matches, g);
      var k := ChosenIsStrongest(g);
      assert MatchLeq(g[k], owned) by { assert g[1] == owned; }
      assert IsDirectDependent(g[0]);
    }
    EmptiedIff(matches);
  }

  // ---- Nothing is lost ----------------------------------------------------------

  function CandidateTotal(matches: seq<TestMatch>, ids: seq<Id>): nat {
    if ids == [] then 0
    else CandidateTotal(matches, ids[..|ids| - 1]) + |Candidates(matches, ids[|ids| - 1])|
  }

  lemma {:induction false} CandidateTotalStep(matches: seq<TestMatch>, m: TestMatch, ids: seq<Id>)
    requires Increasing(ids)
    ensures CandidateTotal(matches + [m], ids) == CandidateTotal(matches, ids) + if m.testId in ids then 1 else 0
  {
    if ids == [] {
    } else {
      var n := |ids| - 1;
      CandidateTotalStep(matches, m, ids[..n]);
      assert (matches + [m])[..|matches|] == matches;
      assert ids == ids[..n] + [ids[n]];
      assert m.testId == ids[n] ==> m.testId !in ids[..n];
    }
  }

  lemma {:induction false} CandidateTotalAll(matches: seq<TestMatch>, ids: seq<Id>)
    requires Increasing(ids) && forall id :: id in Ids(matches) ==> id in ids
    ensures CandidateTotal(matches, ids) == |matches|
  {
    if matches == [] {
      NoCandidates(ids);
    } else {
      var n := |matches| - 1;
      assert matches[..n] + [matches[n]] == matches;
      CandidateTotalStep(matches[..n], matches[n], ids);
      CandidateTotalAll(matches[..n], ids);
    }
  }

  lemma {:induction false} NoCandidates(ids: seq<Id>)
    ensures CandidateTotal([], ids) == 0
  {
    if ids != [] { NoCandidates(ids[..|ids| - 1]); }
  }

  lemma {:induction false} WeakerCount(cs: seq<TestMatch>, best: TestMatch)
    ensures |DuplicatesOf(Weaker(cs, best))| + multiset(cs)[best] == |cs|
  {
    if cs == [] {
    } else {
      var n := |cs| - 1;
      WeakerCount(cs[..n], best);
      assert cs == cs[..n] + [cs[n]];
      DuplicatesOfStep(Weaker(cs[..n], best), cs[n]);
    }
  }

  lemma {:induction false} CandidatesMultiplicity(matches: seq<TestMatch>, m: TestMatch)
    ensures multiset(Candidates(matches, m.testId))[m] == multiset(matches)[m]
  {
    if matches == [] {
    } else {
      var n := |matches| - 1;
      CandidatesMultiplicity(matches[..n], m);
      assert matches == matches[..n] + [matches[n]];
    }
  }

  ghost predicate AllGroupsOf(matches: seq<TestMatch>, gs: seq<Group>) {
    forall g :: g in gs ==> GroupOf(matches, g)
  }

  lemma {:induction false} DuplicateCount(matches: seq<TestMatch>, gs: seq<Group>)
    requires AllGroupsOf(matches, gs)
    ensures |Duplicates(gs)| + |gs| <= CandidateTotal(matches, GroupIds(gs))
    ensures |Duplicates(gs)| + |gs| == CandidateTotal(matches, GroupIds(gs)) <==>
            forall g :: g in gs ==> multiset(matches)[Chosen(g)] == 1
  {
    if gs == [] {
    } else {
      var n := |gs| - 1;
      var g := gs[n];
      assert gs == gs[..n] + [g];
      DuplicateCount(matches, gs[..n]);
      var k := ChosenIsStrongest(g);
      WeakerCount(g, Chosen(g));
      assert GroupOf(matches, g);
      CandidatesMember(matches, GroupId(g), Chosen(g));
      CandidatesMultiplicity(matches, Chosen(g));
      assert Chosen(g) in multiset(g);
    }
  }

  lemma {:induction false} KeptAndBroad(matches: seq<TestMatch>, gs: seq<Group>, all: seq<Group>,
                                        describe: Id -> seq<Provenance>)
    ensures |KeptGroups(matches, gs)| + |Broads(matches, gs, all, describe)| == |gs|
  {
    if gs != [] { KeptAndBroad(matches, gs[..|gs| - 1], all, describe); }
  }

  /** Kept tests and exclusions account for every match, each once, exactly when
      no chosen match object was passed in twice. */
  lemma NothingLost(matches: seq<TestMatch>, describe: Id -> seq<Provenance>)
    ensures |Kept(matches)| + |Exclusions(matches, describe)| <= |matches|
    ensures |Kept(matches)| + |Exclusions(matches, describe)| == |matches| <==>
            forall g :: g in Groups(matches) ==> multiset(matches)[Chosen(g)] == 1
    ensures Distinct(matches) ==> |Kept(matches)| + |Exclusions(matches, describe)| == |matches|
  {
    var gs := Groups(matches);
    GroupsSpec(matches);
    forall g | g in gs ensures GroupOf(matches, g) { GroupInGroups(matches, g); }
    CandidateTotalAll(matches, GroupIds(gs));
    DuplicateCount(matches, gs);
    KeptAndBroad(matches, gs, gs, describe);
    if Distinct(matches) {
      forall g | g in gs ensures multiset(matches)[Chosen(g)] == 1 { ChosenOnce(matches, g); }
    }
  }

  lemma ChosenOnce(matches: seq<TestMatch>, g: Group)
    requires Distinct(matches) && GroupOf(matches, g)
    ensures multiset(matches)[Chosen(g)] == 1
  {
    var k := ChosenIsStrongest(g);
    CandidatesMember(matches, GroupId(g), g[k]);
    DistinctCount(matches, Chosen(g));
    assert Chosen(g) in multiset(matches);
  }

  // ---- Exclusions are justified ----------------------------------------------

  /** From `item`, following `replaced by` at most `steps` times reaches a kept item. */
  ghost predicate Leads(item: ItemRef, kept: set<ItemRef>, exclusions: seq<Exclusion>, steps: nat)
    decreases steps
  {
    item in kept ||
    (steps > 0 && exists e, r :: e in exclusions && e.item == item && r in e.replacedBy
                                 && Leads(r, kept, exclusions, steps - 1))
  }

  ghost predicate Justified(e: Exclusion, kept: set<ItemRef>, exclusions: seq<Exclusion>) {
    e.replacedBy == [] || exists r :: r in e.replacedBy && Leads(r, kept, exclusions, 1)
  }

  ghost predicate ValidMatches(matches: seq<TestMatch>) {
    forall m :: m in matches ==> m.provenance != []
  }

  lemma {:induction false} DuplicatesOfMember(cs: seq<TestMatch>, best: TestMatch, e: Exclusion)
    requires e in DuplicatesOf(Weaker(cs, best))
    ensures exists c :: c in cs && c != best && e == DuplicateExclusion(c)
  {
    var n := |cs| - 1;
    assert cs == cs[..n] + [cs[n]];
    DuplicatesOfStep(Weaker(cs[..n], best), cs[n]);
    if cs[n] == best || e != DuplicateExclusion(cs[n]) {
      DuplicatesOfMember(cs[..n], best, e);
    }
  }

  lemma {:induction false} DuplicatesMember(gs: seq<Group>, e: Exclusion)
    requires e in Duplicates(gs)
    ensures exists g, c :: g in gs && c in g && c != Chosen(g) && e == DuplicateExclusion(c)
  {
    var n := |gs| - 1;
    assert gs == gs[..n] + [gs[n]];
    if e in Duplicates(gs[..n]) {
      DuplicatesMember(gs[..n], e);
    } else {
      DuplicatesOfMember(gs[n], Chosen(gs[n]), e);
    }
  }

  lemma {:induction false} BroadsMember(matches: seq<TestMatch>, gs: seq<Group>, all: seq<Group>,
                                        describe: Id -> seq<Provenance>, e: Exclusion)
    ensures e in Broads(matches, gs, all, describe) <==>
            exists g :: g in gs && !Keeps(matches, g) && e == BroadExclusion(g, all, describe)
  {
    if gs == [] {
    } else {
      var n := |gs| - 1;
      assert gs == gs[..n] + [gs[n]];
      BroadsMember(matches, gs[..n], all, describe, e);
    }
  }

  lemma {:induction false} OthersMember(gs: seq<Group>, id: Id, x: Id)
    ensures x in Others(gs, id) <==> x in GroupIds(gs) && x != id
  {
    if gs != [] { OthersMember(gs[..|gs| - 1], id, x); }
  }

  lemma {:induction false} OthersSpec(gs: seq<Group>, id: Id)
    ensures Increasing(GroupIds(gs)) ==> Increasing(Others(gs, id))
  {
    if gs == [] {
    } else {
      var n := |gs| - 1;
      GroupIdsAt(gs);
      assert GroupIds(gs[..n]) == GroupIds(gs)[..n];
      OthersSpec(gs[..n], id);
      var others := Others(gs[..n], id);
      forall k | 0 <= k < |others| ensures others[k] in GroupIds(gs)[..n] {
        OthersMember(gs[..n], id, others[k]);
      }
    }
  }

  /** A broad suite is replaced by every other matched test, each named once. */
  lemma BroadExclusionSpec(matches: seq<TestMatch>, g: Group, describe: Id -> seq<Provenance>)
    ensures var e := BroadExclusion(g, Groups(matches), describe);
            && Distinct(e.replacedBy)
            && (forall id :: TestRef(id) in e.replacedBy <==> id in Ids(matches) && id != GroupId(g))
  {
    GroupsSpec(matches);
    OthersSpec(Groups(matches), GroupId(g));
    var others := Others(Groups(matches), GroupId(g));
    SortFixesSorted(others, IntLeq());
    var e := BroadExclusion(g, Groups(matches), describe);
    forall id ensures TestRef(id) in e.replacedBy <==> id in Ids(matches) && id != GroupId(g) {
      OthersMember(Groups(matches), GroupId(g), id);
      if id in others {
        var k :| 0 <= k < |others| && others[k] == id;
        assert e.replacedBy[k] == TestRef(id);
      }
    }
  }

  function KeptTestRefs(matches: seq<TestMatch>): set<ItemRef> {
    set id | id in GroupIds(Kept(matches)) :: TestRef(id)
  }

  lemma ItemProvenance(matches: seq<TestMatch>, g: Group, describe: Id -> seq<Provenance>)
    requires g in Groups(matches) && ValidMatches(matches)
    ensures Item(g, describe).provenance != []
  {
    GroupInGroups(matches, g);
    var k := ChosenIsStrongest(g);
    CandidatesMember(matches, GroupId(g), g[k]);
    MergedNonEmpty([Chosen(g).provenance, describe(GroupId(g))], 0);
  }

  /** Every exclusion passes its validators and, once dependents carry owners,
      its replacements lead to a kept test. */
  lemma ExclusionsJustified(matches: seq<TestMatch>, describe: Id -> seq<Provenance>, e: Exclusion)
    requires ValidMatches(matches) && e in Exclusions(matches, describe)
    ensures ValidExclusion(e)
    ensures e.item.TestRef? && e.item.testId in Ids(matches)
    ensures DependentsCarryOwner(matches) ==> e.replacedBy != []
    ensures DependentsCarryOwner(matches) ==> Justified(e, KeptTestRefs(matches), Exclusions(matches, describe))
  {
    var gs := Groups(matches);
    if DependentsCarryOwner(matches) { KeptTests(matches); }
    if e in Duplicates(gs) {
      DuplicatesMember(gs, e);
      var g, c :| g in gs && c in g && c != Chosen(g) && e == DuplicateExclusion(c);
      GroupInGroups(matches, g);
      CandidatesMember(matches, GroupId(g), c);
      if DependentsCarryOwner(matches) { TestLeads(matches, describe, g); }
      assert TestRef(GroupId(g)) in e.replacedBy;
    } else {
      BroadsMember(matches, gs, gs, describe, e);
      var g :| g in gs && !Keeps(matches, g) && e == BroadExclusion(g, gs, describe);
      GroupInGroups(matches, g);
      BroadExclusionSpec(matches, g, describe);
      ItemProvenance(matches, g, describe);
      if DependentsCarryOwner(matches) {
        var r := KeptOther(matches, g);
        assert TestRef(r) in e.replacedBy && TestRef(r) in KeptTestRefs(matches);
      }
    }
  }

  lemma KeptOther(matches: seq<TestMatch>, g: Group) returns (id: Id)
    requires DependentsCarryOwner(matches) && HasSpecific(matches) && g in Groups(matches) && !Keeps(matches, g)
    ensures id in GroupIds(Kept(matches)) && id in Ids(matches) && id != GroupId(g)
  {
    KeptTests(matches);
    GroupIdsAt(Kept(matches));
    KeptGroupsSpec(matches, Groups(matches));
    var h := Kept(matches)[0];
    assert h in Kept(matches);
    id := GroupIds(Kept(matches))[0];
    GroupInGroups(matches, h);
    GroupInGroups(matches, g);
  }

  lemma TestLeads(matches: seq<TestMatch>, describe: Id -> seq<Provenance>, g: Group)
    requires ValidMatches(matches) && DependentsCarryOwner(matches) && g in Groups(matches)
    ensures Leads(TestRef(GroupId(g)), KeptTestRefs(matches), Exclusions(matches, describe), 1)
  {
    var gs := Groups(matches);
    GroupInGroups(matches, g);
    if !HasSpecific(matches) {
      KeptTests(matches);
    } else if Keeps(matches, g) {
      KeptGroupsSpec(matches, gs);
      GroupIdsAt(Kept(matches));
      var k :| 0 <= k < |Kept(matches)| && Kept(matches)[k] == g;
      assert GroupIds(Kept(matches))[k] == GroupId(g);
    } else {
      var e := BroadExclusion(g, gs, describe);
      BroadsMember(matches, gs, gs, describe, e);
      BroadExclusionSpec(matches, g, describe);
      var r := KeptOther(matches, g);
      assert e in Exclusions(matches, describe) && TestRef(r) in e.replacedBy;
      assert Leads(TestRef(r), KeptTestRefs(matches), Exclusions(matches, describe), 0);
    }
  }
}
