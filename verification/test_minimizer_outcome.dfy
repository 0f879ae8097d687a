/** What `minimize_tests` returns, said of the matches it was given: which match speaks for a
    test, how the test is described, and what every exclusion holds. */
module TestMinimizerOutcome {
  import opened Ordering
  import opened Lexicographic
  import opened ChangeSetModels
  import opened TestMinimizer
  import opened TestMinimizerProperties

  // ---- The sort key, part by part -----------------------------------------------

  function ReasonText(r: RelationReason): string {
    match r
    case DependentComponent => "dependent_component"
    case RepositoryDefaultSuite => "repository_default_suite"
    case SameComponent => "same_component"
    case SameOwner => "same_owner"
    case SamePackage => "same_package"
  }

  lemma ReasonsCompareAsText(a: RelationReason, b: RelationReason)
    ensures ReasonRank(a) < ReasonRank(b) <==> TextBefore(ReasonText(a), ReasonText(b))
  {
    var x, y := ReasonText(a), ReasonText(b);
    if a == b {
      forall i | 0 <= i < |x| ensures !(x[i] < y[i]) {}
    } else if x[0] != y[0] {
      if x[0] < y[0] { PartsAt(x, y, 0); } else { PartsAt(y, x, 0); }
    } else {
      var at := if a.SameComponent? || b.SameComponent? then 5 else if x[5] != y[5] then 5 else 6;
      assert x[..5] == y[..5] == "same_";
      if x[5] < y[5] { PartsAt(x, y, 5); } else { PartsAt(y, x, 5); }
    }
  }

  ghost predicate SameEvidence(a: TestMatch, b: TestMatch) {
    a.path.Some? == b.path.Some? && (a.path.None? ==> a.owner.Some? == b.owner.Some?)
  }

  ghost predicate AnchorsInOrder(a: TestMatch, b: TestMatch)
    requires SameEvidence(a, b)
  {
    if a.path.Some? then a.path.value <= b.path.value
    else if a.owner.Some? then a.owner.value <= b.owner.value
    else true
  }

  /** `a` is at least as strong as `b`: a path beats an owner beats neither; then an
      authoritative match, then the reason's text, then the path or owner. */
  ghost predicate AtLeastAsStrong(a: TestMatch, b: TestMatch) {
    if SameEvidence(a, b) then
      if a.authoritative != b.authoritative then a.authoritative
      else if a.reason != b.reason then TextBefore(ReasonText(a.reason), ReasonText(b.reason))
      else AnchorsInOrder(a, b)
    else a.path.Some? || (b.path.None? && a.owner.Some?)
  }

  lemma KeyOrder(a: TestMatch, b: TestMatch)
    ensures MatchLeq(a, b) <==> AtLeastAsStrong(a, b)
  {
    ReasonsCompareAsText(a.reason, b.reason);
  }

  // ---- The match that speaks for a test -------------------------------------------

  /** `m` is the strongest match of its test, and the first of those that tie. */
  ghost predicate Strongest(matches: seq<TestMatch>, m: TestMatch) {
    exists k :: 0 <= k < |matches| && matches[k] == m
                && forall j :: 0 <= j < |matches| && matches[j].testId == m.testId ==>
                     AtLeastAsStrong(m, matches[j]) && (j < k ==> !AtLeastAsStrong(matches[j], m))
  }

  /** How a test matched by `m` is described. */
  ghost predicate Describes(reason: TestReason, m: TestMatch) {
    match reason
    case ExactFile => m.path.Some?
    case DirectDependent => m.path.None? && m.reason == DependentComponent
    case SameOwnerOrComponent => m.path.None? && m.reason != DependentComponent && m.owner.Some?
    case BroadFallback => m.path.None? && m.reason != DependentComponent && m.owner.None?
  }

  lemma {:induction false} CandidatesPositions(matches: seq<TestMatch>, id: Id) returns (at: seq<nat>)
    ensures |at| == |Candidates(matches, id)|
    ensures forall i :: 0 <= i < |at| ==> at[i] < |matches| && matches[at[i]] == Candidates(matches, id)[i]
    ensures forall i, j :: 0 <= i < j < |at| ==> at[i] < at[j]
    ensures forall k :: 0 <= k < |matches| && matches[k].testId == id ==> k in at
  {
    if matches == [] {
      at := [];
    } else {
      var n := |matches| - 1;
      at := CandidatesPositions(matches[..n], id);
      if matches[n].testId == id { at := at + [n]; }
    }
  }

  lemma ChosenSpeaks(matches: seq<TestMatch>, g: Group)
    requires g in Groups(matches)
    ensures Strongest(matches, Chosen(g)) && Chosen(g).testId == GroupId(g)
  {
    GroupInGroups(matches, g);
    var i := ChosenIsStrongest(g);
    var at := CandidatesPositions(matches, GroupId(g));
    var m, k := g[i], at[i];
    CandidatesMember(matches, GroupId(g), m);
    forall j | 0 <= j < |matches| && matches[j].testId == m.testId
      ensures AtLeastAsStrong(m, matches[j]) && (j < k ==> !AtLeastAsStrong(matches[j], m))
    {
      var p :| 0 <= p < |at| && at[p] == j;
      KeyOrder(m, matches[j]);
      KeyOrder(matches[j], m);
    }
  }

  /** There is only one such match object. */
  lemma StrongestUnique(matches: seq<TestMatch>, a: TestMatch, b: TestMatch)
    requires Strongest(matches, a) && Strongest(matches, b) && a.testId == b.testId
    ensures a == b
  {
  }

  // ---- The tests -------------------------------------------------------------------

  ghost predicate SaysWhatWasMatched(matches: seq<TestMatch>, describe: Id -> seq<Provenance>, t: TestItem) {
    exists m :: m in matches && m.testId == t.testId && Strongest(matches, m)
                && Describes(t.reason, m) && Unites(t.provenance, [m.provenance, describe(t.testId)])
  }

  lemma ItemSays(matches: seq<TestMatch>, describe: Id -> seq<Provenance>, g: Group)
    requires g in Groups(matches)
    ensures SaysWhatWasMatched(matches, describe, Item(g, describe))
  {
    ChosenSpeaks(matches, g);
    MergedUnites([Chosen(g).provenance, describe(GroupId(g))]);
  }

  lemma KeptGroup(matches: seq<TestMatch>, describe: Id -> seq<Provenance>, t: TestItem) returns (g: Group)
    requires t in Items(Kept(matches), describe)
    ensures g in Kept(matches) && g in Groups(matches) && t == Item(g, describe)
  {
    var kept := Kept(matches);
    var k :| 0 <= k < |Items(kept, describe)| && Items(kept, describe)[k] == t;
    if kept != [] { ItemsAt(kept, 0, describe); }
    ItemsAt(kept, k, describe);
    KeptGroupsSpec(matches, Groups(matches));
    g := kept[k];
  }

  /** Every kept test says how, and on whose evidence, its strongest match found it; and the
      tests come by increasing id. */
  lemma KeptItemsSpec(matches: seq<TestMatch>, describe: Id -> seq<Provenance>)
    ensures forall t :: t in Items(Kept(matches), describe) ==> SaysWhatWasMatched(matches, describe, t)
    ensures var items := Items(Kept(matches), describe);
            forall i, j :: 0 <= i < j < |items| ==> items[i].testId < items[j].testId
  {
    forall t | t in Items(Kept(matches), describe) ensures SaysWhatWasMatched(matches, describe, t) {
      var g := KeptGroup(matches, describe, t);
      ItemSays(matches, describe, g);
    }
    var kept := Kept(matches);
    GroupsSpec(matches);
    KeptGroupsSpec(matches, Groups(matches));
    GroupIdsAt(kept);
    if kept != [] { ItemsAt(kept, 0, describe); }
    forall i, j | 0 <= i < j < |kept| ensures Items(kept, describe)[i].testId < Items(kept, describe)[j].testId {
      ItemsAt(kept, i, describe);
      ItemsAt(kept, j, describe);
      assert GroupIds(kept)[i] < GroupIds(kept)[j];
    }
  }

  /** The same from the side of the matches: a test is an exact one if and only if some match of
      it names a path; any other description means that none does. */
  lemma ReasonsSpec(matches: seq<TestMatch>, describe: Id -> seq<Provenance>, t: TestItem)
    requires t in Items(Kept(matches), describe)
    ensures t.reason.ExactFile? <==> exists m :: m in matches && m.testId == t.testId && m.path.Some?
    ensures t.reason.DirectDependent? ==> exists m :: m in matches && m.testId == t.testId && m.reason.DependentComponent?
    ensures t.reason.SameOwnerOrComponent? ==> exists m :: m in matches && m.testId == t.testId && m.owner.Some?
    ensures t.reason.BroadFallback? ==> forall m :: m in matches && m.testId == t.testId ==> m.path.None? && m.owner.None?
  {
    KeptItemsSpec(matches, describe);
    var s :| s in matches && s.testId == t.testId && Strongest(matches, s) && Describes(t.reason, s);
    forall m | m in matches && m.testId == t.testId ensures AtLeastAsStrong(s, m) {
      var j :| 0 <= j < |matches| && matches[j] == m;
    }
  }

  // ---- The exclusions ----------------------------------------------------------------

  lemma {:induction false} WeakerMember(cs: seq<TestMatch>, best: TestMatch, c: TestMatch)
    requires c in cs && c != best
    ensures DuplicateExclusion(c) in DuplicatesOf(Weaker(cs, best))
  {
    var n := |cs| - 1;
    assert cs == cs[..n] + [cs[n]];
    DuplicatesOfStep(Weaker(cs[..n], best), cs[n]);
    if c in cs[..n] { WeakerMember(cs[..n], best, c); }
  }

  lemma {:induction false} WeakerExcluded(gs: seq<Group>, g: Group, c: TestMatch)
    requires g in gs && c in g && c != Chosen(g)
    ensures DuplicateExclusion(c) in Duplicates(gs)
  {
    var n := |gs| - 1;
    assert gs == gs[..n] + [gs[n]];
    if g == gs[n] { WeakerMember(g, Chosen(g), c); } else { WeakerExcluded(gs[..n], g, c); }
  }

  ghost predicate LostTo(matches: seq<TestMatch>, c: TestMatch, m: TestMatch) {
    Strongest(matches, m) && c in matches && c.testId == m.testId && c != m
  }

  /** The duplicates are exactly the matches that lost to the strongest of their test, each
      with its own provenance. */
  lemma DuplicateExclusionsIff(matches: seq<TestMatch>, describe: Id -> seq<Provenance>, e: Exclusion)
    ensures e in Exclusions(matches, describe) && e.reason.DuplicateReplacedByStrongerMatch? <==>
            exists c, m :: LostTo(matches, c, m)
                           && e == Exclusion(TestRef(c.testId), DuplicateReplacedByStrongerMatch, [TestRef(c.testId)], c.provenance)
  {
    var gs := Groups(matches);
    if e in Exclusions(matches, describe) && e.reason.DuplicateReplacedByStrongerMatch? {
      if e !in Duplicates(gs) { BroadsMember(matches, gs, gs, describe, e); }
      DuplicatesMember(gs, e);
      var g, c :| g in gs && c in g && c != Chosen(g) && e == DuplicateExclusion(c);
      GroupInGroups(matches, g);
      CandidatesMember(matches, GroupId(g), c);
      ChosenSpeaks(matches, g);
      assert LostTo(matches, c, Chosen(g));
    }
    if c, m :| LostTo(matches, c, m)
               && e == Exclusion(TestRef(c.testId), DuplicateReplacedByStrongerMatch, [TestRef(c.testId)], c.provenance) {
      IdsMember(matches, c.testId);
      var g := GroupOfId(matches, c.testId);
      ChosenSpeaks(matches, g);
      StrongestUnique(matches, m, Chosen(g));
      CandidatesMember(matches, c.testId, c);
      WeakerExcluded(gs, g, c);
    }
  }

  ghost predicate KeptTest(matches: seq<TestMatch>, describe: Id -> seq<Provenance>, id: Id) {
    exists t :: t in Items(Kept(matches), describe) && t.testId == id
  }

  ghost predicate Matched(matches: seq<TestMatch>, id: Id) {
    exists m :: m in matches && m.testId == id
  }

  /** The exclusion of a broad test: every other matched test in order of its id, and the
      provenance the test would have had. */
  ghost predicate BroadlyExcludes(matches: seq<TestMatch>, describe: Id -> seq<Provenance>, e: Exclusion, id: Id) {
    && e.item == TestRef(id) && e.reason.BroadTestReplacedBySpecificTests?
    && (forall r :: r in e.replacedBy <==> r.TestRef? && r.testId != id && Matched(matches, r.testId))
    && (forall i, j :: 0 <= i < j < |e.replacedBy| && e.replacedBy[i].TestRef? && e.replacedBy[j].TestRef? ==>
          e.replacedBy[i].testId < e.replacedBy[j].testId)
    && exists m :: m in matches && m.testId == id && Strongest(matches, m) && Unites(e.provenance, [m.provenance, describe(id)])
  }

  lemma BroadExclusionSays(matches: seq<TestMatch>, g: Group, describe: Id -> seq<Provenance>)
    requires g in Groups(matches)
    ensures BroadlyExcludes(matches, describe, BroadExclusion(g, Groups(matches), describe), GroupId(g))
  {
    var e := BroadExclusion(g, Groups(matches), describe);
    var others := Others(Groups(matches), GroupId(g));
    GroupsSpec(matches);
    OthersSpec(Groups(matches), GroupId(g));
    SortFixesSorted(others, IntLeq());
    BroadExclusionSpec(matches, g, describe);
    ItemSays(matches, describe, g);
    forall r ensures r in e.replacedBy <==> r.TestRef? && r.testId != GroupId(g) && Matched(matches, r.testId) {
      if r.TestRef? { IdsMember(matches, r.testId); }
    }
  }

  lemma KeptTestIff(matches: seq<TestMatch>, describe: Id -> seq<Provenance>, g: Group)
    requires g in Groups(matches)
    ensures KeptTest(matches, describe, GroupId(g)) <==> g in Kept(matches)
  {
    if t :| t in Items(Kept(matches), describe) && t.testId == GroupId(g) {
      var h := KeptGroup(matches, describe, t);
      GroupInGroups(matches, h);
      GroupInGroups(matches, g);
    }
    if g in Kept(matches) {
      var k :| 0 <= k < |Kept(matches)| && Kept(matches)[k] == g;
      ItemsAt(Kept(matches), k, describe);
      assert Items(Kept(matches), describe)[k] in Items(Kept(matches), describe);
    }
  }

  /** The broad exclusions are about exactly the matched tests that are not kept. */
  lemma BroadExclusionsSpec(matches: seq<TestMatch>, describe: Id -> seq<Provenance>)
    ensures forall e :: e in Exclusions(matches, describe) && !e.reason.DuplicateReplacedByStrongerMatch? ==>
              exists id :: Matched(matches, id) && !KeptTest(matches, describe, id) && BroadlyExcludes(matches, describe, e, id)
    ensures forall id :: Matched(matches, id) && !KeptTest(matches, describe, id) ==>
              exists e :: e in Exclusions(matches, describe) && BroadlyExcludes(matches, describe, e, id)
  {
    var gs := Groups(matches);
    KeptGroupsSpec(matches, gs);
    forall e | e in Exclusions(matches, describe) && !e.reason.DuplicateReplacedByStrongerMatch?
      ensures exists id :: Matched(matches, id) && !KeptTest(matches, describe, id) && BroadlyExcludes(matches, describe, e, id)
    {
      if e in Duplicates(gs) { DuplicatesMember(gs, e); }
      BroadsMember(matches, gs, gs, describe, e);
      var g :| g in gs && !Keeps(matches, g) && e == BroadExclusion(g, gs, describe);
      KeptTestIff(matches, describe, g);
      BroadExclusionSays(matches, g, describe);
      GroupInGroups(matches, g);
      IdsMember(matches, GroupId(g));
    }
    forall id | Matched(matches, id) && !KeptTest(matches, describe, id)
      ensures exists e :: e in Exclusions(matches, describe) && BroadlyExcludes(matches, describe, e, id)
    {
      IdsMember(matches, id);
      var g := GroupOfId(matches, id);
      KeptTestIff(matches, describe, g);
      BroadExclusionSays(matches, g, describe);
      BroadsMember(matches, gs, gs, describe, BroadExclusion(g, gs, describe));
    }
  }

  // ---- The order of the exclusions -----------------------------------------------------

  ghost predicate ByTestId(es: seq<Exclusion>) {
    && (forall e :: e in es ==> e.item.TestRef?)
    && (forall i, j :: 0 <= i < j < |es| && es[i].item.TestRef? && es[j].item.TestRef? ==> es[i].item.testId <= es[j].item.testId)
  }

  lemma AppendByTestId(es: seq<Exclusion>, more: seq<Exclusion>, id: Id)
    requires ByTestId(es) && forall e :: e in es ==> e.item.testId <= id
    requires forall e :: e in more ==> e.item == TestRef(id)
    ensures ByTestId(es + more)
  {
    assert forall i :: 0 <= i < |es| ==> es[i] in es;
    assert forall i :: 0 <= i < |more| ==> more[i] in more;
  }

  lemma EarlierIds(matches: seq<TestMatch>, gs: seq<Group>, g: Group)
    requires gs != [] && AllGroupsOf(matches, gs) && Increasing(GroupIds(gs)) && g in gs[..|gs| - 1]
    ensures GroupId(g) < GroupId(gs[|gs| - 1])
  {
    GroupIdsAt(gs);
    var k :| 0 <= k < |gs| - 1 && gs[k] == g;
    assert GroupIds(gs)[k] < GroupIds(gs)[|gs| - 1];
  }

  lemma DuplicateOf(matches: seq<TestMatch>, gs: seq<Group>, e: Exclusion) returns (g: Group)
    requires AllGroupsOf(matches, gs) && e in Duplicates(gs)
    ensures g in gs && e.item == TestRef(GroupId(g))
  {
    DuplicatesMember(gs, e);
    var h: Group, c :| h in gs && c in h && e == DuplicateExclusion(c);
    g := h;
    assert DuplicateExclusion(c).item == TestRef(c.testId) && GroupOf(matches, g);
    CandidatesMember(matches, GroupId(g), c);
  }

  lemma OwnDuplicate(matches: seq<TestMatch>, g: Group, e: Exclusion)
    requires GroupOf(matches, g) && e in DuplicatesOf(Weaker(g, Chosen(g)))
    ensures e.item == TestRef(GroupId(g))
  {
    DuplicatesOfMember(g, Chosen(g), e);
    var c :| c in g && e == DuplicateExclusion(c);
    assert DuplicateExclusion(c).item == TestRef(c.testId);
    CandidatesMember(matches, GroupId(g), c);
  }

  lemma {:induction false} DuplicatesByTestId(matches: seq<TestMatch>, gs: seq<Group>)
    requires AllGroupsOf(matches, gs) && Increasing(GroupIds(gs))
    ensures ByTestId(Duplicates(gs))
  {
    if gs != [] {
      var n := |gs| - 1;
      var g := gs[n];
      GroupIdsAt(gs);
      assert GroupIds(gs[..n]) == GroupIds(gs)[..n];
      DuplicatesByTestId(matches, gs[..n]);
      forall e | e in Duplicates(gs[..n]) ensures e.item.testId <= GroupId(g) {
        var h := DuplicateOf(matches, gs[..n], e);
        EarlierIds(matches, gs, h);
      }
      var more := DuplicatesOf(Weaker(g, Chosen(g)));
      forall e | e in more ensures e.item == TestRef(GroupId(g)) { OwnDuplicate(matches, g, e); }
      AppendByTestId(Duplicates(gs[..n]), more, GroupId(g));
    }
  }

  lemma {:induction false} BroadsByTestId(matches: seq<TestMatch>, gs: seq<Group>, all: seq<Group>, describe: Id -> seq<Provenance>)
    requires AllGroupsOf(matches, gs) && Increasing(GroupIds(gs))
    ensures ByTestId(Broads(matches, gs, all, describe))
  {
    if gs != [] {
      var n := |gs| - 1;
      GroupIdsAt(gs);
      assert GroupIds(gs[..n]) == GroupIds(gs)[..n];
      BroadsByTestId(matches, gs[..n], all, describe);
      forall e | e in Broads(matches, gs[..n], all, describe) ensures e.item.testId <= GroupId(gs[n]) {
        BroadsMember(matches, gs[..n], all, describe, e);
        var h :| h in gs[..n] && e == BroadExclusion(h, all, describe);
        EarlierIds(matches, gs, h);
      }
      AppendByTestId(Broads(matches, gs[..n], all, describe), [BroadExclusion(gs[n], all, describe)], GroupId(gs[n]));
    }
  }

  /** Duplicates first, then broad tests, and both by test id. */
  lemma ExclusionsInOrder(matches: seq<TestMatch>, describe: Id -> seq<Provenance>)
    ensures exists duplicates: seq<Exclusion>, broads: seq<Exclusion> ::
              && Exclusions(matches, describe) == duplicates + broads && ByTestId(duplicates) && ByTestId(broads)
              && (forall e :: e in duplicates ==> e.reason.DuplicateReplacedByStrongerMatch?)
              && (forall e :: e in broads ==> e.reason.BroadTestReplacedBySpecificTests?)
  {
    var gs := Groups(matches);
    GroupsSpec(matches);
    forall g | g in gs ensures GroupOf(matches, g) { GroupInGroups(matches, g); }
    var broads := if HasSpecific(matches) then Broads(matches, gs, gs, describe) else [];
    DuplicatesByTestId(matches, gs);
    BroadsByTestId(matches, gs, gs, describe);
    forall e | e in Duplicates(gs) ensures e.reason.DuplicateReplacedByStrongerMatch? { DuplicatesMember(gs, e); }
    forall e | e in broads ensures e.reason.BroadTestReplacedBySpecificTests? { BroadsMember(matches, gs, gs, describe, e); }
    assert Exclusions(matches, describe) == Duplicates(gs) + broads;
  }
}
