/** Entities of the minimum verified change set. Ids and paths are opaque values
    with equality and a total order; provenance entries are opaque values. */
module ChangeSetModels {
  import opened Ordering

  type Id = int

  /** Summary entries the planner writes itself. */
  datatype Summary =
    | LintSummary(provider: Id)
    | FormatSummary(provider: Id)
    | ArtifactMemberSummary
    | StructuredArtifactSummary
    | NoTestsSummary
    | SharedFileSummary
    | ExclusionsSummary

  datatype Provenance = Evidence(id: Id) | Derived(summary: Summary)

  /** What an exclusion is about, and what replaces it. */
  datatype ItemRef = TestRef(testId: Id) | BuildRef(actionId: Id) | SurfaceRef(anchor: Id)

  datatype ExclusionReason =
    | DuplicateReplacedByStrongerMatch
    | BroadTestReplacedBySpecificTests
    | DependentTestReplacedByNarrowerBuild
    | RepositoryBuildReplacedByNarrowerBuild
    | NoDeterministicTestTargets
    | NoNarrowerSurfaceForFile
    | NoSurfaceForArtifactMember
    | NoSurfaceForStructuredArtifact

  datatype Exclusion = Exclusion(item: ItemRef, reason: ExclusionReason, replacedBy: seq<ItemRef>,
                                 provenance: seq<Provenance>)

  datatype PlanError = DuplicateReplacement | RunnerActionCount | NoSurfaces | InvalidChangeSet

  /** The validators of an excluded item. */
  ghost predicate ValidExclusion(e: Exclusion) {
    e.provenance != [] && Distinct(e.replacedBy)
  }

  /** Entries of all groups, each once, in order of first appearance. */
  function Merged(groups: seq<seq<Provenance>>): seq<Provenance> {
    FirstOccurrences(Flatten(groups))
  }

  /** `p` holds the entries of all groups, each once, in the order of the groups. */
  ghost predicate Unites(p: seq<Provenance>, groups: seq<seq<Provenance>>) {
    && Distinct(p)
    && (forall x :: x in p <==> exists k :: 0 <= k < |groups| && x in groups[k])
    && (forall i, j :: 0 <= i < j < |p| ==> AppearsFirst(Flatten(groups), p[i], p[j]))
  }

  ghost predicate AppearsFirst(s: seq<Provenance>, x: Provenance, y: Provenance) {
    exists a :: 0 <= a < |s| && s[a] == x && forall b :: 0 <= b <= a ==> s[b] != y
  }

  lemma MergedUnites(groups: seq<seq<Provenance>>)
    ensures Unites(Merged(groups), groups)
  {
    forall x { FlattenMember(groups, x); }
    var p := Merged(groups);
    forall i, j | 0 <= i < j < |p| ensures AppearsFirst(Flatten(groups), p[i], p[j]) {
      var a := FirstOccurrencesInOrder(Flatten(groups), i, j);
    }
  }

  /** Merging what was merged before adds nothing. */
  lemma MergedTwice(groups: seq<seq<Provenance>>, more: seq<Provenance>)
    ensures Merged([Merged(groups), more]) == Merged(groups + [more])
  {
    assert [Merged(groups), more][..1] == [Merged(groups)] && [Merged(groups)][..0] == [];
    assert Flatten([Merged(groups)]) == [] + Merged(groups) == Merged(groups);
    assert (groups + [more])[..|groups|] == groups;
    FirstOccurrencesAgain(Flatten(groups), more);
  }

  lemma MergedNonEmpty(groups: seq<seq<Provenance>>, k: nat)
    requires k < |groups| && groups[k] != []
    ensures Merged(groups) != []
  {
    FlattenMember(groups, groups[k][0]);
    assert groups[k][0] in Merged(groups);
  }

  lemma MergeStep(before: seq<Provenance>, entries: seq<Provenance>, i: nat)
    requires i < |entries|
    ensures var merged := FirstOccurrences(before + entries[..i]);
            FirstOccurrences(before + entries[..i + 1]) == if entries[i] in merged then merged else merged + [entries[i]]
  {
    FirstOccurrencesStep(before + entries[..i], entries[i]);
    OneMore(before, entries, i);
  }

  method MergeEntries(merged: seq<Provenance>, entries: seq<Provenance>, ghost before: seq<Provenance>)
    returns (grown: seq<Provenance>)
    requires merged == FirstOccurrences(before)
    ensures grown == FirstOccurrences(before + entries)
  {
    grown := merged;
    assert before + entries[..0] == before;
    for i := 0 to |entries|
      invariant grown == FirstOccurrences(before + entries[..i])
    {
      MergeStep(before, entries, i);
      if entries[i] !in grown {
        grown := grown + [entries[i]];
      }
    }
    assert entries[..|entries|] == entries;
  }

  /** The loop behind every merged provenance. */
  method MergedProvenance(groups: seq<seq<Provenance>>) returns (merged: seq<Provenance>)
    ensures merged == Merged(groups)
  {
    merged := [];
    for g := 0 to |groups|
      invariant merged == Merged(groups[..g])
    {
      assert groups[..g + 1][..g] == groups[..g];
      merged := MergeEntries(merged, groups[g], Flatten(groups[..g]));
    }
    assert groups[..|groups|] == groups;
  }
}
