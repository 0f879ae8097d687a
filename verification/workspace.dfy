/** The repositories of a workspace and the allocation of their ids. Directory names
    are byte strings; which root a directory belongs to and whether it is supported
    are answers of the repository layer. */
module Workspaces {
  import opened Decimals
  import opened Ordering

  datatype Root = Root(location: int, name: seq<Byte>)

  type RepositoryId = seq<Byte>

  datatype WorkspaceError = Unsupported | UnknownId

  /** "repo:" and "-" */
  const PREFIX: seq<Byte> := [114, 101, 112, 111, 58]
  const DASH: Byte := 45

  function Plain(name: seq<Byte>): RepositoryId { PREFIX + name }

  function Numbered(name: seq<Byte>, n: nat): RepositoryId {
    PREFIX + name + [DASH] + Decimal(n)
  }

  lemma NumberedInjective(name: seq<Byte>, m: nat, n: nat)
    requires Numbered(name, m) == Numbered(name, n)
    ensures m == n
  {
    var front := PREFIX + name + [DASH];
    assert Decimal(m) == Numbered(name, m)[|front|..];
    assert Decimal(n) == Numbered(name, n)[|front|..];
    DecimalParses(m);
    DecimalParses(n);
  }

  lemma PlainIsNotNumbered(name: seq<Byte>, n: nat)
    ensures Plain(name) != Numbered(name, n)
  {
    assert |Plain(name)| < |Numbered(name, n)|;
  }

  // ---- The fresh id -------------------------------------------------------

  /** The numbered candidates below `suffix`. */
  ghost function Tried(name: seq<Byte>, suffix: nat): (r: set<RepositoryId>) {
    set n | 2 <= n < suffix :: Numbered(name, n)
  }

  ghost predicate IsFresh(existing: set<RepositoryId>, name: seq<Byte>, id: RepositoryId) {
    && id !in existing
    && (id == Plain(name) ||
        (Plain(name) in existing && exists n: nat :: 2 <= n && id == Numbered(name, n) && Tried(name, n) <= existing))
  }

  lemma NotTriedBefore(name: seq<Byte>, n: nat)
    ensures Numbered(name, n) !in Tried(name, n)
  {
    forall m: nat | 2 <= m < n ensures Numbered(name, m) != Numbered(name, n) {
      if Numbered(name, m) == Numbered(name, n) { NumberedInjective(name, m, n); }
    }
  }

  lemma TriedGrows(existing: set<RepositoryId>, name: seq<Byte>, n: nat)
    requires 2 <= n && Numbered(name, n) in existing
    ensures Tried(name, n + 1) == Tried(name, n) + {Numbered(name, n)}
    ensures |existing - Tried(name, n + 1)| < |existing - Tried(name, n)|
  {
    NotTriedBefore(name, n);
    assert Tried(name, n + 1) == Tried(name, n) + {Numbered(name, n)};
    assert existing - Tried(name, n + 1) == existing - Tried(name, n) - {Numbered(name, n)};
  }

  /** The loop ends because each round uses up one of the finitely many taken ids. */
  method NextRepositoryId(ids: map<Root, RepositoryId>, name: seq<Byte>) returns (id: RepositoryId)
    ensures IsFresh(ids.Values, name, id)
  {
    var existing := ids.Values;
    id := Plain(name);
    if id !in existing { return; }
    var suffix := 2;
    id := Numbered(name, suffix);
    while id in existing
      invariant 2 <= suffix && id == Numbered(name, suffix)
      invariant Tried(name, suffix) <= existing
      decreases |existing - Tried(name, suffix)|
    {
      TriedGrows(existing, name, suffix);
      suffix := suffix + 1;
      id := Numbered(name, suffix);
    }
  }

  /** Only one id is fresh: the plain name, or the least free suffix. */
  lemma FreshIsUnique(existing: set<RepositoryId>, name: seq<Byte>, a: RepositoryId, b: RepositoryId)
    requires IsFresh(existing, name, a) && IsFresh(existing, name, b)
    ensures a == b
  {
    if Plain(name) in existing {
      var m: nat :| 2 <= m && a == Numbered(name, m) && Tried(name, m) <= existing;
      var n: nat :| 2 <= n && b == Numbered(name, n) && Tried(name, n) <= existing;
      assert m < n ==> Numbered(name, m) in Tried(name, n);
      assert n < m ==> Numbered(name, n) in Tried(name, m);
    }
  }

  lemma {:induction false} TriedSize(name: seq<Byte>, suffix: nat)
    requires 2 <= suffix
    ensures |Tried(name, suffix)| == suffix - 2
    ensures Plain(name) !in Tried(name, suffix)
  {
    if suffix == 2 {
    } else {
      TriedSize(name, suffix - 1);
      NotTriedBefore(name, suffix - 1);
      PlainIsNotNumbered(name, suffix - 1);
      assert Tried(name, suffix) == Tried(name, suffix - 1) + {Numbered(name, suffix - 1)};
    }
  }

  /** Suffixes stay small: with k ids in use the next one is at most k + 1. */
  lemma SuffixIsBounded(existing: set<RepositoryId>, name: seq<Byte>, n: nat)
    requires IsFresh(existing, name, Numbered(name, n)) && 2 <= n
    ensures n <= |existing| + 1
  {
    PlainIsNotNumbered(name, n);
    var m: nat :| 2 <= m && Numbered(name, n) == Numbered(name, m) && Tried(name, m) <= existing;
    NumberedInjective(name, n, m);
    TriedSize(name, n);
    var used := Tried(name, n) + {Plain(name)};
    assert existing == used + (existing - used);
  }

  /** With "repo:a" in use, the next repository named "a" is "repo:a-2". */
  lemma SecondOfItsName(id: RepositoryId)
    ensures IsFresh({[114, 101, 112, 111, 58, 97]}, [97], id) <==> id == [114, 101, 112, 111, 58, 97, 45, 50]
  {
    var plain, second: RepositoryId := [114, 101, 112, 111, 58, 97], [114, 101, 112, 111, 58, 97, 45, 50];
    assert Plain([97]) == plain && Numbered([97], 2) == second;
    assert Tried([97], 2) == {};
    assert IsFresh({plain}, [97], second);
    if IsFresh({plain}, [97], id) { FreshIsUnique({plain}, [97], id, second); }
  }

  // ---- The registry -------------------------------------------------------

  /** The dict from root to repository: its ids, and its roots in insertion order. */
  datatype Registry = Registry(ids: map<Root, RepositoryId>, roots: seq<Root>)

  ghost predicate Consistent(r: Registry) {
    && Distinct(r.roots)
    && (forall root :: root in r.roots <==> root in r.ids)
    && (forall a, b :: a in r.ids && b in r.ids && r.ids[a] == r.ids[b] ==> a == b)
  }

  /** What asking for the repository of a directory with root `root` may do. */
  ghost predicate Adds(before: Registry, root: Root, supported: bool, answer: Result<RepositoryId, WorkspaceError>,
                       after: Registry)
  {
    if !supported then answer == Err(Unsupported) && after == before
    else if root in before.ids then answer == Ok(before.ids[root]) && after == before
    else
      && answer.Ok?
      && IsFresh(before.ids.Values, root.name, answer.value)
      && after == Registry(before.ids[root := answer.value], before.roots + [root])
  }

  class Workspace {
    var repositories: map<Root, RepositoryId>
    var order: seq<Root>

    function State(): Registry
      reads this
    {
      Registry(repositories, order)
    }

    constructor (root: Root)
      ensures State() == Registry(map[root := Plain(root.name)], [root])
      ensures Consistent(State())
    {
      repositories := map[root := Plain(root.name)];
      order := [root];
    }

    method AddRepository(root: Root, supported: bool) returns (answer: Result<RepositoryId, WorkspaceError>)
      requires Consistent(State())
      modifies this
      ensures Adds(old(State()), root, supported, answer, State())
      ensures Consistent(State())
    {
      if !supported { return Err(Unsupported); }
      if root !in repositories {
        var id := NextRepositoryId(repositories, root.name);
        repositories := repositories[root := id];
        order := order + [root];
        AddKeepsConsistent(old(State()), root, Ok(id), State());
      }
      answer := Ok(repositories[root]);
    }

    method GetRepositoryById(id: RepositoryId) returns (answer: Result<Root, WorkspaceError>)
      requires Consistent(State())
      ensures answer == LookUp(State(), id)
      ensures answer.Ok? <==> id in repositories.Values
    {
      var i := 0;
      while i < |order|
        invariant 0 <= i <= |order|
        invariant forall j :: 0 <= j < i ==> repositories[order[j]] != id
      {
        if repositories[order[i]] == id {
          LookUpFinds(State(), order[i]);
          return Ok(order[i]);
        }
        i := i + 1;
      }
      return Err(UnknownId);
    }
  }

  /** The root that carries an id. */
  ghost function LookUp(r: Registry, id: RepositoryId): Result<Root, WorkspaceError> {
    if root :| root in r.ids && r.ids[root] == id then Ok(root) else Err(UnknownId)
  }

  lemma LookUpFinds(r: Registry, root: Root)
    requires Consistent(r) && root in r.ids
    ensures LookUp(r, r.ids[root]) == Ok(root)
  {
  }

  lemma AddKeepsConsistent(before: Registry, root: Root, answer: Result<RepositoryId, WorkspaceError>, after: Registry)
    requires Consistent(before) && Adds(before, root, true, answer, after)
    ensures Consistent(after)
  {
    if root !in before.ids {
      assert forall a :: a in before.ids ==> before.ids[a] in before.ids.Values;
    }
  }

  // ---- Runs ---------------------------------------------------------------

  datatype Request = Request(root: Root, supported: bool)

  /** `states` is the history of a workspace that answered `requests` with `answers`. */
  ghost predicate IsRun(states: seq<Registry>, requests: seq<Request>,
                        answers: seq<Result<RepositoryId, WorkspaceError>>)
  {
    && |states| == |requests| + 1 == |answers| + 1
    && forall i :: 0 <= i < |requests| ==>
         Adds(states[i], requests[i].root, requests[i].supported, answers[i], states[i + 1])
  }

  /** Ids stay distinct through any run, and no root ever loses or changes its id. */
  lemma {:induction false} RunKeepsIds(states: seq<Registry>, requests: seq<Request>,
                                      answers: seq<Result<RepositoryId, WorkspaceError>>, i: nat)
    requires IsRun(states, requests, answers) && Consistent(states[0]) && i < |states|
    ensures Consistent(states[i])
    ensures forall root :: root in states[0].ids ==> root in states[i].ids && states[i].ids[root] == states[0].ids[root]
    ensures states[0].roots <= states[i].roots
    decreases i
  {
    if i > 0 {
      RunKeepsIds(states, requests, answers, i - 1);
      assert Adds(states[i - 1], requests[i - 1].root, requests[i - 1].supported, answers[i - 1], states[i]);
      if requests[i - 1].supported {
        AddKeepsConsistent(states[i - 1], requests[i - 1].root, answers[i - 1], states[i]);
      }
    }
  }

  /** An id handed out once leads back to its root for ever after, whatever is added in
      between, and asking for that root again answers with the same id. */
  lemma AllocationIsInverted(states: seq<Registry>, requests: seq<Request>,
                             answers: seq<Result<RepositoryId, WorkspaceError>>, i: nat, j: nat)
    requires IsRun(states, requests, answers) && Consistent(states[0])
    requires i < j < |states| && answers[i].Ok?
    ensures LookUp(states[j], answers[i].value) == Ok(requests[i].root)
    ensures j < |requests| && requests[j] == requests[i] ==> answers[j] == answers[i] && states[j + 1] == states[j]
  {
    RunKeepsIds(states, requests, answers, i + 1);
    assert Adds(states[i], requests[i].root, requests[i].supported, answers[i], states[i + 1]);
    var later := states[i + 1..];
    assert IsRun(later, requests[i + 1..], answers[i + 1..]) by {
      forall k | 0 <= k < |requests| - i - 1
        ensures Adds(later[k], requests[i + 1..][k].root, requests[i + 1..][k].supported, answers[i + 1..][k], later[k + 1])
      {
        assert Adds(states[i + 1 + k], requests[i + 1 + k].root, requests[i + 1 + k].supported, answers[i + 1 + k],
                    states[i + 2 + k]);
      }
    }
    RunKeepsIds(later, requests[i + 1..], answers[i + 1..], j - i - 1);
    assert states[j] == later[j - i - 1];
    LookUpFinds(states[j], requests[i].root);
    if j < |requests| {
      assert Adds(states[j], requests[j].root, requests[j].supported, answers[j], states[j + 1]);
    }
  }

  /** Two different roots never share an id, also when one directory is named like the
      numbered id of another. */
  lemma AnswersAreDistinct(states: seq<Registry>, requests: seq<Request>,
                           answers: seq<Result<RepositoryId, WorkspaceError>>, i: nat, j: nat)
    requires IsRun(states, requests, answers) && Consistent(states[0])
    requires i < j < |answers| && answers[i].Ok? && answers[j].Ok?
    ensures answers[i] == answers[j] <==> requests[i].root == requests[j].root
  {
    AllocationIsInverted(states, requests, answers, i, j + 1);
    AllocationIsInverted(states, requests, answers, j, j + 1);
    assert Adds(states[i], requests[i].root, requests[i].supported, answers[i], states[i + 1]);
    assert Adds(states[j], requests[j].root, requests[j].supported, answers[j], states[j + 1]);
    if requests[i].root == requests[j].root {
      AllocationIsInverted(states, requests, answers, i, j);
      assert requests[i] == requests[j];
    }
  }
}
