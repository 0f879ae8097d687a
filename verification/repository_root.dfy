/** `Repository.root_candidate`: which directory counts as the repository of a path. */
module RepositoryRoot {
  import opened Ordering

  /** An absolute directory, as its names from the file system root down. */
  type Path = seq<string>

  datatype Support = Supported | Unsupported | Unreadable
  datatype PathKind = Missing | File | Directory
  datatype RootError = NoSuchPath | NotADirectory

  /** What the search looks at. Support is detected without reading `.suit`. */
  datatype FileSystem = FileSystem(kind: Path -> PathKind, support: Path -> Support, hasVersionControl: Path -> bool,
                                   hasIde: Path -> bool, hasSuit: Path -> bool, suitIsDirectory: Path -> bool)

  function Parent(p: Path): Path
    requires p != []
  {
    p[..|p| - 1]
  }

  predicate Marked(fs: FileSystem, p: Path) {
    fs.hasVersionControl(p) || fs.hasIde(p) || fs.hasSuit(p)
  }

  /** How many steps up the first marker is; the file system root bounds the search. */
  function Boundary(fs: FileSystem, p: Path): nat {
    if Marked(fs, p) || p == [] then 0 else 1 + Boundary(fs, Parent(p))
  }

  datatype Criterion = BySupport | ByVersionControl | BySuit | ByIde

  predicate Satisfies(fs: FileSystem, c: Criterion, p: Path) {
    match c
    case BySupport => fs.support(p).Supported?
    case ByVersionControl => fs.hasVersionControl(p)
    case BySuit => fs.suitIsDirectory(p)
    case ByIde => fs.hasIde(p)
  }

  /** The nearest directory, at most `steps` up, that satisfies the criterion. */
  function Nearest(fs: FileSystem, c: Criterion, p: Path, steps: nat): Option<Path> {
    if Satisfies(fs, c, p) then Some(p)
    else if steps == 0 || p == [] then None
    else Nearest(fs, c, Parent(p), steps - 1)
  }

  function FirstCriterion(fs: FileSystem, cs: seq<Criterion>, p: Path, steps: nat): Path {
    if cs == [] then p
    else match Nearest(fs, cs[0], p, steps)
      case Some(r) => r
      case None => FirstCriterion(fs, cs[1..], p, steps)
  }

  const CRITERIA := [BySupport, ByVersionControl, BySuit, ByIde]

  function Root(fs: FileSystem, p: Path): Path {
    FirstCriterion(fs, CRITERIA, p, Boundary(fs, p))
  }

  function RootCandidate(fs: FileSystem, p: Path): Result<Path, RootError> {
    match fs.kind(p)
    case Missing => Err(NoSuchPath)
    case File => Err(NotADirectory)
    case Directory => Ok(Root(fs, p))
  }

  // ---- Where the root lies -------------------------------------------------------------

  /** The directory `i` levels up. */
  function Up(p: Path, i: nat): Path
    decreases i
  {
    if i == 0 || p == [] then p else Up(Parent(p), i - 1)
  }

  lemma {:induction false} UpIsPrefix(p: Path, i: nat)
    requires i <= |p|
    ensures Up(p, i) == p[..|p| - i]
    decreases i
  {
    if i == 0 {
      assert p[..|p|] == p;
    } else {
      UpIsPrefix(Parent(p), i - 1);
      assert Parent(p)[..|p| - i] == p[..|p| - i];
    }
  }

  lemma {:induction false} BoundaryIsFirstMarker(fs: FileSystem, p: Path)
    ensures Boundary(fs, p) <= |p|
    ensures forall i: nat :: i < Boundary(fs, p) ==> !Marked(fs, Up(p, i))
    ensures Boundary(fs, p) < |p| ==> Marked(fs, Up(p, Boundary(fs, p)))
  {
    if !(Marked(fs, p) || p == []) {
      BoundaryIsFirstMarker(fs, Parent(p));
      forall i: nat | i < Boundary(fs, p) ensures !Marked(fs, Up(p, i)) {
        if i > 0 { assert Up(p, i) == Up(Parent(p), i - 1); }
      }
    }
  }

  lemma {:induction false} NearestNone(fs: FileSystem, c: Criterion, p: Path, steps: nat, i: nat)
    requires steps <= |p| && i <= steps && Nearest(fs, c, p, steps).None?
    ensures !Satisfies(fs, c, Up(p, i))
  {
    if i > 0 { NearestNone(fs, c, Parent(p), steps - 1, i - 1); }
  }

  lemma {:induction false} NearestSome(fs: FileSystem, c: Criterion, p: Path, steps: nat) returns (i: nat)
    requires steps <= |p| && Nearest(fs, c, p, steps).Some?
    ensures i <= steps && Nearest(fs, c, p, steps) == Some(Up(p, i)) && Satisfies(fs, c, Up(p, i))
    ensures forall j: nat :: j < i ==> !Satisfies(fs, c, Up(p, j))
  {
    if Satisfies(fs, c, p) {
      i := 0;
    } else {
      var k := NearestSome(fs, c, Parent(p), steps - 1);
      i := k + 1;
      forall j: nat | j < i ensures !Satisfies(fs, c, Up(p, j)) {
        if j > 0 { assert Up(p, j) == Up(Parent(p), j - 1); }
      }
    }
  }

  lemma {:induction false} FirstCriterionLies(fs: FileSystem, cs: seq<Criterion>, p: Path, steps: nat) returns (i: nat)
    requires steps <= |p|
    ensures i <= steps && FirstCriterion(fs, cs, p, steps) == Up(p, i)
  {
    if cs == [] {
      i := 0;
    } else if Nearest(fs, cs[0], p, steps).Some? {
      i := NearestSome(fs, cs[0], p, steps);
    } else {
      i := FirstCriterionLies(fs, cs[1..], p, steps);
    }
  }

  /** The root is the path itself or an ancestor no farther up than the first marker. */
  lemma RootWithinBoundary(fs: FileSystem, p: Path)
    ensures var r := Root(fs, p); |p| - Boundary(fs, p) <= |r| <= |p| && r == p[..|r|]
  {
    BoundaryIsFirstMarker(fs, p);
    var i := FirstCriterionLies(fs, CRITERIA, p, Boundary(fs, p));
    UpIsPrefix(p, i);
  }

  // ---- Which directory it is ------------------------------------------------------------

  predicate HasMarker(fs: FileSystem, d: Path) { fs.hasVersionControl(d) || fs.hasIde(d) || fs.hasSuit(d) }

  /** The search ends `b` levels up: at the first marker, or at the file system root. */
  ghost predicate SearchEndsAt(fs: FileSystem, p: Path, b: nat) {
    && b <= |p| && (forall i: nat :: i < b ==> !HasMarker(fs, Up(p, i))) && (b < |p| ==> HasMarker(fs, Up(p, b)))
  }

  /** `r` is the nearest directory with the property, of those within `b` levels. */
  ghost predicate IsNearest(p: Path, b: nat, holds: Path -> bool, r: Path) {
    exists i: nat :: i <= b && r == Up(p, i) && holds(r) && NoneBelow(p, i, holds)
  }

  /** No directory fewer than `n` levels up has it. */
  ghost predicate NoneBelow(p: Path, n: nat, holds: Path -> bool) {
    forall i: nat :: i < n ==> !holds(Up(p, i))
  }

  function IsSupported(fs: FileSystem): Path -> bool { (d: Path) => fs.support(d) == Supported }

  lemma {:induction false} NoMarkerBelow(fs: FileSystem, p: Path, b: nat)
    requires b <= |p| && forall i: nat :: i < b ==> !HasMarker(fs, Up(p, i))
    ensures b <= Boundary(fs, p)
    decreases b
  {
    if b > 0 {
      assert !HasMarker(fs, Up(p, 0));
      forall i: nat | i < b - 1 ensures !HasMarker(fs, Up(Parent(p), i)) { assert Up(p, i + 1) == Up(Parent(p), i); }
      NoMarkerBelow(fs, Parent(p), b - 1);
    }
  }

  lemma {:induction false} MarkerAt(fs: FileSystem, p: Path, b: nat)
    requires b <= |p| && (b < |p| ==> HasMarker(fs, Up(p, b)))
    ensures Boundary(fs, p) <= b
    decreases b
  {
    if b > 0 { MarkerAt(fs, Parent(p), b - 1); }
  }

  lemma NearestSpec(fs: FileSystem, c: Criterion, p: Path, b: nat, holds: Path -> bool)
    requires b <= |p| && forall d :: holds(d) <==> Satisfies(fs, c, d)
    ensures match Nearest(fs, c, p, b)
            case Some(r) => IsNearest(p, b, holds, r) && !NoneBelow(p, b + 1, holds)
            case None => NoneBelow(p, b + 1, holds)
  {
    if Nearest(fs, c, p, b).Some? {
      var i := NearestSome(fs, c, p, b);
    } else {
      forall i: nat | i < b + 1 ensures !holds(Up(p, i)) { NearestNone(fs, c, p, b, i); }
    }
  }

  lemma CriteriaInOrder(fs: FileSystem, p: Path, b: nat)
    ensures FirstCriterion(fs, CRITERIA, p, b) ==
            match Nearest(fs, BySupport, p, b)
            case Some(r) => r
            case None =>
              match Nearest(fs, ByVersionControl, p, b)
              case Some(r) => r
              case None =>
                match Nearest(fs, BySuit, p, b)
                case Some(r) => r
                case None =>
                  match Nearest(fs, ByIde, p, b)
                  case Some(r) => r
                  case None => p
  {
    assert CRITERIA == [BySupport] + ([ByVersionControl] + ([BySuit] + ([ByIde] + [])));
    CriterionStep(fs, ByIde, [], p, b);
    CriterionStep(fs, BySuit, [ByIde] + [], p, b);
    CriterionStep(fs, ByVersionControl, [BySuit] + ([ByIde] + []), p, b);
    CriterionStep(fs, BySupport, [ByVersionControl] + ([BySuit] + ([ByIde] + [])), p, b);
  }

  lemma CriterionStep(fs: FileSystem, c: Criterion, rest: seq<Criterion>, p: Path, b: nat)
    ensures FirstCriterion(fs, [c] + rest, p, b) ==
            match Nearest(fs, c, p, b) case Some(r) => r case None => FirstCriterion(fs, rest, p, b)
  {
    assert ([c] + rest)[1..] == rest;
  }

  /** The root is the nearest supported directory up to the first marker; without one the nearest
      under version control, then the nearest with a `.suit` directory, then the nearest with IDE
      settings, and then the path itself. */
  lemma RootSpec(fs: FileSystem, p: Path, b: nat)
    requires SearchEndsAt(fs, p, b)
    ensures var r := Root(fs, p);
            if !NoneBelow(p, b + 1, IsSupported(fs)) then IsNearest(p, b, IsSupported(fs), r)
            else if !NoneBelow(p, b + 1, fs.hasVersionControl) then IsNearest(p, b, fs.hasVersionControl, r)
            else if !NoneBelow(p, b + 1, fs.suitIsDirectory) then IsNearest(p, b, fs.suitIsDirectory, r)
            else if !NoneBelow(p, b + 1, fs.hasIde) then IsNearest(p, b, fs.hasIde, r)
            else r == p
  {
    NoMarkerBelow(fs, p, b);
    MarkerAt(fs, p, b);
    CriteriaInOrder(fs, p, b);
    NearestSpec(fs, BySupport, p, b, IsSupported(fs));
    NearestSpec(fs, ByVersionControl, p, b, fs.hasVersionControl);
    NearestSpec(fs, BySuit, p, b, fs.suitIsDirectory);
    NearestSpec(fs, ByIde, p, b, fs.hasIde);
  }

  // ---- Searching again ---------------------------------------------------------------------

  /** From a directory between the path and the first marker, the marker is the same. */
  lemma {:induction false} BoundaryFromAbove(fs: FileSystem, p: Path, i: nat)
    requires i <= Boundary(fs, p)
    ensures Boundary(fs, Up(p, i)) == Boundary(fs, p) - i
    decreases i
  {
    if i > 0 { BoundaryFromAbove(fs, Parent(p), i - 1); }
  }

  lemma {:induction false} NearestFromAbove(fs: FileSystem, c: Criterion, p: Path, steps: nat, i: nat)
    requires i <= steps <= |p|
    requires forall j: nat :: j < i ==> !Satisfies(fs, c, Up(p, j))
    ensures Nearest(fs, c, Up(p, i), steps - i) == Nearest(fs, c, p, steps)
    decreases i
  {
    if i > 0 {
      assert !Satisfies(fs, c, Up(p, 0));
      forall j: nat | j < i - 1 ensures !Satisfies(fs, c, Up(Parent(p), j)) {
        assert Up(p, j + 1) == Up(Parent(p), j);
      }
      NearestFromAbove(fs, c, Parent(p), steps - 1, i - 1);
    }
  }

  lemma {:induction false} FirstCriterionAgain(fs: FileSystem, cs: seq<Criterion>, p: Path, steps: nat) returns (i: nat)
    requires steps <= |p|
    ensures i <= steps && FirstCriterion(fs, cs, p, steps) == Up(p, i)
    ensures FirstCriterion(fs, cs, Up(p, i), steps - i) == Up(p, i)
  {
    if cs == [] {
      i := 0;
    } else if Nearest(fs, cs[0], p, steps).Some? {
      i := NearestSome(fs, cs[0], p, steps);
    } else {
      i := FirstCriterionAgain(fs, cs[1..], p, steps);
      forall j: nat | j < i ensures !Satisfies(fs, cs[0], Up(p, j)) { NearestNone(fs, cs[0], p, steps, j); }
      NearestFromAbove(fs, cs[0], p, steps, i);
    }
  }

  /** The root of a root is that root. */
  lemma RootIsIdempotent(fs: FileSystem, p: Path)
    ensures Root(fs, Root(fs, p)) == Root(fs, p)
  {
    BoundaryIsFirstMarker(fs, p);
    var i := FirstCriterionAgain(fs, CRITERIA, p, Boundary(fs, p));
    BoundaryFromAbove(fs, p, i);
  }

  // ---- Creating .suit -------------------------------------------------------------------------

  /** The file system after `ensure_suit_layout(root)`. */
  function WithSuit(fs: FileSystem, root: Path): FileSystem {
    fs.(hasSuit := p => p == root || fs.hasSuit(p), suitIsDirectory := p => p == root || fs.suitIsDirectory(p))
  }

  lemma {:induction false} BoundaryWithSuit(fs: FileSystem, root: Path, p: Path)
    ensures Boundary(WithSuit(fs, root), p) <= Boundary(fs, p)
    ensures Boundary(WithSuit(fs, root), p) < Boundary(fs, p) ==> Up(p, Boundary(WithSuit(fs, root), p)) == root
  {
    if !(Marked(WithSuit(fs, root), p) || p == []) {
      BoundaryWithSuit(fs, root, Parent(p));
    }
  }

  lemma {:induction false} NearestIgnoresSuit(fs: FileSystem, root: Path, c: Criterion, p: Path, steps: nat)
    requires !c.BySuit?
    ensures Nearest(WithSuit(fs, root), c, p, steps) == Nearest(fs, c, p, steps)
  {
    if !Satisfies(fs, c, p) && steps > 0 && p != [] {
      NearestIgnoresSuit(fs, root, c, Parent(p), steps - 1);
    }
  }

  /** No directory up to `steps` levels above the path is `root`. */
  ghost predicate Avoids(p: Path, steps: nat, root: Path) {
    forall i: nat :: i <= steps ==> Up(p, i) != root
  }

  lemma AvoidsParent(p: Path, steps: nat, root: Path)
    requires Avoids(p, steps, root) && steps > 0 && p != []
    ensures Avoids(Parent(p), steps - 1, root) && p != root
  {
    assert Up(p, 0) != root;
    forall i: nat | i <= steps - 1 ensures Up(Parent(p), i) != root { assert Up(p, i + 1) != root; }
  }

  lemma {:induction false} NearestOutsideSuit(fs: FileSystem, root: Path, c: Criterion, p: Path, steps: nat)
    requires Avoids(p, steps, root)
    ensures Nearest(WithSuit(fs, root), c, p, steps) == Nearest(fs, c, p, steps)
  {
    assert Up(p, 0) != root;
    if !Satisfies(fs, c, p) && steps > 0 && p != [] {
      AvoidsParent(p, steps, root);
      NearestOutsideSuit(fs, root, c, Parent(p), steps - 1);
    }
  }

  lemma {:induction false} NearestShorter(fs: FileSystem, c: Criterion, p: Path, few: nat, many: nat)
    requires few <= many <= |p| && Satisfies(fs, c, Up(p, few))
    ensures Nearest(fs, c, p, few) == Nearest(fs, c, p, many) && Nearest(fs, c, p, few).Some?
    decreases few
  {
    if !Satisfies(fs, c, p) {
      NearestShorter(fs, c, Parent(p), few - 1, many - 1);
    }
  }

  lemma {:induction false} CriteriaOutsideSuit(fs: FileSystem, root: Path, cs: seq<Criterion>, p: Path, steps: nat)
    requires Avoids(p, steps, root)
    ensures FirstCriterion(WithSuit(fs, root), cs, p, steps) == FirstCriterion(fs, cs, p, steps)
  {
    if cs != [] {
      NearestOutsideSuit(fs, root, cs[0], p, steps);
      CriteriaOutsideSuit(fs, root, cs[1..], p, steps);
    }
  }

  /** Creating `.suit` at a supported root changes the root of no path whatsoever. */
  lemma SuitChangesNoRoot(fs: FileSystem, root: Path, p: Path)
    requires fs.support(root).Supported?
    ensures Root(WithSuit(fs, root), p) == Root(fs, p)
  {
    var after := WithSuit(fs, root);
    var b, c := Boundary(fs, p), Boundary(after, p);
    BoundaryIsFirstMarker(fs, p);
    BoundaryIsFirstMarker(after, p);
    BoundaryWithSuit(fs, root, p);
    if Avoids(p, c, root) {
      assert c == b;
      CriteriaOutsideSuit(fs, root, CRITERIA, p, b);
    } else {
      var i: nat :| i <= c && Up(p, i) == root;
      NearestShorter(fs, BySupport, p, i, b);
      NearestShorter(fs, BySupport, p, i, c);
      NearestIgnoresSuit(fs, root, BySupport, p, c);
      assert CRITERIA[0] == BySupport;
    }
  }

  // ---- The class method -----------------------------------------------------------------------

  /** Whatever contains a directory is a directory. */
  ghost predicate WellFormed(fs: FileSystem) {
    forall p: Path :: p != [] && fs.kind(p).Directory? ==> fs.kind(Parent(p)).Directory?
  }

  lemma {:induction false} AncestorsAreDirectories(fs: FileSystem, p: Path, n: nat)
    requires WellFormed(fs) && fs.kind(p).Directory? && n <= |p|
    ensures fs.kind(p[..n]).Directory?
  {
    if n == |p| {
      assert p[..n] == p;
    } else {
      AncestorsAreDirectories(fs, Parent(p), n);
      assert Parent(p)[..n] == p[..n];
    }
  }

  /** Every directory has a candidate, which lies between it and the first marker and is its
      own candidate; everything else is refused, and for the right reason. */
  lemma CandidateSpec(fs: FileSystem, p: Path)
    requires WellFormed(fs)
    ensures RootCandidate(fs, p) == Err(NoSuchPath) <==> fs.kind(p).Missing?
    ensures RootCandidate(fs, p) == Err(NotADirectory) <==> fs.kind(p).File?
    ensures fs.kind(p).Directory? ==>
              exists r: Path :: RootCandidate(fs, p) == Ok(r) == RootCandidate(fs, r)
                                && r <= p && |p| - Boundary(fs, p) <= |r|
  {
    if fs.kind(p).Directory? {
      var r := Root(fs, p);
      RootWithinBoundary(fs, p);
      RootIsIdempotent(fs, p);
      AncestorsAreDirectories(fs, p, |r|);
      assert RootCandidate(fs, p) == Ok(r) == RootCandidate(fs, r);
    }
  }

  /** Materializing `.suit` at a supported root changes no answer at all. */
  lemma SuitChangesNoCandidate(fs: FileSystem, root: Path, p: Path)
    requires fs.support(root).Supported?
    ensures RootCandidate(WithSuit(fs, root), p) == RootCandidate(fs, p)
  {
    SuitChangesNoRoot(fs, root, p);
  }
}
