/** When the store starts a new file, and what its files hold and are called. */
module RollingStorePacking {
  import opened Ordering
  import opened Decimals
  import opened Lexicographic
  import opened StableSort
  import opened RollingStore
  import opened RollingStoreProperties
  import opened RollingStoreOrder

  // ---- One append ------------------------------------------------------------------

  /** The size of a file is that of its parts. */
  lemma {:induction false} SizeAppend(a: seq<Line>, b: seq<Line>)
    ensures Size(a + b) == Size(a) + Size(b)
  {
    if b == [] {
      assert a + b == a;
    } else {
      var n := |b| - 1;
      SizeAppend(a, b[..n]);
      assert (a + b)[..|a + b| - 1] == a + b[..n];
    }
  }

  lemma SizeOne(line: Line)
    ensures Size([line]) == line.bytes && Size([]) == 0
  {
    assert [line][..0] == [];
  }

  ghost predicate Fits(d: Directory, line: Line, maxBytes: int) {
    d.active.None? || Size(d.active.value + [line]) <= maxBytes
  }

  /** No new file as long as the active one stays within the limit; otherwise the active file
      becomes an archive of this instant and the line starts a new one. */
  lemma RollsOverIff(d: Directory, line: Line, maxBytes: int, now: int)
    ensures var r := AppendLine(d, line, maxBytes, now);
            && (r.archives == d.archives <==> Fits(d, line, maxBytes))
            && (Fits(d, line, maxBytes) ==> r.active == Some((if d.active.Some? then d.active.value else []) + [line]))
            && (!Fits(d, line, maxBytes) ==>
                  r.active == Some([line]) && exists n :: n !in d.archives && n.timestamp == now
                                                          && r.archives == d.archives[n := d.active.value])
  {
    if d.active.Some? {
      SizeAppend(d.active.value, [line]);
      SizeOne(line);
      if !Fits(d, line, maxBytes) {
        var n := FreeName(d.archives.Keys, now, 0);
        FreeNameIsFree(d.archives.Keys, now, 0);
        assert [] + [line] == [line];
        assert n in d.archives[n := d.active.value];
      }
    }
  }

  // ---- Every run -----------------------------------------------------------------------

  /** No file is empty or, unless it holds a single line, over the limit; and no file could
      have held the first line of the next one. */
  ghost predicate Packed(files: seq<seq<Line>>, maxBytes: int) {
    forall k :: 0 <= k < |files| ==> PackedFile(files, k, maxBytes)
  }

  ghost predicate PackedFile(files: seq<seq<Line>>, k: nat, maxBytes: int)
    requires k < |files|
  {
    && files[k] != [] && (Size(files[k]) <= maxBytes || |files[k]| == 1)
    && (k + 1 < |files| ==> files[k + 1] != [] && Size(files[k] + [files[k + 1][0]]) > maxBytes)
  }

  /** The archives, in the given order, and the active file. */
  ghost predicate HoldsFiles(d: Directory, made: seq<ArchiveName>, files: seq<seq<Line>>) {
    if d.active.None? then made == [] && files == []
    else
      && |files| == |made| + 1 && files[|made|] == d.active.value
      && forall j :: 0 <= j < |made| ==> made[j] in d.archives && d.archives[made[j]] == files[j]
  }

  lemma PackedGrows(files: seq<seq<Line>>, line: Line, maxBytes: int)
    requires Packed(files, maxBytes) && files != [] && Size(files[|files| - 1] + [line]) <= maxBytes
    ensures Packed(files[..|files| - 1] + [files[|files| - 1] + [line]], maxBytes)
  {
    var n := |files| - 1;
    var grown := files[..n] + [files[n] + [line]];
    forall k | 0 <= k < |grown| ensures PackedFile(grown, k, maxBytes) {
      assert PackedFile(files, k, maxBytes);
    }
  }

  lemma PackedExtends(files: seq<seq<Line>>, line: Line, maxBytes: int)
    requires Packed(files, maxBytes) && (files != [] ==> Size(files[|files| - 1] + [line]) > maxBytes)
    ensures Packed(files + [[line]], maxBytes)
  {
    var longer := files + [[line]];
    forall k | 0 <= k < |longer| ensures PackedFile(longer, k, maxBytes) {
      if k < |files| { assert PackedFile(files, k, maxBytes); } else { SizeOne(line); }
    }
  }

  lemma FlattenGrows(files: seq<seq<Line>>, line: Line)
    ensures Flatten(files + [[line]]) == Flatten(files) + [line]
    ensures files != [] ==> Flatten(files[..|files| - 1] + [files[|files| - 1] + [line]]) == Flatten(files) + [line]
  {
    FlattenStep(files, [line]);
    if files != [] { FlattenStep(files[..|files| - 1], files[|files| - 1] + [line]); }
  }

  lemma FlattenStep(files: seq<seq<Line>>, file: seq<Line>)
    ensures Flatten(files + [file]) == Flatten(files) + file
  {
    assert (files + [file])[..|files|] == files;
  }

  /** One more line, as the store takes it. */
  lemma PackLine(d: Directory, made: seq<ArchiveName>, files: seq<seq<Line>>, line: Line, maxBytes: int, now: int)
    returns (grown: seq<seq<Line>>)
    requires HoldsFiles(d, made, files) && Packed(files, maxBytes) && forall n :: n in made ==> n in d.archives
    ensures var after := if MustRoll(d, line, maxBytes) then made + [FreeName(d.archives.Keys, now, 0)] else made;
            HoldsFiles(AppendLine(d, line, maxBytes, now), after, grown)
    ensures Packed(grown, maxBytes) && Flatten(grown) == Flatten(files) + [line]
  {
    FlattenGrows(files, line);
    FreeNameIsFree(d.archives.Keys, now, 0);
    if d.active.Some? {
      SizeAppend(d.active.value, [line]);
      SizeOne(line);
    }
    if d.active.Some? && !MustRoll(d, line, maxBytes) {
      grown := files[..|made|] + [files[|made|] + [line]];
      PackedGrows(files, line, maxBytes);
    } else {
      grown := files + [[line]];
      assert [] + [line] == [line];
      PackedExtends(files, line, maxBytes);
    }
  }

  /** Over every run: the archives in the order in which they were made, and then the active
      file, cut the appended lines into packed files. */
  lemma {:induction false} StreamIsPacked(ops: seq<AppendOperation>, maxBytes: int, root: Root) returns (files: seq<seq<Line>>)
    ensures HoldsFiles(StreamAfter(ops, maxBytes, root), Made(ops, maxBytes, root), files)
    ensures Packed(files, maxBytes) && Flatten(files) == Appended(ops, root)
    ensures StreamAfter(ops, maxBytes, root).active.None? <==> Appended(ops, root) == []
    ensures forall n :: n in StreamAfter(ops, maxBytes, root).archives <==> n in Made(ops, maxBytes, root)
  {
    MadeListsArchives(ops, maxBytes, root);
    if ops == [] {
      files := [];
    } else {
      var front, op := ops[..|ops| - 1], ops[|ops| - 1];
      files := StreamIsPacked(front, maxBytes, root);
      StreamStep(ops, maxBytes, root);
      if Reaches(op, root) {
        files := PackLine(StreamAfter(front, maxBytes, root), Made(front, maxBytes, root), files, op.line, maxBytes, op.now);
      }
    }
  }

  lemma NotEmpty(files: seq<seq<Line>>, maxBytes: int)
    requires Packed(files, maxBytes) && files != []
    ensures Flatten(files) != []
  {
    FlattenFront(files);
    assert PackedFile(files, 0, maxBytes);
  }

  /** The first file and one more line are over the limit. */
  lemma OneLineTooMany(files: seq<seq<Line>>, maxBytes: int)
    requires Packed(files, maxBytes) && files != [] && |files[0]| < |Flatten(files)|
    ensures Size(Flatten(files)[..|files[0]| + 1]) > maxBytes
  {
    FlattenFront(files);
    assert files[1..] != [] && PackedFile(files, 0, maxBytes);
    FlattenFront(files[1..]);
    assert Flatten(files)[..|files[0]| + 1] == files[0] + [files[1][0]];
  }

  /** What starts the first file is not. */
  lemma FrontFits(files: seq<seq<Line>>, maxBytes: int, n: nat)
    requires Packed(files, maxBytes) && files != [] && n <= |files[0]| && |files[0]| > 1
    ensures n <= |Flatten(files)| && Size(Flatten(files)[..n]) <= maxBytes
  {
    FlattenFront(files);
    assert PackedFile(files, 0, maxBytes);
    assert Flatten(files)[..n] == files[0][..n] && files[0] == files[0][..n] + files[0][n..];
    SizeAppend(files[0][..n], files[0][n..]);
  }

  lemma FirstFileFits(a: seq<seq<Line>>, b: seq<seq<Line>>, maxBytes: int)
    requires Packed(a, maxBytes) && Packed(b, maxBytes) && a != [] && b != [] && Flatten(a) == Flatten(b)
    ensures |a[0]| >= |b[0]|
  {
    FlattenFront(b);
    assert PackedFile(a, 0, maxBytes);
    if |a[0]| < |b[0]| {
      FrontFits(b, maxBytes, |a[0]| + 1);
      OneLineTooMany(a, maxBytes);
    }
  }

  lemma FlattenFront(files: seq<seq<Line>>)
    requires files != []
    ensures Flatten(files) == files[0] + Flatten(files[1..])
  {
    FlattenAppend([files[0]], files[1..]);
    assert files == [files[0]] + files[1..];
    assert [files[0]][..0] == [];
    assert Flatten([files[0]]) == [] + files[0] == files[0];
  }

  lemma PackedRest(files: seq<seq<Line>>, maxBytes: int)
    requires Packed(files, maxBytes) && files != []
    ensures Packed(files[1..], maxBytes)
  {
    forall k | 0 <= k < |files| - 1 ensures PackedFile(files[1..], k, maxBytes) {
      assert PackedFile(files, k + 1, maxBytes);
    }
  }

  /** There is only one way to cut lines into packed files. */
  lemma {:induction false} PackedUnique(a: seq<seq<Line>>, b: seq<seq<Line>>, maxBytes: int)
    requires Packed(a, maxBytes) && Packed(b, maxBytes) && Flatten(a) == Flatten(b)
    ensures a == b
  {
    if a == [] || b == [] {
      if a != [] { NotEmpty(a, maxBytes); }
      if b != [] { NotEmpty(b, maxBytes); }
    } else {
      FirstFileFits(a, b, maxBytes);
      FirstFileFits(b, a, maxBytes);
      FlattenFront(a);
      FlattenFront(b);
      assert a[0] == Flatten(a)[..|a[0]|] == b[0];
      assert Flatten(a[1..]) == Flatten(a)[|a[0]|..] == Flatten(b[1..]);
      PackedRest(a, maxBytes);
      PackedRest(b, maxBytes);
      PackedUnique(a[1..], b[1..], maxBytes);
      assert a == [a[0]] + a[1..] && b == [b[0]] + b[1..];
    }
  }
}
