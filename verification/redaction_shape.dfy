/** What redaction shows: which keys hide their value, and what stands in the result at the
    place of everything that is shown. */
module RedactionShape {
  import opened Ordering
  import opened Redaction
  import opened RedactionProperties

  // ---- Sensitive keys ---------------------------------------------------------------

  ghost predicate Marker(m: string) {
    || m == "token" || m == "password" || m == "passwd" || m == "secret" || m == "authorization" || m == "cookie"
    || m == "api_key" || m == "access_key" || m == "private_key" || m == "refresh_token"
  }

  /** `c` is the letter `d`, in either case. */
  predicate SameLetter(c: char, d: char) {
    c == d || ('A' <= c <= 'Z' && d as int == c as int + 32)
  }

  ghost predicate HoldsAt(key: string, m: string, k: nat) {
    k + |m| <= |key| && forall i :: 0 <= i < |m| ==> SameLetter(key[k + i], m[i])
  }

  ghost predicate LowerCase(m: string) {
    forall i :: 0 <= i < |m| ==> !('A' <= m[i] <= 'Z')
  }

  predicate StandsAt(s: string, part: string, k: nat) {
    k + |part| <= |s| && s[k..k + |part|] == part
  }

  lemma {:induction false} FindPart(s: string, part: string) returns (k: nat)
    requires Contains(s, part)
    ensures StandsAt(s, part, k)
  {
    if part <= s {
      k := 0;
    } else {
      var j := FindPart(s[1..], part);
      k := j + 1;
      assert s[k..k + |part|] == s[1..][j..j + |part|];
    }
  }

  lemma {:induction false} PartIsContained(s: string, part: string, k: nat)
    requires StandsAt(s, part, k)
    ensures Contains(s, part)
  {
    if k == 0 {
      assert s[..|part|] == part;
    } else {
      assert s[1..][k - 1..k - 1 + |part|] == s[k..k + |part|];
      PartIsContained(s[1..], part, k - 1);
    }
  }

  lemma LoweredHolds(key: string, m: string, k: nat)
    requires LowerCase(m)
    ensures StandsAt(Lowered(key), m, k) <==> HoldsAt(key, m, k)
  {
    if k + |m| <= |key| {
      var part := Lowered(key)[k..k + |m|];
      forall i | 0 <= i < |m| ensures part[i] == m[i] <==> SameLetter(key[k + i], m[i]) {
        assert part[i] == Lower(key[k + i]);
      }
    }
  }

  lemma MarkersAre(m: string)
    ensures Marker(m) <==> exists i :: 0 <= i < |MARKERS| && MARKERS[i] == m
    ensures Marker(m) ==> LowerCase(m)
  {
    assert MARKERS[0] == "token" && MARKERS[1] == "password" && MARKERS[2] == "passwd" && MARKERS[3] == "secret";
    assert MARKERS[4] == "authorization" && MARKERS[5] == "cookie" && MARKERS[6] == "api_key";
    assert MARKERS[7] == "access_key" && MARKERS[8] == "private_key" && MARKERS[9] == "refresh_token";
  }

  lemma SensitiveHolds(key: string) returns (m: string, k: nat)
    requires IsSensitive(key)
    ensures Marker(m) && HoldsAt(key, m, k)
  {
    var i :| 0 <= i < |MARKERS| && Contains(Lowered(key), MARKERS[i]);
    m := MARKERS[i];
    MarkersAre(m);
    k := FindPart(Lowered(key), m);
    LoweredHolds(key, m, k);
  }

  lemma HoldsIsSensitive(key: string, m: string, k: nat)
    requires Marker(m) && HoldsAt(key, m, k)
    ensures IsSensitive(key)
  {
    MarkersAre(m);
    LoweredHolds(key, m, k);
    PartIsContained(Lowered(key), m, k);
  }

  /** A key is sensitive exactly if it holds one of the ten words, in any mix of cases. */
  lemma SensitiveIff(key: string)
    ensures IsSensitive(key) <==> exists m, k: nat :: Marker(m) && HoldsAt(key, m, k)
  {
    if IsSensitive(key) { var m, k := SensitiveHolds(key); }
    if m, k: nat :| Marker(m) && HoldsAt(key, m, k) { HoldsIsSensitive(key, m, k); }
  }

  // ---- Text -----------------------------------------------------------------------------

  /** What a text becomes: itself if it is short enough, else its front and three dots. */
  ghost predicate Cut(s: string, t: string, max: int) {
    if |s| <= max then t == s
    else exists front :: t == front + "..." && front <= s && |front| == CutLength(|s|, max)
  }

  /** With room for the dots, all but three of the characters allowed; else what Python's
      negative index leaves. */
  function CutLength(n: nat, max: int): int {
    if max >= 3 then max - 3 else if n + max - 3 >= 0 then n + max - 3 else 0
  }

  lemma TruncateCuts(s: string, max: int)
    ensures Cut(s, Truncate(s, max), max)
  {
    if |s| > max { assert Truncate(s, max) == Front(s, max - 3) + "..." && Front(s, max - 3) <= s; }
  }

  // ---- Every place ------------------------------------------------------------------------

  /** Child number `i` of a mapping or list. */
  function Child(v: Value, i: nat): Option<Value> {
    match v
    case Mapping(es) => if i < |es| then Some(es[i].value) else None
    case Items(_, vs) => if i < |vs| then Some(vs[i]) else None
    case _ => None
  }

  /** What stands at the end of a path of child numbers. */
  function At(v: Value, path: seq<nat>): Option<Value>
    decreases |path|
  {
    if path == [] then Some(v)
    else match Child(v, path[0])
         case None => None
         case Some(c) => At(c, path[1..])
  }

  /** The path leads through the shown part, past no sensitive key and not the marker's own. */
  ghost predicate Open(v: Value, path: seq<nat>, limits: Limits)
    decreases |path|
  {
    path != [] ==>
      && Child(v, path[0]).Some? && path[0] < limits.maxItems
      && (v.Mapping? ==> var k := v.entries[path[0]].key;
                         k != "__truncated__" && forall m, i: nat :: Marker(m) ==> !HoldsAt(k, m, i))
      && Open(Child(v, path[0]).value, path[1..], limits)
  }

  /** One place of the result against the same place of the original. */
  ghost predicate ShownAs(v: Value, r: Value, limits: Limits) {
    var cap := if limits.maxItems >= 0 then limits.maxItems else 0;
    match v
    case Null => r == Null
    case Boolean(b) => r == Boolean(b)
    case Number(n) => r == Number(n)
    case Text(s) => r.Text? && Cut(s, r.text, limits.maxString)
    case PathValue(s) => r.Text? && Cut(s, r.text, limits.maxString)
    case Other(s) => r.Text? && Cut(s, r.text, limits.maxString)
    case Mapping(es) =>
      && r.Mapping? && (forall i :: 0 <= i < |es| && i < cap ==> i < |r.entries| && r.entries[i].key == es[i].key)
      && (|es| <= cap ==> |r.entries| == |es|)
      && (|es| > cap ==> cap <= |r.entries| <= cap + 1 && Entry("__truncated__", Boolean(true)) in r.entries)
    case Items(_, vs) =>
      && r.Items? && r.kind == AList && |r.items| == (if |vs| <= cap then |vs| else cap + 1)
      && (|vs| > cap ==> r.items[cap] == Text("<truncated>"))
  }

  lemma ShownHere(key: Option<string>, v: Value, limits: Limits)
    requires !SensitiveKey(key)
    ensures ShownAs(v, Redacted(key, v, limits), limits)
  {
    match v
    case Text(s) => TruncateCuts(s, limits.maxString);
    case PathValue(s) => TruncateCuts(s, limits.maxString);
    case Other(s) => TruncateCuts(s, limits.maxString);
    case Mapping(es) => MappingShown(v, limits);
    case Items(_, vs) =>
    case _ =>
  }

  lemma MappingShown(v: Value, limits: Limits)
    requires v.Mapping?
    ensures ShownAs(v, Redacted(None, v, limits), limits)
  {
    var n := Room(|v.entries|, limits);
    var shown := RedactedEntries(v, n, limits);
    forall i | 0 <= i < n ensures shown[i].key == v.entries[i].key { RedactedEntryAt(v, n, limits, i); }
    if n < |v.entries| {
      var marked := Assign(shown, TRUNCATED_KEY, Boolean(true));
      if HasKey(shown, TRUNCATED_KEY) {
        var i :| 0 <= i < |shown| && shown[i].key == TRUNCATED_KEY;
        assert marked[i] == Entry("__truncated__", Boolean(true));
      } else {
        assert marked[|shown|] == Entry("__truncated__", Boolean(true));
      }
    }
  }

  /** A shown child of the result is the redacted child. */
  lemma ChildShown(v: Value, i: nat, limits: Limits)
    requires Child(v, i).Some? && i < limits.maxItems && (v.Mapping? ==> v.entries[i].key != TRUNCATED_KEY)
    ensures var key := if v.Mapping? then Some(v.entries[i].key) else None;
            Child(Redacted(None, v, limits), i) == Some(Redacted(key, Child(v, i).value, limits))
  {
    match v
    case Mapping(es) => RedactedEntryAt(v, Room(|es|, limits), limits, i);
    case Items(_, vs) => RedactedItemAt(v, Room(|vs|, limits), limits, i);
  }

  /** Everything that is neither hidden nor cut off is there, at its own place, as it was or,
      for a long text, as its front. */
  lemma {:induction false} ShownInPlace(key: Option<string>, v: Value, path: seq<nat>, limits: Limits)
    requires !SensitiveKey(key) && Open(v, path, limits)
    ensures At(v, path).Some? && At(Redacted(key, v, limits), path).Some?
    ensures ShownAs(At(v, path).value, At(Redacted(key, v, limits), path).value, limits)
    decreases |path|
  {
    if path == [] {
      ShownHere(key, v, limits);
    } else {
      ChildShown(v, path[0], limits);
      var inner := if v.Mapping? then Some(v.entries[path[0]].key) else None;
      if v.Mapping? { SensitiveIff(v.entries[path[0]].key); }
      ShownInPlace(inner, Child(v, path[0]).value, path[1..], limits);
    }
  }

  /** And behind an open path every sensitive key within the limit hides its value. */
  lemma {:induction false} HiddenInPlace(key: Option<string>, v: Value, path: seq<nat>, i: nat, limits: Limits)
    requires !SensitiveKey(key) && Open(v, path, limits) && At(v, path).Some? && At(v, path).value.Mapping?
    requires i < |At(v, path).value.entries| && i < limits.maxItems
    requires exists m, k: nat :: Marker(m) && HoldsAt(At(v, path).value.entries[i].key, m, k)
    ensures At(Redacted(key, v, limits), path + [i]) == Some(Text("<redacted>"))
    decreases |path|
  {
    if path == [] {
      SensitiveIff(v.entries[i].key);
      TruncatedKeyIsShown(v.entries[i].key);
      ChildShown(v, i, limits);
      assert ([] + [i])[1..] == [];
    } else {
      ChildShown(v, path[0], limits);
      var inner := if v.Mapping? then Some(v.entries[path[0]].key) else None;
      if v.Mapping? { SensitiveIff(v.entries[path[0]].key); }
      HiddenInPlace(inner, Child(v, path[0]).value, path[1..], i, limits);
      assert (path + [i])[1..] == path[1..] + [i];
    }
  }

  lemma TruncatedKeyIsShown(key: string)
    requires IsSensitive(key)
    ensures key != TRUNCATED_KEY
  {
    if key == TRUNCATED_KEY { TruncatedKeyIsHarmless(); }
  }

  /** The top level is never cut: every argument is there, hidden or shown. */
  lemma TopLevelInPlace(arguments: seq<Entry>, limits: Limits, i: nat, path: seq<nat>)
    requires i < |arguments|
    ensures |RedactedArguments(arguments, limits)| == |arguments| && RedactedArguments(arguments, limits)[i].key == arguments[i].key
    ensures (exists m, k: nat :: Marker(m) && HoldsAt(arguments[i].key, m, k)) ==>
              RedactedArguments(arguments, limits)[i].value == Text("<redacted>")
    ensures (forall m, k: nat :: Marker(m) ==> !HoldsAt(arguments[i].key, m, k)) && Open(arguments[i].value, path, limits) ==>
              && At(arguments[i].value, path).Some? && At(RedactedArguments(arguments, limits)[i].value, path).Some?
              && ShownAs(At(arguments[i].value, path).value, At(RedactedArguments(arguments, limits)[i].value, path).value, limits)
  {
    SensitiveIff(arguments[i].key);
    RedactedEntryAt(Mapping(arguments), |arguments|, limits, i);
    if !IsSensitive(arguments[i].key) && Open(arguments[i].value, path, limits) {
      ShownInPlace(Some(arguments[i].key), arguments[i].value, path, limits);
    }
  }
}
