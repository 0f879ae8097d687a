/** What redaction guarantees for arguments of any depth, and for which limits. */
module RedactionProperties {
  import opened Ordering
  import opened Redaction

  function Cap(limits: Limits): (n: nat) {
    if limits.maxItems >= 0 then limits.maxItems else 0
  }

  // ---- Strings -------------------------------------------------------------

  /** The limits for which truncating is final. */
  predicate Settles(max: int) { max == 0 || max >= 3 }

  lemma TruncateSettles(s: string, max: int)
    requires Settles(max)
    ensures Truncate(Truncate(s, max), max) == Truncate(s, max)
  {
    var t := Truncate(s, max);
    if |s| > max {
      if max == 0 {
        var front := Front(s, -3);
        assert t == front + ELLIPSIS;
        assert Front(t, -3) == front;
      } else {
        assert |t| == max;
      }
    }
  }

  lemma TruncateDoesNotSettle(max: int) returns (s: string)
    requires !Settles(max)
    ensures |Truncate(Truncate(s, max), max)| != |Truncate(s, max)|
  {
    if max < 0 {
      s := seq(4 - max, _ => 'x');
      assert |Truncate(s, max)| == 4;
    } else if max == 1 {
      s := "xx";
      assert |Truncate(s, max)| == 3;
    } else {
      s := "xxx";
      assert |Truncate(s, max)| == 5;
    }
  }

  /** A truncated string respects the limit, for every string, exactly from 3 on. */
  lemma TruncateRespectsLimitIff(max: int)
    ensures (forall s: string :: |Truncate(s, max)| <= max) <==> max >= 3
  {
    if max < 3 {
      var s := "xxx";
      assert |Truncate(s, max)| > max;
    }
  }

  // ---- Marker keys ---------------------------------------------------------

  lemma {:induction false} ContainsChar(s: string, part: string, c: char)
    requires Contains(s, part) && c in part
    ensures c in s
  {
    if part <= s {
    } else {
      ContainsChar(s[1..], part, c);
    }
  }

  /** The marker entry of a truncated mapping is never taken for a secret. */
  lemma TruncatedKeyIsHarmless()
    ensures !IsSensitive(TRUNCATED_KEY)
  {
    var s := Lowered(TRUNCATED_KEY);
    assert 'o' !in s && 'p' !in s && 's' !in s;
    forall i | 0 <= i < |MARKERS| ensures !Contains(s, MARKERS[i]) {
      var c := MarkerChar(i);
      if Contains(s, MARKERS[i]) { ContainsChar(s, MARKERS[i], c); }
    }
  }

  lemma MarkerChar(i: nat) returns (c: char)
    requires i < |MARKERS|
    ensures c in MARKERS[i] && (c == 'o' || c == 'p' || c == 's')
  {
    var position := [1, 0, 0, 0, 4, 1, 1, 4, 0, 5][i];
    c := MARKERS[i][position];
  }

  // ---- Secrets ---------------------------------------------------------------

  /** No value under a sensitive key is left, at any depth. */
  predicate Clean(v: Value) {
    match v
    case Mapping(es) =>
      forall i :: 0 <= i < |es| ==> (IsSensitive(es[i].key) ==> es[i].value == REDACTED) && Clean(es[i].value)
    case Items(_, vs) => forall i :: 0 <= i < |vs| ==> Clean(vs[i])
    case _ => true
  }

  lemma {:induction false} NoSecretSurvives(key: Option<string>, v: Value, limits: Limits)
    ensures Clean(Redacted(key, v, limits))
    ensures SensitiveKey(key) ==> Redacted(key, v, limits) == REDACTED
    decreases v
  {
    if !SensitiveKey(key) && v.Mapping? {
      var n := Room(|v.entries|, limits);
      TruncatedKeyIsHarmless();
      forall i | 0 <= i < n
        ensures var e := RedactedEntries(v, n, limits)[i];
                (IsSensitive(e.key) ==> e.value == REDACTED) && Clean(e.value)
      {
        RedactedEntryAt(v, n, limits, i);
        NoSecretSurvives(Some(v.entries[i].key), v.entries[i].value, limits);
      }
    } else if !SensitiveKey(key) && v.Items? {
      var n := Room(|v.items|, limits);
      forall i | 0 <= i < n ensures Clean(RedactedItems(v, n, limits)[i]) {
        RedactedItemAt(v, n, limits, i);
        NoSecretSurvives(None, v.items[i], limits);
      }
    }
  }

  // ---- Sizes -----------------------------------------------------------------

  /** Strings within the limit, except the two markers; collections at most one item over. */
  predicate Bounded(v: Value, limits: Limits) {
    match v
    case Text(s) => |s| <= limits.maxString || v == REDACTED || v == TRUNCATED_ITEM
    case PathValue(_) => false
    case Other(_) => false
    case Mapping(es) => |es| <= Cap(limits) + 1 && forall i :: 0 <= i < |es| ==> Bounded(es[i].value, limits)
    case Items(_, vs) => |vs| <= Cap(limits) + 1 && forall i :: 0 <= i < |vs| ==> Bounded(vs[i], limits)
    case _ => true
  }

  lemma {:induction false} ResultIsBounded(key: Option<string>, v: Value, limits: Limits)
    requires limits.maxString >= 3
    ensures Bounded(Redacted(key, v, limits), limits)
    decreases v
  {
    if !SensitiveKey(key) && v.Mapping? {
      var n := Room(|v.entries|, limits);
      forall i | 0 <= i < n ensures Bounded(RedactedEntries(v, n, limits)[i].value, limits) {
        RedactedEntryAt(v, n, limits, i);
        ResultIsBounded(Some(v.entries[i].key), v.entries[i].value, limits);
      }
    } else if !SensitiveKey(key) && v.Items? {
      var n := Room(|v.items|, limits);
      forall i | 0 <= i < n ensures Bounded(RedactedItems(v, n, limits)[i], limits) {
        RedactedItemAt(v, n, limits, i);
        ResultIsBounded(None, v.items[i], limits);
      }
    }
  }

  /** Every string within the limit, the markers included. */
  predicate StrictlyBounded(v: Value, limits: Limits) {
    match v
    case Text(s) => |s| <= limits.maxString
    case PathValue(_) => false
    case Other(_) => false
    case Mapping(es) => |es| <= Cap(limits) + 1 && forall i :: 0 <= i < |es| ==> StrictlyBounded(es[i].value, limits)
    case Items(_, vs) => |vs| <= Cap(limits) + 1 && forall i :: 0 <= i < |vs| ==> StrictlyBounded(vs[i], limits)
    case _ => true
  }

  lemma {:induction false} BoundedIsStrict(v: Value, limits: Limits)
    requires limits.maxString >= 11 && Bounded(v, limits)
    ensures StrictlyBounded(v, limits)
    decreases v
  {
    match v {
      case Mapping(es) =>
        forall i | 0 <= i < |es| ensures StrictlyBounded(es[i].value, limits) { BoundedIsStrict(es[i].value, limits); }
      case Items(_, vs) =>
        forall i | 0 <= i < |vs| ensures StrictlyBounded(vs[i], limits) { BoundedIsStrict(vs[i], limits); }
      case _ =>
    }
  }

  /** One item too many, and the marker takes its place. */
  function Overfull(limits: Limits): (v: Value)
    ensures v.Items? && |v.items| == Cap(limits) + 1
  {
    Items(AList, seq(Cap(limits) + 1, _ => Null))
  }

  lemma MarkerIsTooLong(limits: Limits)
    requires limits.maxString < 11
    ensures !StrictlyBounded(Redacted(None, Overfull(limits), limits), limits)
  {
    var v := Overfull(limits);
    var r := Redacted(None, v, limits);
    assert r.items == RedactedItems(v, Cap(limits), limits) + [TRUNCATED_ITEM];
    assert r.items[Cap(limits)] == TRUNCATED_ITEM && |TRUNCATED_ITEM.text| == 11;
    assert !StrictlyBounded(r.items[Cap(limits)], limits);
  }

  /** Every string respects the limit, for all arguments, exactly if the longest marker does. */
  lemma StrictlyBoundedIff(limits: Limits)
    ensures (forall key, v :: StrictlyBounded(Redacted(key, v, limits), limits)) <==> limits.maxString >= 11
  {
    if limits.maxString >= 11 {
      forall key, v ensures StrictlyBounded(Redacted(key, v, limits), limits) {
        ResultIsBounded(key, v, limits);
        BoundedIsStrict(Redacted(key, v, limits), limits);
      }
    } else {
      MarkerIsTooLong(limits);
    }
  }

  // ---- Fixed points ------------------------------------------------------------

  /** Arguments that need no redaction. */
  predicate InForm(key: Option<string>, v: Value, limits: Limits)
    decreases v
  {
    if SensitiveKey(key) then v == REDACTED else
      match v
      case Text(s) => Truncate(s, limits.maxString) == s
      case PathValue(_) => false
      case Other(_) => false
      case Mapping(es) =>
        && (forall i :: 0 <= i < |es| && i < Cap(limits) ==> InForm(Some(es[i].key), es[i].value, limits))
        && (|es| <= Cap(limits) || EndsInMarker(es, limits))
      case Items(kind, vs) =>
        && kind == AList
        && (forall i :: 0 <= i < |vs| && i < Cap(limits) ==> InForm(None, vs[i], limits))
        && (|vs| <= Cap(limits) || (|vs| == Cap(limits) + 1 && vs[Cap(limits)] == TRUNCATED_ITEM))
      case _ => true
  }

  /** One entry too many, and it is the marker. */
  predicate EndsInMarker(es: seq<Entry>, limits: Limits) {
    && |es| == Cap(limits) + 1
    && es[Cap(limits)] == Entry(TRUNCATED_KEY, Boolean(true))
    && forall i :: 0 <= i < Cap(limits) ==> es[i].key != TRUNCATED_KEY
  }

  /** Redaction leaves arguments alone exactly if they need none. */
  lemma {:induction false} FixedIff(key: Option<string>, v: Value, limits: Limits)
    ensures Redacted(key, v, limits) == v <==> InForm(key, v, limits)
    decreases v
  {
    if !SensitiveKey(key) && v.Mapping? {
      MappingFixedIff(v, limits);
    } else if !SensitiveKey(key) && v.Items? {
      ItemsFixedIff(v, limits);
    }
  }

  lemma {:induction false} MappingFixedIff(v: Value, limits: Limits)
    requires v.Mapping?
    ensures Redacted(None, v, limits) == v <==> InForm(None, v, limits)
    decreases v, 0
  {
    var n := Room(|v.entries|, limits);
    var shown := RedactedEntries(v, n, limits);
    forall i | 0 <= i < n
      ensures shown[i].key == v.entries[i].key
      ensures shown[i] == v.entries[i] <==> InForm(Some(v.entries[i].key), v.entries[i].value, limits)
    {
      RedactedEntryAt(v, n, limits, i);
      FixedIff(Some(v.entries[i].key), v.entries[i].value, limits);
    }
    var r := Redacted(None, v, limits).entries;
    if n == |v.entries| {
      assert r == v.entries <==> forall i :: 0 <= i < n ==> shown[i] == v.entries[i];
    } else if HasKey(shown, TRUNCATED_KEY) {
      assert |r| == n;
      var e :| e in shown && e.key == TRUNCATED_KEY;
      var i :| 0 <= i < n && shown[i] == e;
      assert v.entries[i].key == TRUNCATED_KEY;
    } else {
      assert r == shown + [Entry(TRUNCATED_KEY, Boolean(true))];
      forall i | 0 <= i < n ensures v.entries[i].key != TRUNCATED_KEY {
        assert shown[i] in shown;
      }
      if |v.entries| == n + 1 {
        assert r == v.entries <==> shown == v.entries[..n] && v.entries[n] == r[n];
      }
    }
  }

  lemma {:induction false} ItemsFixedIff(v: Value, limits: Limits)
    requires v.Items?
    ensures Redacted(None, v, limits) == v <==> InForm(None, v, limits)
    decreases v, 0
  {
    var n := Room(|v.items|, limits);
    var shown := RedactedItems(v, n, limits);
    forall i | 0 <= i < n ensures shown[i] == v.items[i] <==> InForm(None, v.items[i], limits) {
      RedactedItemAt(v, n, limits, i);
      FixedIff(None, v.items[i], limits);
    }
    var r := Redacted(None, v, limits).items;
    if n == |v.items| {
      assert r == v.items <==> forall i :: 0 <= i < n ==> shown[i] == v.items[i];
    } else if |v.items| == n + 1 {
      assert r == v.items <==> shown == v.items[..n] && v.items[n] == r[n];
    }
  }

  // ---- Redacting twice -----------------------------------------------------------

  lemma {:induction false} ResultIsInForm(key: Option<string>, v: Value, limits: Limits)
    requires Settles(limits.maxString)
    ensures InForm(key, Redacted(key, v, limits), limits)
    decreases v
  {
    if SensitiveKey(key) {
    } else if v.Text? || v.PathValue? || v.Other? {
      TruncateSettles(v.text, limits.maxString);
    } else if v.Mapping? {
      MappingResultIsInForm(v, limits);
    } else if v.Items? {
      var n := Room(|v.items|, limits);
      forall i | 0 <= i < n ensures InForm(None, RedactedItems(v, n, limits)[i], limits) {
        RedactedItemAt(v, n, limits, i);
        ResultIsInForm(None, v.items[i], limits);
      }
    }
  }

  lemma {:induction false} MappingResultIsInForm(v: Value, limits: Limits)
    requires v.Mapping? && Settles(limits.maxString)
    ensures InForm(None, Redacted(None, v, limits), limits)
    decreases v, 0
  {
    var n := Room(|v.entries|, limits);
    var shown := RedactedEntries(v, n, limits);
    TruncatedKeyIsHarmless();
    assert InForm(Some(TRUNCATED_KEY), Boolean(true), limits);
    forall i | 0 <= i < n ensures InForm(Some(shown[i].key), shown[i].value, limits) {
      RedactedEntryAt(v, n, limits, i);
      ResultIsInForm(Some(v.entries[i].key), v.entries[i].value, limits);
    }
    if n < |v.entries| && !HasKey(shown, TRUNCATED_KEY) {
      forall i | 0 <= i < n ensures shown[i].key != TRUNCATED_KEY {
        assert shown[i] in shown;
      }
      assert EndsInMarker(shown + [Entry(TRUNCATED_KEY, Boolean(true))], limits);
    }
  }

  ghost predicate UnchangedByASecondPass(key: Option<string>, v: Value, limits: Limits) {
    Redacted(key, Redacted(key, v, limits), limits) == Redacted(key, v, limits)
  }

  /** A second pass changes nothing, for all arguments, exactly if the string limit is 0 or
      at least 3. */
  lemma IdempotentIff(limits: Limits)
    ensures (forall key, v :: UnchangedByASecondPass(key, v, limits)) <==> Settles(limits.maxString)
  {
    if Settles(limits.maxString) {
      forall key, v ensures UnchangedByASecondPass(key, v, limits) {
        ResultIsInForm(key, v, limits);
        FixedIff(key, Redacted(key, v, limits), limits);
      }
    } else {
      var s := TruncateDoesNotSettle(limits.maxString);
      var once := Redacted(None, Text(s), limits);
      assert once == Text(Truncate(s, limits.maxString));
      assert Redacted(None, once, limits) != once;
      assert !UnchangedByASecondPass(None, Text(s), limits);
    }
  }

  // ---- The argument map -----------------------------------------------------------

  /** Every argument keeps its place and its name: unlike what is inside it, the top level is
      never cut. */
  lemma TopLevelKeepsEveryKey(arguments: seq<Entry>, limits: Limits)
    ensures |RedactedArguments(arguments, limits)| == |arguments|
    ensures forall i :: 0 <= i < |arguments| ==>
              RedactedArguments(arguments, limits)[i].key == arguments[i].key
    ensures Clean(Mapping(RedactedArguments(arguments, limits)))
  {
    forall i | 0 <= i < |arguments|
      ensures var e := RedactedArguments(arguments, limits)[i];
              e.key == arguments[i].key && (IsSensitive(e.key) ==> e.value == REDACTED) && Clean(e.value)
    {
      RedactedEntryAt(Mapping(arguments), |arguments|, limits, i);
      NoSecretSurvives(Some(arguments[i].key), arguments[i].value, limits);
    }
  }

  lemma ArgumentsTwice(arguments: seq<Entry>, limits: Limits)
    requires Settles(limits.maxString)
    ensures RedactedArguments(RedactedArguments(arguments, limits), limits) == RedactedArguments(arguments, limits)
  {
    var once := RedactedArguments(arguments, limits);
    forall i | 0 <= i < |arguments| ensures RedactedArguments(once, limits)[i] == once[i] {
      RedactedEntryAt(Mapping(arguments), |arguments|, limits, i);
      RedactedEntryAt(Mapping(once), |arguments|, limits, i);
      IdempotentIff(limits);
      assert UnchangedByASecondPass(Some(arguments[i].key), arguments[i].value, limits);
    }
  }
}
