/** Redaction of tool-call arguments. Keys are strings, lower-cased as ASCII; numbers
    are opaque; a tuple, list or set becomes a list. */
module Redaction {
  import opened Ordering

  datatype Kind = AList | ATuple | ASet

  datatype Value =
    | Null
    | Boolean(b: bool)
    | Number(n: int)
    | Text(text: string)
    | PathValue(text: string)
    | Other(text: string)
    | Items(kind: Kind, items: seq<Value>)
    | Mapping(entries: seq<Entry>)
  datatype Entry = Entry(key: string, value: Value)

  datatype Limits = Limits(maxString: int, maxItems: int)

  const REDACTED := Text("<redacted>")
  const ELLIPSIS := "..."
  const TRUNCATED_KEY := "__truncated__"
  const TRUNCATED_ITEM := Text("<truncated>")

  const MARKERS: seq<string> := ["token", "password", "passwd", "secret", "authorization", "cookie", "api_key",
                                 "access_key", "private_key", "refresh_token"]

  // ---- Keys ----------------------------------------------------------------

  function Lower(c: char): char {
    if 'A' <= c <= 'Z' then (c - 'A') + 'a' else c
  }

  function Lowered(s: string): (r: string)
    ensures |r| == |s|
  {
    seq(|s|, i requires 0 <= i < |s| => Lower(s[i]))
  }

  predicate Contains(s: string, part: string) {
    part <= s || (s != [] && Contains(s[1..], part))
  }

  predicate IsSensitive(key: string) {
    exists i :: 0 <= i < |MARKERS| && Contains(Lowered(key), MARKERS[i])
  }

  predicate SensitiveKey(key: Option<string>) {
    key.Some? && IsSensitive(key.value)
  }

  // ---- Strings -------------------------------------------------------------

  /** Python's `s[:k]`; a negative bound counts from the end. */
  function Front(s: string, k: int): string {
    if k >= 0 then (if k <= |s| then s[..k] else s)
    else if |s| + k >= 0 then s[..|s| + k] else []
  }

  function Truncate(s: string, max: int): string {
    if |s| <= max then s else Front(s, max - 3) + ELLIPSIS
  }

  // ---- Trees ---------------------------------------------------------------

  predicate HasKey(entries: seq<Entry>, key: string) {
    exists e :: e in entries && e.key == key
  }

  /** `d[key] = value` */
  function Assign(entries: seq<Entry>, key: string, value: Value): seq<Entry> {
    if HasKey(entries, key)
    then seq(|entries|, i requires 0 <= i < |entries| => if entries[i].key == key then Entry(key, value) else entries[i])
    else entries + [Entry(key, value)]
  }

  /** How many of `n` items are looked at. */
  function Room(n: nat, limits: Limits): (r: nat)
    ensures r <= n
  {
    if n <= limits.maxItems then n else if limits.maxItems >= 0 then limits.maxItems else 0
  }

  function Redacted(key: Option<string>, v: Value, limits: Limits): Value
    decreases v, 1
  {
    if SensitiveKey(key) then REDACTED else
      match v
      case Null => v
      case Boolean(_) => v
      case Number(_) => v
      case Text(s) => Text(Truncate(s, limits.maxString))
      case PathValue(s) => Text(Truncate(s, limits.maxString))
      case Other(s) => Text(Truncate(s, limits.maxString))
      case Mapping(es) =>
        var shown := RedactedEntries(v, Room(|es|, limits), limits);
        Mapping(if Room(|es|, limits) < |es| then Assign(shown, TRUNCATED_KEY, Boolean(true)) else shown)
      case Items(_, vs) =>
        var shown := RedactedItems(v, Room(|vs|, limits), limits);
        Items(AList, if Room(|vs|, limits) < |vs| then shown + [TRUNCATED_ITEM] else shown)
  }

  /** The first `n` entries of a mapping. */
  function RedactedEntries(v: Value, n: nat, limits: Limits): (r: seq<Entry>)
    requires v.Mapping? && n <= |v.entries|
    ensures |r| == n
    decreases v, 0, n
  {
    if n == 0 then [] else
      var e := v.entries[n - 1];
      RedactedEntries(v, n - 1, limits) + [Entry(e.key, Redacted(Some(e.key), e.value, limits))]
  }

  /** The first `n` items of a list. */
  function RedactedItems(v: Value, n: nat, limits: Limits): (r: seq<Value>)
    requires v.Items? && n <= |v.items|
    ensures |r| == n
    decreases v, 0, n
  {
    if n == 0 then [] else RedactedItems(v, n - 1, limits) + [Redacted(None, v.items[n - 1], limits)]
  }

  lemma {:induction false} RedactedEntryAt(v: Value, n: nat, limits: Limits, i: nat)
    requires v.Mapping? && i < n <= |v.entries|
    ensures RedactedEntries(v, n, limits)[i] ==
            Entry(v.entries[i].key, Redacted(Some(v.entries[i].key), v.entries[i].value, limits))
  {
    if i < n - 1 { RedactedEntryAt(v, n - 1, limits, i); }
  }

  lemma {:induction false} RedactedItemAt(v: Value, n: nat, limits: Limits, i: nat)
    requires v.Items? && i < n <= |v.items|
    ensures RedactedItems(v, n, limits)[i] == Redacted(None, v.items[i], limits)
  {
    if i < n - 1 { RedactedItemAt(v, n - 1, limits, i); }
  }

  /** No dict holds a key twice. */
  predicate WellFormed(v: Value) {
    match v
    case Mapping(es) =>
      && (forall i, j :: 0 <= i < j < |es| ==> es[i].key != es[j].key)
      && forall i :: 0 <= i < |es| ==> WellFormed(es[i].value)
    case Items(_, vs) => forall i :: 0 <= i < |vs| ==> WellFormed(vs[i])
    case _ => true
  }

  // ---- The recursive walk ---------------------------------------------------

  method Redact(key: Option<string>, v: Value, limits: Limits) returns (r: Value)
    requires WellFormed(v)
    ensures r == Redacted(key, v, limits)
    decreases v, 1
  {
    if SensitiveKey(key) { return REDACTED; }
    match v {
      case Null => r := v;
      case Boolean(_) => r := v;
      case Number(_) => r := v;
      case Text(s) => r := Text(Truncate(s, limits.maxString));
      case PathValue(s) => r := Text(Truncate(s, limits.maxString));
      case Other(s) => r := Text(Truncate(s, limits.maxString));
      case Mapping(es) => r := RedactMapping(v, limits);
      case Items(_, vs) => r := RedactItems(v, limits);
    }
  }

  method RedactMapping(v: Value, limits: Limits) returns (r: Value)
    requires WellFormed(v) && v.Mapping?
    ensures r == Redacted(None, v, limits)
    decreases v, 0
  {
    var items: seq<Entry> := [];
    var idx := 0;
    while idx < |v.entries|
      invariant 0 <= idx <= |v.entries| && (idx == 0 || idx <= limits.maxItems)
      invariant items == RedactedEntries(v, idx, limits)
    {
      if idx >= limits.maxItems {
        items := Assign(items, TRUNCATED_KEY, Boolean(true));
        return Mapping(items);
      }
      var e := v.entries[idx];
      var value := Redact(Some(e.key), e.value, limits);
      KeyIsNew(v, idx, limits);
      items := Assign(items, e.key, value);
      idx := idx + 1;
    }
    r := Mapping(items);
  }

  lemma KeyIsNew(v: Value, n: nat, limits: Limits)
    requires WellFormed(v) && v.Mapping? && n < |v.entries|
    ensures !HasKey(RedactedEntries(v, n, limits), v.entries[n].key)
  {
    forall i | 0 <= i < n ensures RedactedEntries(v, n, limits)[i].key != v.entries[n].key {
      RedactedEntryAt(v, n, limits, i);
    }
  }

  method RedactItems(v: Value, limits: Limits) returns (r: Value)
    requires WellFormed(v) && v.Items?
    ensures r == Redacted(None, v, limits)
    decreases v, 0
  {
    var output: seq<Value> := [];
    var idx := 0;
    while idx < |v.items|
      invariant 0 <= idx <= |v.items| && (idx == 0 || idx <= limits.maxItems)
      invariant output == RedactedItems(v, idx, limits)
    {
      if idx >= limits.maxItems {
        output := output + [TRUNCATED_ITEM];
        return Items(AList, output);
      }
      var value := Redact(None, v.items[idx], limits);
      output := output + [value];
      idx := idx + 1;
    }
    r := Items(AList, output);
  }

  /** The whole argument map; its top level is not capped. */
  function RedactedArguments(arguments: seq<Entry>, limits: Limits): seq<Entry> {
    RedactedEntries(Mapping(arguments), |arguments|, limits)
  }

  method RedactArguments(arguments: seq<Entry>, limits: Limits) returns (r: seq<Entry>)
    requires WellFormed(Mapping(arguments))
    ensures r == RedactedArguments(arguments, limits)
  {
    r := [];
    for i := 0 to |arguments|
      invariant r == RedactedEntries(Mapping(arguments), i, limits)
    {
      var value := Redact(Some(arguments[i].key), arguments[i].value, limits);
      KeyIsNew(Mapping(arguments), i, limits);
      r := Assign(r, arguments[i].key, value);
    }
  }
}
