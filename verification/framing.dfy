/** Content-Length framing of the task probe server: `_write_message` against
    `_read_message`. Bodies are opaque bytes. */
module Framing {
  import opened Decimals
  import opened Ordering

  const NEWLINE: Byte := 10
  const RETURN: Byte := 13
  const COLON: Byte := 58

  /** "Content-Length" and its lower-case form. */
  const HEADER_NAME: seq<Byte> := [67, 111, 110, 116, 101, 110, 116, 45, 76, 101, 110, 103, 116, 104]
  const HEADER_KEY: seq<Byte> := [99, 111, 110, 116, 101, 110, 116, 45, 108, 101, 110, 103, 116, 104]

  // ---- Numbers ---------------------------------------------------------------------

  /** `_safe_int(value, -1)` */
  function SafeInt(s: seq<Byte>): int {
    var unsigned := if s != [] && (s[0] == 43 || s[0] == 45) then s[1..] else s;
    match ParseNat(unsigned)
    case None => -1
    case Some(n) => var value: int := n; if s[0] == 45 then -value else value
  }

  // ---- Text ------------------------------------------------------------------------

  predicate IsSpace(b: Byte) { 9 <= b <= 13 || 28 <= b <= 32 }

  function StripLeft(s: seq<Byte>): seq<Byte> {
    if s != [] && IsSpace(s[0]) then StripLeft(s[1..]) else s
  }

  function StripRight(s: seq<Byte>): seq<Byte> {
    if s != [] && IsSpace(s[|s| - 1]) then StripRight(s[..|s| - 1]) else s
  }

  function Strip(s: seq<Byte>): seq<Byte> { StripRight(StripLeft(s)) }

  function Lower(s: seq<Byte>): (r: seq<Byte>)
    ensures |r| == |s|
  {
    seq(|s|, i requires 0 <= i < |s| => if 65 <= s[i] <= 90 then s[i] + 32 else s[i])
  }

  function IndexOf(s: seq<Byte>, b: Byte): (k: nat)
    ensures k <= |s| && (k < |s| ==> s[k] == b)
  {
    if s == [] || s[0] == b then 0 else 1 + IndexOf(s[1..], b)
  }

  // ---- Writing ------------------------------------------------------------------------

  function Frame(body: seq<Byte>): seq<Byte> {
    HEADER_NAME + [COLON, 32] + Decimal(|body|) + [RETURN, NEWLINE, RETURN, NEWLINE] + body
  }

  function Frames(bodies: seq<seq<Byte>>): seq<Byte> {
    if bodies == [] then [] else Frame(bodies[0]) + Frames(bodies[1..])
  }

  // ---- Reading -------------------------------------------------------------------------

  /** Length of the first line, its newline included. */
  function LineLength(s: seq<Byte>): (n: nat)
    ensures n <= |s| && (s != [] ==> n > 0)
  {
    var k := IndexOf(s, NEWLINE);
    if k < |s| then k + 1 else |s|
  }

  /** The content length after a header line. */
  function HeaderLength(line: seq<Byte>, length: Option<int>): Option<int> {
    var text := Strip(line);
    var k := IndexOf(text, COLON);
    if k == |text| then length
    else if Strip(Lower(text[..k])) == HEADER_KEY then Some(SafeInt(Strip(text[k + 1..])))
    else length
  }

  predicate IsBlankLine(line: seq<Byte>) { line == [RETURN, NEWLINE] || line == [NEWLINE] }

  /** The header lines up to the blank one: the announced length and what follows. */
  function ReadHeaders(s: seq<Byte>, length: Option<int>): Option<(Option<int>, seq<Byte>)> {
    if s == [] then None
    else
      var n := LineLength(s);
      if IsBlankLine(s[..n]) then Some((length, s[n..]))
      else ReadHeaders(s[n..], HeaderLength(s[..n], length))
  }

  /** One message body and the bytes after it, or the end of the stream. */
  function ReadMessage(s: seq<Byte>): (r: Option<(seq<Byte>, seq<Byte>)>)
    ensures r.Some? ==> r.value.0 != [] && |r.value.1| < |s|
  {
    match ReadHeaders(s, None)
    case None => None
    case Some((None, _)) => None
    case Some((Some(length), rest)) =>
      HeadersShrink(s, None);
      if length < 0 then None
      else
        var n := if length <= |rest| then length else |rest|;
        if n == 0 then None else Some((rest[..n], rest[n..]))
  }

  /** Where the reader stands when there was no message: at the end of the stream, or behind
      headers that announce nothing. */
  function Unread(s: seq<Byte>): seq<Byte> {
    match ReadHeaders(s, None)
    case None => []
    case Some((_, rest)) => rest
  }

  lemma {:induction false} HeadersShrink(s: seq<Byte>, length: Option<int>)
    ensures var r := ReadHeaders(s, length); r.Some? ==> |r.value.1| < |s|
  {
    if s != [] && !IsBlankLine(s[..LineLength(s)]) {
      HeadersShrink(s[LineLength(s)..], HeaderLength(s[..LineLength(s)], length));
    }
  }

  /** The bodies the message loop sees before it stops. */
  function ReadAll(s: seq<Byte>): seq<seq<Byte>>
    decreases |s|
  {
    match ReadMessage(s)
    case None => []
    case Some((body, rest)) => [body] + ReadAll(rest)
  }

  /** `sys.stdin.buffer` */
  class InputBuffer {
    const data: seq<Byte>
    var position: nat

    ghost predicate Valid() reads this { position <= |data| }

    function Remaining(): seq<Byte>
      requires Valid()
      reads this
    {
      data[position..]
    }

    constructor (data: seq<Byte>)
      ensures Valid() && Remaining() == data
    {
      this.data := data;
      position := 0;
    }

    method ReadLine() returns (line: seq<Byte>)
      requires Valid()
      modifies this
      ensures Valid()
      ensures line == old(Remaining())[..LineLength(old(Remaining()))]
      ensures Remaining() == old(Remaining())[LineLength(old(Remaining()))..]
    {
      var n := LineLength(data[position..]);
      line := data[position..position + n];
      position := position + n;
    }

    method Read(n: nat) returns (bytes: seq<Byte>)
      requires Valid()
      modifies this
      ensures Valid()
      ensures var k := if n <= |old(Remaining())| then n else |old(Remaining())|;
              bytes == old(Remaining())[..k] && Remaining() == old(Remaining())[k..]
    {
      var k := if n <= |data| - position then n else |data| - position;
      bytes := data[position..position + k];
      position := position + k;
    }

    /** `_read_message`, up to the JSON text of the body. */
    method ReadMessageBody() returns (body: Option<seq<Byte>>)
      requires Valid()
      modifies this
      ensures Valid()
      ensures match ReadMessage(old(Remaining()))
              case None => body.None? && Remaining() == Unread(old(Remaining()))
              case Some((b, rest)) => body == Some(b) && Remaining() == rest
    {
      var contentLength: Option<int> := None;
      ghost var start := Remaining();
      while true
        invariant Valid()
        invariant ReadHeaders(start, None) == ReadHeaders(Remaining(), contentLength)
        decreases |data| - position
      {
        var line := ReadLine();
        if line == [] { return None; }
        if IsBlankLine(line) { break; }
        contentLength := HeaderLength(line, contentLength);
      }
      assert ReadHeaders(start, None) == Some((contentLength, Remaining()));
      if contentLength.None? || contentLength.value < 0 { return None; }
      var bytes := Read(contentLength.value);
      if bytes == [] { return None; }
      return Some(bytes);
    }
  }

  // ---- Round trip -------------------------------------------------------------------------

  lemma {:induction false} IndexOfFirst(a: seq<Byte>, b: Byte, rest: seq<Byte>)
    requires b !in a
    ensures IndexOf(a + [b] + rest, b) == |a|
  {
    var s := a + [b] + rest;
    if a != [] {
      assert s[1..] == a[1..] + [b] + rest;
      IndexOfFirst(a[1..], b, rest);
    }
  }

  lemma StripEnds(text: seq<Byte>)
    requires text != [] && !IsSpace(text[0]) && !IsSpace(text[|text| - 1])
    ensures Strip(text + [RETURN, NEWLINE]) == text && Strip(text) == text && Strip([32] + text) == text
  {
    var line := text + [RETURN, NEWLINE];
    assert line[..|line| - 1] == text + [RETURN];
    assert (text + [RETURN])[..|text|] == text;
    assert StripRight(text + [RETURN]) == text;
    assert ([32] + text)[1..] == text;
  }

  lemma HeaderLineParses(n: nat, length: Option<int>)
    ensures HeaderLength(HEADER_NAME + [COLON, 32] + Decimal(n) + [RETURN, NEWLINE], length) == Some(n)
  {
    DecimalParses(n);
    var digits := Decimal(n);
    var text := HEADER_NAME + [COLON, 32] + digits;
    assert !IsSpace(text[|text| - 1]) by { assert text[|text| - 1] == digits[|digits| - 1]; }
    StripEnds(text);
    assert Strip([32] + digits) == digits by { StripEnds(digits); }
    assert SafeInt(digits) == n by { assert IsDigit(digits[0]); }
    HeaderLengthOf(text + [RETURN, NEWLINE], digits, length);
  }

  lemma HeaderLengthOf(line: seq<Byte>, digits: seq<Byte>, length: Option<int>)
    requires Strip(line) == HEADER_NAME + [COLON, 32] + digits && Strip([32] + digits) == digits
    ensures HeaderLength(line, length) == Some(SafeInt(digits))
  {
    HeaderTextParses(digits);
  }

  lemma HeaderTextParses(digits: seq<Byte>)
    ensures var text := HEADER_NAME + [COLON, 32] + digits;
            var k := IndexOf(text, COLON);
            k < |text| && Strip(Lower(text[..k])) == HEADER_KEY && text[k + 1..] == [32] + digits
  {
    var text := HEADER_NAME + [COLON, 32] + digits;
    assert text == HEADER_NAME + [COLON] + ([32] + digits);
    IndexOfFirst(HEADER_NAME, COLON, [32] + digits);
    assert text[..|HEADER_NAME|] == HEADER_NAME;
    assert Lower(HEADER_NAME) == HEADER_KEY;
    assert Strip(HEADER_KEY) == HEADER_KEY;
  }

  /** One header line is consumed, newline included. */
  lemma HeaderLineIsConsumed(line: seq<Byte>, after: seq<Byte>, length: Option<int>)
    requires NEWLINE !in line && line != [] && line != [RETURN]
    ensures ReadHeaders(line + [NEWLINE] + after, length) == ReadHeaders(after, HeaderLength(line + [NEWLINE], length))
  {
    var s := line + [NEWLINE] + after;
    IndexOfFirst(line, NEWLINE, after);
    assert s[..|line| + 1] == line + [NEWLINE];
    assert s[|line| + 1..] == after;
    assert |line| == 1 ==> line == [line[0]];
  }

  lemma BlankLineEndsHeaders(after: seq<Byte>, length: Option<int>)
    ensures ReadHeaders([RETURN, NEWLINE] + after, length) == Some((length, after))
  {
    var s := [RETURN, NEWLINE] + after;
    assert s == [RETURN] + [NEWLINE] + after;
    IndexOfFirst([RETURN], NEWLINE, after);
    assert s[..2] == [RETURN, NEWLINE] && s[2..] == after;
  }

  /** The reader consumes the header of a written frame exactly. */
  lemma HeadersOfFrame(body: seq<Byte>, rest: seq<Byte>)
    ensures ReadHeaders(Frame(body) + rest, None) == Some((Some(|body|), body + rest))
  {
    DecimalParses(|body|);
    var line := HEADER_NAME + [COLON, 32] + Decimal(|body|) + [RETURN];
    var after := [RETURN, NEWLINE] + (body + rest);
    assert Frame(body) + rest == line + [NEWLINE] + after;
    HeaderLineIsConsumed(line, after, None);
    assert line + [NEWLINE] == HEADER_NAME + [COLON, 32] + Decimal(|body|) + [RETURN, NEWLINE];
    HeaderLineParses(|body|, None);
    BlankLineEndsHeaders(body + rest, Some(|body|));
  }

  /** A written non-empty body is read back whole, and reading stops exactly at its
      end, whatever the body contains and whatever follows. */
  lemma FrameRoundTrip(body: seq<Byte>, rest: seq<Byte>)
    ensures ReadMessage(Frame(body) + rest) == if body == [] then None else Some((body, rest))
  {
    HeadersOfFrame(body, rest);
    assert (body + rest)[..|body|] == body && (body + rest)[|body|..] == rest;
  }

  function UpToEmpty(bodies: seq<seq<Byte>>): seq<seq<Byte>> {
    if bodies == [] || bodies[0] == [] then [] else [bodies[0]] + UpToEmpty(bodies[1..])
  }

  lemma {:induction false} UpToEmptyAll(bodies: seq<seq<Byte>>)
    ensures UpToEmpty(bodies) == bodies <==> [] !in bodies
  {
    if bodies != [] {
      UpToEmptyAll(bodies[1..]);
      assert bodies == [bodies[0]] + bodies[1..];
    }
  }

  /** Reading what was written returns the bodies in order up to the first empty one:
      all of them exactly when none is empty. */
  lemma {:induction false} StreamRoundTrip(bodies: seq<seq<Byte>>)
    ensures ReadAll(Frames(bodies)) == UpToEmpty(bodies)
    ensures ReadAll(Frames(bodies)) == bodies <==> [] !in bodies
  {
    UpToEmptyAll(bodies);
    if bodies == [] {
      assert ReadHeaders([], None) == None;
    } else {
      StreamRoundTrip(bodies[1..]);
      FrameRoundTrip(bodies[0], Frames(bodies[1..]));
    }
  }
}
