/** Which header lines the frame reader takes, whoever wrote them. */
module FramingHeaders {
  import opened Decimals
  import opened Ordering
  import opened Framing

  /** "content-length" */
  const LENGTH_NAME: seq<Byte> := [99, 111, 110, 116, 101, 110, 116, 45, 108, 101, 110, 103, 116, 104]

  /** The name in any mix of upper and lower case. */
  predicate NamesLength(name: seq<Byte>) {
    |name| == 14 && forall i :: 0 <= i < 14 ==> name[i] == LENGTH_NAME[i] || (65 <= name[i] <= 90 && name[i] + 32 == LENGTH_NAME[i])
  }

  /** Tab, line feed, the two other vertical moves, carriage return, the four separators, space. */
  const SPACES: set<Byte> := {9, 10, 11, 12, 13, 28, 29, 30, 31, 32}

  predicate Spaces(s: seq<Byte>) { forall i :: 0 <= i < |s| ==> IsSpace(s[i]) }

  lemma SpacesAre(b: Byte)
    ensures IsSpace(b) <==> b in SPACES
  {
  }

  /** Starts and ends in something to see, and holds no colon. */
  predicate ProperName(name: seq<Byte>) {
    name != [] && !IsSpace(name[0]) && !IsSpace(name[|name| - 1]) && COLON !in name
  }

  lemma {:induction false} StripLeftPad(pad: seq<Byte>, s: seq<Byte>)
    requires Spaces(pad) && (s == [] || !IsSpace(s[0]))
    ensures StripLeft(pad + s) == s
  {
    if pad == [] {
      assert pad + s == s;
    } else {
      assert (pad + s)[1..] == pad[1..] + s;
      StripLeftPad(pad[1..], s);
    }
  }

  lemma {:induction false} StripRightPad(s: seq<Byte>, pad: seq<Byte>)
    requires Spaces(pad) && (s == [] || !IsSpace(s[|s| - 1]))
    ensures StripRight(s + pad) == s
  {
    if pad == [] {
      assert s + pad == s;
    } else {
      assert (s + pad)[..|s + pad| - 1] == s + pad[..|pad| - 1];
      StripRightPad(s, pad[..|pad| - 1]);
    }
  }

  lemma {:induction false} StripRightBehind(s: seq<Byte>, rest: seq<Byte>)
    requires s != [] && !IsSpace(s[|s| - 1])
    ensures StripRight(s + rest) == s + StripRight(rest)
  {
    if rest == [] {
      assert s + rest == s;
    } else {
      assert (s + rest)[..|s + rest| - 1] == s + rest[..|rest| - 1];
      if IsSpace(rest[|rest| - 1]) { StripRightBehind(s, rest[..|rest| - 1]); }
    }
  }

  lemma {:induction false} StripBothOrders(s: seq<Byte>)
    ensures StripRight(StripLeft(StripRight(s))) == StripRight(StripLeft(s))
  {
    if s != [] && IsSpace(s[|s| - 1]) {
      var front := s[..|s| - 1];
      StripBothOrders(front);
      StripLeftFront(s);
    } else {
    }
    StripRightTwice(StripLeft(s));
  }

  lemma {:induction false} StripRightTwice(s: seq<Byte>)
    ensures StripRight(StripRight(s)) == StripRight(s)
  {
    if s != [] && IsSpace(s[|s| - 1]) { StripRightTwice(s[..|s| - 1]); }
  }

  /** A space at the end does not matter to what is left at the front. */
  lemma {:induction false} StripLeftFront(s: seq<Byte>)
    requires s != [] && IsSpace(s[|s| - 1])
    ensures StripRight(StripLeft(s)) == StripRight(StripLeft(s[..|s| - 1]))
  {
    if IsSpace(s[0]) {
      if |s| == 1 {
        assert s[1..] == [] && s[..0] == [];
      } else {
        assert s[1..][..|s| - 2] == s[..|s| - 1][1..];
        StripLeftFront(s[1..]);
      }
    } else {
      assert StripLeft(s) == s && StripLeft(s[..|s| - 1]) == s[..|s| - 1];
    }
  }

  lemma LowerNames(name: seq<Byte>)
    ensures Lower(name) == HEADER_KEY <==> NamesLength(name)
  {
    if Lower(name) == HEADER_KEY {
      forall i | 0 <= i < 14 ensures name[i] == LENGTH_NAME[i] || (65 <= name[i] <= 90 && name[i] + 32 == LENGTH_NAME[i]) {
        assert Lower(name)[i] == HEADER_KEY[i];
      }
    }
    if NamesLength(name) {
      assert forall i :: 0 <= i < 14 ==> !(65 <= LENGTH_NAME[i] <= 90);
      assert forall i :: 0 <= i < 14 ==> Lower(name)[i] == HEADER_KEY[i];
    }
  }

  lemma LowerKeepsSpaces(s: seq<Byte>)
    ensures forall i :: 0 <= i < |s| ==> (IsSpace(Lower(s)[i]) <==> IsSpace(s[i]))
  {
  }

  lemma NamePart(name: seq<Byte>, pad: seq<Byte>)
    requires ProperName(name) && Spaces(pad)
    ensures Strip(Lower(name + pad)) == Lower(name)
  {
    assert Lower(name + pad) == Lower(name) + Lower(pad);
    LowerKeepsSpaces(name);
    LowerKeepsSpaces(pad);
    StripRightPad(Lower(name), Lower(pad));
    assert StripLeft(Lower(name) + Lower(pad)) == Lower(name) + Lower(pad);
  }

  /** What a header line with a colon does: spaces around name and value and the case of the
      name do not matter; a name other than Content-Length is passed over. */
  lemma HeaderLineSpec(before: seq<Byte>, name: seq<Byte>, after: seq<Byte>, value: seq<Byte>, length: Option<int>)
    requires Spaces(before) && ProperName(name) && Spaces(after) && COLON !in after
    ensures HeaderLength(before + name + after + [COLON] + value, length) ==
            if NamesLength(name) then Some(SafeInt(Strip(value))) else length
  {
    var head := name + after + [COLON];
    var text := head + StripRight(value);
    assert before + name + after + [COLON] + value == before + (head + value);
    StripLeftPad(before, head + value);
    StripRightBehind(head, value);
    var front := name + after;
    assert text == front + [COLON] + StripRight(value);
    assert COLON !in front;
    IndexOfFirst(front, COLON, StripRight(value));
    assert text[..|front|] == front && text[|front| + 1..] == StripRight(value);
    NamePart(name, after);
    LowerNames(name);
    StripBothOrders(value);
  }

  lemma {:induction false} NoColon(s: seq<Byte>)
    requires COLON !in s
    ensures IndexOf(s, COLON) == |s|
  {
    if s != [] { NoColon(s[1..]); }
  }

  lemma {:induction false} StripHoldsLess(s: seq<Byte>, b: Byte)
    requires b in Strip(s)
    ensures b in s
  {
    StripRightFront(StripLeft(s));
    StripLeftBack(s);
  }

  lemma {:induction false} StripRightFront(s: seq<Byte>)
    ensures StripRight(s) <= s
  {
    if s != [] && IsSpace(s[|s| - 1]) { StripRightFront(s[..|s| - 1]); }
  }

  lemma {:induction false} StripLeftBack(s: seq<Byte>)
    ensures forall b :: b in StripLeft(s) ==> b in s
  {
    if s != [] && IsSpace(s[0]) { StripLeftBack(s[1..]); }
  }

  /** A line without a colon is passed over. */
  lemma OtherLinesAreIgnored(line: seq<Byte>, length: Option<int>)
    requires COLON !in line
    ensures HeaderLength(line, length) == length
  {
    if COLON in Strip(line) { StripHoldsLess(line, COLON); } else { NoColon(Strip(line)); }
  }

  // ---- Lengths ------------------------------------------------------------------------

  lemma {:induction false} NumeralBytes(s: seq<Byte>)
    requires ParseNat(s).Some?
    ensures forall i :: 0 <= i < |s| ==> IsDigit(s[i]) || s[i] == UNDERSCORE
    decreases |s|
  {
    var front := s[..|s| - 1];
    if front != [] {
      var higher := if front[|front| - 1] == UNDERSCORE then front[..|front| - 1] else front;
      NumeralBytes(higher);
    }
  }

  /** A written number is read with or without a sign; anything with another character in it is
      no number and counts as -1. */
  lemma LengthsAreRead(n: nat, s: seq<Byte>)
    ensures SafeInt(Decimal(n)) == n && SafeInt([43] + Decimal(n)) == n && SafeInt([45] + Decimal(n)) + n == 0
    ensures (exists i :: 0 < i < |s| && !IsDigit(s[i]) && s[i] != UNDERSCORE) ==> SafeInt(s) == -1
    ensures SafeInt([]) == -1
  {
    DecimalParses(n);
    assert IsDigit(Decimal(n)[0]);
    assert ([43] + Decimal(n))[1..] == Decimal(n) && ([45] + Decimal(n))[1..] == Decimal(n);
    if i :| 0 < i < |s| && !IsDigit(s[i]) && s[i] != UNDERSCORE {
      var unsigned := if s[0] == 43 || s[0] == 45 then s[1..] else s;
      var k := if s[0] == 43 || s[0] == 45 then i - 1 else i;
      assert unsigned[k] == s[i];
      if ParseNat(unsigned).Some? { NumeralBytes(unsigned); }
    }
  }

  // ---- Messages ------------------------------------------------------------------------------

  lemma WrittenNameIsProper()
    ensures NamesLength(HEADER_NAME) && ProperName(HEADER_NAME)
  {
  }

  /** A line without spaces in front of the name, nor between name and colon. */
  lemma TightHeaderLine(name: seq<Byte>, value: seq<Byte>, length: Option<int>)
    requires ProperName(name)
    ensures HeaderLength(name + [COLON] + value, length) ==
            if NamesLength(name) then Some(SafeInt(Strip(value))) else length
  {
    assert [] + name + [] + [COLON] + value == name + [COLON] + value;
    HeaderLineSpec([], name, [], value, length);
  }

  lemma StripAround(digits: seq<Byte>)
    requires digits != [] && !IsSpace(digits[0]) && !IsSpace(digits[|digits| - 1])
    ensures Strip([32] + (digits + [NEWLINE])) == digits
  {
    StripLeftPad([32], digits + [NEWLINE]);
    StripRightPad(digits, [NEWLINE]);
  }

  /** The announcement of a length on a line that ends in a lone newline. */
  lemma PlainHeaderParses(n: nat)
    ensures HeaderLength(HEADER_NAME + [COLON, 32] + Decimal(n) + [NEWLINE], None) == Some(n)
  {
    var digits := Decimal(n);
    assert digits != [] && forall i :: 0 <= i < |digits| ==> IsDigit(digits[i]) by { DecimalParses(n); }
    var value := [32] + (digits + [NEWLINE]);
    assert HEADER_NAME + [COLON, 32] + digits + [NEWLINE] == HEADER_NAME + [COLON] + value;
    WrittenNameIsProper();
    TightHeaderLine(HEADER_NAME, value, None);
    StripAround(digits);
    LengthsAreRead(n, []);
  }

  lemma PlainBlankLine(after: seq<Byte>, length: Option<int>)
    ensures ReadHeaders([NEWLINE] + after, length) == Some((length, after))
  {
    var s := [NEWLINE] + after;
    assert s == [] + [NEWLINE] + after;
    IndexOfFirst([], NEWLINE, after);
    assert s[..1] == [NEWLINE] && s[1..] == after;
  }

  lemma TwoNewlines(line: seq<Byte>, body: seq<Byte>)
    ensures line + [NEWLINE, NEWLINE] + body == line + [NEWLINE] + ([NEWLINE] + body)
  {
  }

  lemma OnOneLine(n: nat)
    ensures NEWLINE !in HEADER_NAME + [COLON, 32] + Decimal(n)
  {
    DecimalParses(n);
    assert NEWLINE !in HEADER_NAME && NEWLINE !in [COLON, 32];
  }

  /** Lone newlines end the header lines as well, and a body cut short is returned as far as it
      goes. */
  lemma ShortBodies(n: nat, body: seq<Byte>)
    requires |body| <= n
    ensures ReadMessage(HEADER_NAME + [COLON, 32] + Decimal(n) + [NEWLINE, NEWLINE] + body) ==
            if body == [] then None else Some((body, []))
  {
    var line := HEADER_NAME + [COLON, 32] + Decimal(n);
    TwoNewlines(line, body);
    OnOneLine(n);
    HeaderLineIsConsumed(line, [NEWLINE] + body, None);
    PlainHeaderParses(n);
    PlainBlankLine(body, Some(n));
    assert body[..|body|] == body && body[|body|..] == [];
  }
}
