/**
 * Character classes and string helpers with Python's meaning:
 * `str.isspace`, `str.strip()`, `str.splitlines()` and `str(int)`.
 * Text is a sequence of Unicode scalar values (`string`); decoding bytes is
 * not part of this model.
 */
module Text {

  /** Python `str.isspace()` for one character: the Unicode whitespace set. */
  predicate IsSpace(c: char) {
    var k := c as int;
    (0x09 <= k <= 0x0D) || (0x1C <= k <= 0x1F) || k == 0x20 || k == 0x85 || k == 0xA0 ||
    k == 0x1680 || (0x2000 <= k <= 0x200A) || k == 0x2028 || k == 0x2029 ||
    k == 0x202F || k == 0x205F || k == 0x3000
  }

  /** The line boundaries recognised by Python `str.splitlines()` ("\r\n" counts as one). */
  predicate IsLineBreak(c: char) {
    var k := c as int;
    k == 0x0A || k == 0x0B || k == 0x0C || k == 0x0D || k == 0x1C || k == 0x1D || k == 0x1E ||
    k == 0x85 || k == 0x2028 || k == 0x2029
  }

  lemma LineBreakIsSpace(c: char)
    ensures IsLineBreak(c) ==> IsSpace(c)
  {
  }

  predicate AllSpace(s: string) {
    forall k | 0 <= k < |s| :: IsSpace(s[k])
  }

  predicate NoLineBreak(s: string) {
    forall k | 0 <= k < |s| :: !IsLineBreak(s[k])
  }

  /** Neither the first nor the last character is whitespace. */
  predicate NoSurroundingSpace(s: string) {
    s == [] || (!IsSpace(s[0]) && !IsSpace(s[|s| - 1]))
  }

  // ---------------------------------------------------------------------------
  // strip()

  /** Drops leading whitespace: what is left is a suffix that does not start with whitespace. */
  function TrimLeft(s: string): (r: string)
    ensures |r| <= |s| && r == s[|s| - |r|..]
    ensures AllSpace(s[..|s| - |r|])
    ensures r == [] || !IsSpace(r[0])
    decreases |s|
  {
    if s != [] && IsSpace(s[0]) then
      var r := TrimLeft(s[1..]);
      assert s[..|s| - |r|] == [s[0]] + s[1..][..|s| - 1 - |r|];
      AllSpaceConcat([s[0]], s[1..][..|s| - 1 - |r|]);
      r
    else
      s
  }

  /** Drops trailing whitespace: what is left is a prefix that does not end with whitespace. */
  function TrimRight(s: string): (r: string)
    ensures |r| <= |s| && r == s[..|r|]
    ensures AllSpace(s[|r|..])
    ensures r == [] || !IsSpace(r[|r| - 1])
    decreases |s|
  {
    if s != [] && IsSpace(s[|s| - 1]) then
      var r := TrimRight(s[..|s| - 1]);
      assert s[|r|..] == s[..|s| - 1][|r|..] + [s[|s| - 1]];
      AllSpaceConcat(s[..|s| - 1][|r|..], [s[|s| - 1]]);
      r
    else
      s
  }

  /** Python `s.strip()`: the text between the leading and the trailing whitespace. */
  function Strip(s: string): (r: string)
    ensures NoSurroundingSpace(r)
    ensures r == [] <==> AllSpace(s)
  {
    var l := TrimLeft(s);
    var r := TrimRight(l);
    var i := |s| - |l|;
    assert l == s[i..];
    assert r == s[i..i + |r|];
    assert AllSpace(s[i + |r|..]) by {
      assert s[i + |r|..] == l[|r|..];
    }
    assert r == [] ==> AllSpace(s) by {
      if r == [] {
        assert s == s[..i] + l;
        AllSpaceConcat(s[..i], l);
      }
    }
    r
  }

  /** A concatenation is whitespace only exactly when both parts are. */
  lemma AllSpaceConcat(a: string, b: string)
    ensures AllSpace(a + b) <==> AllSpace(a) && AllSpace(b)
  {
    var ab := a + b;
    if AllSpace(a) && AllSpace(b) {
      forall k | 0 <= k < |ab| ensures IsSpace(ab[k]) {
        if k < |a| { assert ab[k] == a[k]; } else { assert ab[k] == b[k - |a|]; }
      }
    }
    if AllSpace(ab) {
      forall k | 0 <= k < |a| ensures IsSpace(a[k]) { assert ab[k] == a[k]; }
      forall k | 0 <= k < |b| ensures IsSpace(b[k]) { assert ab[|a| + k] == b[k]; }
    }
  }

  /** A slice of whitespace is whitespace. */
  lemma AllSpaceSlice(s: string, i: nat, j: nat)
    requires AllSpace(s) && i <= j <= |s|
    ensures AllSpace(s[i..j])
  {
    forall k | 0 <= k < j - i ensures IsSpace(s[i..j][k]) {
      assert s[i..j][k] == s[i + k];
    }
  }

  /** Whatever whitespace surrounds a text without surrounding whitespace, strip() recovers it. */
  lemma {:induction false} StripRecovers(front: string, t: string, back: string)
    requires AllSpace(front) && AllSpace(back) && NoSurroundingSpace(t)
    ensures Strip(front + t + back) == t
  {
    var s := front + t + back;
    if t == [] {
      assert AllSpace(s) by {
        assert s == front + back;
      }
    } else {
      assert (t + back)[0] == t[0];
      assert s == front + (t + back);
      assert TrimLeft(s) == t + back by { TrimLeftSkips(front, t + back); }
      assert TrimRight(t + back) == t by { TrimRightSkips(t, back); }
    }
  }

  /** strip() keeps a contiguous part of its input and removes only whitespace around it. */
  lemma StripIsInfix(s: string)
    ensures exists i, j | 0 <= i <= j <= |s| :: Strip(s) == s[i..j] && AllSpace(s[..i]) && AllSpace(s[j..])
  {
    var l := TrimLeft(s);
    var r := TrimRight(l);
    var i := |s| - |l|;
    assert l == s[i..];
    assert r == s[i..i + |r|];
    assert s[i + |r|..] == l[|r|..];
  }

  lemma {:induction false} TrimLeftSkips(front: string, rest: string)
    requires AllSpace(front)
    requires rest == [] || !IsSpace(rest[0])
    ensures TrimLeft(front + rest) == rest
    decreases |front|
  {
    if front != [] {
      assert (front + rest)[1..] == front[1..] + rest;
      TrimLeftSkips(front[1..], rest);
    }
  }

  lemma {:induction false} TrimRightSkips(t: string, back: string)
    requires AllSpace(back)
    requires t == [] || !IsSpace(t[|t| - 1])
    ensures TrimRight(t + back) == t
    decreases |back|
  {
    if back != [] {
      var shorter := back[..|back| - 1];
      assert (t + back)[..|t + back| - 1] == t + shorter;
      TrimRightSkips(t, shorter);
    } else {
      assert t + back == t;
    }
  }

  /** strip() cannot introduce a line boundary. */
  lemma StripNoLineBreak(s: string)
    requires NoLineBreak(s)
    ensures NoLineBreak(Strip(s))
  {
    var l := TrimLeft(s);
    assert l == s[|s| - |l|..];
    assert NoLineBreak(l);
  }

  /** strip() is idempotent. */
  lemma StripIdempotent(s: string)
    ensures Strip(Strip(s)) == Strip(s)
  {
    StripKeepsTrimmed(Strip(s));
  }

  /** A text without surrounding whitespace is left unchanged by strip(). */
  lemma StripKeepsTrimmed(t: string)
    requires NoSurroundingSpace(t)
    ensures Strip(t) == t
  {
    var e: string := [];
    assert e + t + e == t;
    StripRecovers(e, t, e);
  }

  // ---------------------------------------------------------------------------
  // splitlines()

  /** Index of the first line boundary, or |s| when there is none. */
  function FirstBreak(s: string): (i: nat)
    ensures i <= |s|
    ensures NoLineBreak(s[..i])
    ensures i < |s| ==> IsLineBreak(s[i])
  {
    if s == [] || IsLineBreak(s[0]) then 0 else 1 + FirstBreak(s[1..])
  }

  /** A boundary is two characters long exactly when it is "\r\n". */
  function BreakLength(s: string, i: nat): (n: nat)
    requires i < |s|
    ensures 1 <= n <= 2 && i + n <= |s|
  {
    if s[i] == '\r' && i + 1 < |s| && s[i + 1] == '\n' then 2 else 1
  }

  /** Python `s.splitlines()` (without keepends): the lines, boundaries removed. */
  function SplitLines(s: string): (lines: seq<string>)
    ensures forall k | 0 <= k < |lines| :: NoLineBreak(lines[k])
    ensures lines == [] <==> s == []
    decreases |s|
  {
    if s == [] then []
    else
      var i := FirstBreak(s);
      if i == |s| then [s] else [s[..i]] + SplitLines(s[i + BreakLength(s, i)..])
  }

  /** Concatenation of a sequence of strings. */
  function Concat(parts: seq<string>): string {
    if parts == [] then [] else parts[0] + Concat(parts[1..])
  }

  /** The characters of `s` that are not line boundaries, in order. */
  function DropBreaks(s: string): (r: string)
    ensures |r| <= |s|
  {
    if s == [] then []
    else (if IsLineBreak(s[0]) then [] else [s[0]]) + DropBreaks(s[1..])
  }

  lemma {:induction false} DropBreaksAppend(a: string, b: string)
    ensures DropBreaks(a + b) == DropBreaks(a) + DropBreaks(b)
    decreases |a|
  {
    if a != [] {
      assert (a + b)[1..] == a[1..] + b;
      DropBreaksAppend(a[1..], b);
    } else {
      assert a + b == b;
    }
  }

  lemma {:induction false} DropBreaksPlain(s: string)
    requires NoLineBreak(s)
    ensures DropBreaks(s) == s
    decreases |s|
  {
    if s != [] {
      DropBreaksPlain(s[1..]);
    }
  }

  lemma {:induction false} DropBreaksAllBreaks(s: string)
    requires forall k | 0 <= k < |s| :: IsLineBreak(s[k])
    ensures DropBreaks(s) == []
    decreases |s|
  {
    if s != [] {
      DropBreaksAllBreaks(s[1..]);
    }
  }

  /** splitlines() loses no character and adds none: only the line boundaries disappear. */
  lemma {:induction false} SplitLinesKeepsText(s: string)
    ensures Concat(SplitLines(s)) == DropBreaks(s)
    decreases |s|
  {
    if s != [] {
      var i := FirstBreak(s);
      if i == |s| {
        DropBreaksPlain(s);
        assert Concat([s]) == s + Concat([]);
      } else {
        var n := BreakLength(s, i);
        var line, brk, rest := s[..i], s[i..i + n], s[i + n..];
        assert s == line + brk + rest;
        DropBreaksAppend(line + brk, rest);
        DropBreaksAppend(line, brk);
        DropBreaksPlain(line);
        DropBreaksAllBreaks(brk);
        assert DropBreaks(s) == line + DropBreaks(rest);
        SplitLinesKeepsText(rest);
        var lines := SplitLines(s);
        assert lines == [line] + SplitLines(rest);
        assert lines[1..] == SplitLines(rest);
        assert Concat(lines) == line + Concat(SplitLines(rest));
      }
    }
  }

  /**
   * Where splitlines() cuts: a line ends at the first boundary, and the next
   * line starts after it; "\r\n" is one boundary.
   */
  lemma SplitLinesCut(line: string, b: char, rest: string)
    requires NoLineBreak(line) && IsLineBreak(b)
    ensures !(b == '\r' && rest != [] && rest[0] == '\n') ==>
              SplitLines(line + [b] + rest) == [line] + SplitLines(rest)
    ensures b == '\r' && rest != [] && rest[0] == '\n' ==>
              SplitLines(line + [b] + rest) == [line] + SplitLines(rest[1..])
  {
    var s := line + [b] + rest;
    assert s[|line|] == b && s[..|line|] == line;
    var i := FirstBreak(s);
    assert i <= |line| by {
      if i > |line| {
        assert false;
      }
    }
    assert i == |line| by {
      if i < |line| {
        assert false;
      }
    }
    if b == '\r' && rest != [] && rest[0] == '\n' {
      assert BreakLength(s, i) == 2 && s[i + 2..] == rest[1..];
    } else {
      assert BreakLength(s, i) == 1 && s[i + 1..] == rest;
    }
  }

  /** A non-empty text without line boundaries is a single line. */
  lemma SplitLinesSingle(s: string)
    requires s != [] && NoLineBreak(s)
    ensures SplitLines(s) == [s]
  {
    assert FirstBreak(s) == |s|;
  }

  // ---------------------------------------------------------------------------
  // str(int)

  function DigitChar(d: nat): (c: char)
    requires d < 10
    ensures '0' <= c <= '9'
  {
    ('0' as int + d) as char
  }

  function DigitValue(c: char): (d: nat)
    requires '0' <= c <= '9'
    ensures d < 10 && DigitChar(d) == c
  {
    (c as int) - ('0' as int)
  }

  predicate AllDigits(s: string) {
    forall k | 0 <= k < |s| :: '0' <= s[k] <= '9'
  }

  /** Python `str(n)` for a non-negative integer: decimal digits without leading zeros. */
  function NatToDecimal(n: nat): (s: string)
    ensures s != [] && AllDigits(s)
    ensures s[0] == '0' ==> n == 0 && |s| == 1
  {
    if n < 10 then [DigitChar(n)] else NatToDecimal(n / 10) + [DigitChar(n % 10)]
  }

  /** The value of a string of decimal digits. */
  function DecimalValue(s: string): nat
    requires AllDigits(s)
  {
    if s == [] then 0 else 10 * DecimalValue(s[..|s| - 1]) + DigitValue(s[|s| - 1])
  }

  /** Reading back what `str(n)` wrote gives n. */
  lemma {:induction false} DecimalRoundTrip(n: nat)
    ensures DecimalValue(NatToDecimal(n)) == n
  {
    if n >= 10 {
      var s := NatToDecimal(n);
      assert s[..|s| - 1] == NatToDecimal(n / 10);
      assert DigitValue(s[|s| - 1]) == n % 10;
      DecimalRoundTrip(n / 10);
      assert n == 10 * (n / 10) + n % 10;
    }
  }

  /** Distinct numbers have distinct decimal forms. */
  lemma DecimalInjective(m: nat, n: nat)
    requires NatToDecimal(m) == NatToDecimal(n)
    ensures m == n
  {
    DecimalRoundTrip(m);
    DecimalRoundTrip(n);
  }

  /** Python `str(i)` for any integer: a minus sign before the digits of |i| when negative. */
  function IntToDecimal(i: int): (s: string)
    ensures s != []
    ensures i < 0 <==> s[0] == '-'
    ensures NoLineBreak(s) && NoSurroundingSpace(s)
  {
    if i < 0 then "-" + NatToDecimal(-i) else NatToDecimal(i)
  }

  /** Distinct integers have distinct `str()` forms. */
  lemma IntToDecimalInjective(i: int, j: int)
    requires IntToDecimal(i) == IntToDecimal(j)
    ensures i == j
  {
    if i < 0 {
      assert IntToDecimal(i)[1..] == NatToDecimal(-i);
      assert IntToDecimal(j)[1..] == NatToDecimal(-j);
      DecimalInjective(-i, -j);
    } else {
      DecimalInjective(i, j);
    }
  }

  /** `str(i)` is made of digits and, in front, possibly a minus sign; it ends with a digit. */
  lemma IntToDecimalChars(i: int)
    ensures forall k | 0 <= k < |IntToDecimal(i)| :: IntToDecimal(i)[k] == '-' || '0' <= IntToDecimal(i)[k] <= '9'
    ensures '0' <= IntToDecimal(i)[|IntToDecimal(i)| - 1] <= '9'
  {
    if i < 0 {
      var d := NatToDecimal(-i);
      assert IntToDecimal(i) == "-" + d;
      assert IntToDecimal(i)[|IntToDecimal(i)| - 1] == d[|d| - 1];
    }
  }

  /** Two single lines side by side make a single line. */
  lemma NoLineBreakAppend(a: string, b: string)
    requires NoLineBreak(a) && NoLineBreak(b)
    ensures NoLineBreak(a + b)
  {
    forall k | 0 <= k < |a + b| ensures !IsLineBreak((a + b)[k]) {
      if k >= |a| { assert (a + b)[k] == b[k - |a|]; }
    }
  }

  /** Concatenation distributes over appending sequences of strings. */
  lemma {:induction false} ConcatAppend(a: seq<string>, b: seq<string>)
    ensures Concat(a + b) == Concat(a) + Concat(b)
    decreases |a|
  {
    if a != [] {
      assert (a + b)[1..] == a[1..] + b;
      ConcatAppend(a[1..], b);
    } else {
      assert a + b == b;
    }
  }

  /** Pieces without line boundaries concatenate to a text without line boundaries. */
  lemma {:induction false} ConcatNoLineBreak(parts: seq<string>)
    requires forall k | 0 <= k < |parts| :: NoLineBreak(parts[k])
    ensures NoLineBreak(Concat(parts))
    decreases |parts|
  {
    if parts != [] {
      ConcatNoLineBreak(parts[1..]);
      var head, tail := parts[0], Concat(parts[1..]);
      assert Concat(parts) == head + tail;
      forall k | 0 <= k < |head + tail| ensures !IsLineBreak((head + tail)[k]) {
        if k >= |head| { assert (head + tail)[k] == tail[k - |head|]; }
      }
    }
  }

  /** `part` occurs in `s`. */
  predicate Contains(s: string, part: string) {
    exists i | 0 <= i <= |s| :: part <= s[i..]
  }

  // ---------------------------------------------------------------------------
  // splitting on a separator character

  /** Python `s.split(sep)` for a one-character separator. */
  function Split(s: string, sep: char): (parts: seq<string>)
    ensures parts != []
    ensures forall k | 0 <= k < |parts| :: sep !in parts[k]
    decreases |s|
  {
    if sep !in s then [s]
    else
      var i := IndexOf(s, sep);
      [s[..i]] + Split(s[i + 1..], sep)
  }

  function IndexOf(s: string, c: char): (i: nat)
    requires c in s
    ensures i < |s| && s[i] == c && c !in s[..i]
  {
    if s[0] == c then 0 else 1 + IndexOf(s[1..], c)
  }

  /** The parts joined with one separator character between neighbours. */
  function Join(parts: seq<string>, sep: char): (s: string)
    requires parts != []
    ensures parts[0] <= s
    decreases |parts|
  {
    if |parts| == 1 then parts[0] else parts[0] + [sep] + Join(parts[1..], sep)
  }

  /** The joined text ends with the last part. */
  lemma {:induction false} JoinEndsWithLast(parts: seq<string>, sep: char)
    requires parts != []
    ensures var s, last := Join(parts, sep), parts[|parts| - 1];
            |last| <= |s| && s[|s| - |last|..] == last
    decreases |parts|
  {
    if |parts| > 1 {
      JoinEndsWithLast(parts[1..], sep);
      var rest := Join(parts[1..], sep);
      var s := Join(parts, sep);
      assert s == (parts[0] + [sep]) + rest;
      assert s[|s| - |rest|..] == rest;
    }
  }

  /** Splitting joined separator-free parts on the separator gives the parts back. */
  lemma {:induction false} SplitJoin(parts: seq<string>, sep: char)
    requires parts != []
    requires forall k | 0 <= k < |parts| :: sep !in parts[k]
    ensures Split(Join(parts, sep), sep) == parts
    decreases |parts|
  {
    var head, rest := parts[0], parts[1..];
    if rest == [] {
      assert Join(parts, sep) == head;
    } else {
      assert forall k | 0 <= k < |rest| :: rest[k] == parts[k + 1];
      SplitJoin(rest, sep);
      assert Join(parts, sep) == head + [sep] + Join(rest, sep);
      SplitJoined(head, sep, Join(rest, sep));
      assert [head] + rest == parts;
    }
  }

  /** Joining parts without line boundaries on a separator that is not one gives a single line. */
  lemma {:induction false} JoinNoLineBreak(parts: seq<string>, sep: char)
    requires parts != [] && !IsLineBreak(sep)
    requires forall k | 0 <= k < |parts| :: NoLineBreak(parts[k])
    ensures NoLineBreak(Join(parts, sep))
    decreases |parts|
  {
    if |parts| > 1 {
      JoinNoLineBreak(parts[1..], sep);
      var head, rest := parts[0] + [sep], Join(parts[1..], sep);
      forall k | 0 <= k < |head + rest| ensures !IsLineBreak((head + rest)[k]) {
        if k >= |head| { assert (head + rest)[k] == rest[k - |head|]; }
      }
    }
  }

  /** Splitting a separator-free head off a joined string. */
  lemma SplitJoined(head: string, sep: char, tail: string)
    requires sep !in head
    ensures Split(head + [sep] + tail, sep) == [head] + Split(tail, sep)
  {
    var s := head + [sep] + tail;
    assert s[|head|] == sep;
    var i := IndexOf(s, sep);
    assert s[..|head|] == head;
    assert i == |head|;
    assert s[i + 1..] == tail;
  }
}
