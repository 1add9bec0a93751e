/** Truncation of a log line for the event bus: the copy must stay valid UTF-8. */
module BusLine {
  type byte = x: int | 0 <= x < 256

  const MAX_BUS_LINE: nat := 8 * 1024
  /** The horizontal ellipsis, U+2026. */
  const ELLIPSIS: seq<byte> := [0xE2, 0x80, 0xA6]

  predicate Continuation(b: byte) {
    0x80 <= b < 0xC0
  }

  /** The length of the character a byte string starts with, by the grammar of section 4 of RFC 3629;
      0 when it starts with none. */
  function CharLen(s: seq<byte>): (n: nat)
    ensures n <= 4 && n <= |s|
    ensures n > 0 ==> !Continuation(s[0]) && forall k :: 1 <= k < n ==> Continuation(s[k])
  {
    if s == [] then 0
    else if s[0] < 0x80 then 1
    else if 0xC2 <= s[0] < 0xE0 then
      if |s| >= 2 && Continuation(s[1]) then 2 else 0
    else if 0xE0 <= s[0] < 0xF0 then
      if |s| >= 3 && Second3(s[0], s[1]) && Continuation(s[2]) then 3 else 0
    else if 0xF0 <= s[0] < 0xF5 then
      if |s| >= 4 && Second4(s[0], s[1]) && Continuation(s[2]) && Continuation(s[3]) then 4 else 0
    else 0
  }

  /** The second byte of a three-byte character: no overlong forms, no surrogates. */
  predicate Second3(first: byte, b: byte) {
    Continuation(b) && (first == 0xE0 ==> b >= 0xA0) && (first == 0xED ==> b < 0xA0)
  }

  /** The second byte of a four-byte character: no overlong forms, nothing above U+10FFFF. */
  predicate Second4(first: byte, b: byte) {
    Continuation(b) && (first == 0xF0 ==> b >= 0x90) && (first == 0xF4 ==> b < 0x90)
  }

  predicate ValidUtf8(s: seq<byte>) {
    s == [] || (CharLen(s) > 0 && ValidUtf8(s[CharLen(s)..]))
  }

  /** Position `i` lies between two characters, counting characters from the start. */
  predicate BetweenChars(s: seq<byte>, i: nat) {
    i == 0 || (CharLen(s) > 0 && CharLen(s) <= i && BetweenChars(s[CharLen(s)..], i - CharLen(s)))
  }

  /** The test the code makes: it looks at one byte only. */
  predicate IsCharBoundary(s: seq<byte>, i: nat) {
    i == 0 || i == |s| || (i < |s| && !Continuation(s[i]))
  }

  /** On valid text the one-byte test finds exactly the positions between characters. */
  lemma {:induction false} BoundaryTestIsExact(s: seq<byte>, i: nat)
    requires ValidUtf8(s) && i <= |s|
    ensures IsCharBoundary(s, i) <==> BetweenChars(s, i)
    decreases |s|
  {
    if i > 0 {
      var n := CharLen(s);
      if i >= n {
        BoundaryTestIsExact(s[n..], i - n);
        if i < |s| {
          assert s[n..][i - n] == s[i];
        }
        if i == n && i < |s| {
          assert CharLen(s[n..]) > 0;
        }
      }
    }
  }

  lemma CharLenOfPrefix(s: seq<byte>, i: nat)
    requires CharLen(s) <= i <= |s|
    ensures CharLen(s) > 0 ==> CharLen(s[..i]) == CharLen(s)
  {
  }

  lemma CharLenGrows(s: seq<byte>, i: nat)
    requires i <= |s| && CharLen(s[..i]) > 0
    ensures CharLen(s) == CharLen(s[..i])
  {
  }

  /** Cutting valid text leaves valid text exactly when the cut lies between characters. */
  lemma {:induction false} PrefixValidIffBetweenChars(s: seq<byte>, i: nat)
    requires ValidUtf8(s) && i <= |s|
    ensures ValidUtf8(s[..i]) <==> BetweenChars(s, i)
    decreases |s|
  {
    if i > 0 {
      var n := CharLen(s);
      if i >= n {
        CharLenOfPrefix(s, i);
        assert s[..i][n..] == s[n..][..i - n];
        PrefixValidIffBetweenChars(s[n..], i - n);
      } else if CharLen(s[..i]) > 0 {
        CharLenGrows(s, i);
      }
    }
  }

  /** Among any four neighbouring positions of valid text one lies between characters. */
  lemma {:induction false} BoundaryWithinThree(s: seq<byte>, i: nat)
    requires ValidUtf8(s) && i <= |s|
    ensures exists j: nat :: i - 3 <= j <= i && IsCharBoundary(s, j)
    decreases |s|
  {
    var n := CharLen(s);
    if i < n || i == 0 {
      assert IsCharBoundary(s, 0);
    } else {
      BoundaryWithinThree(s[n..], i - n);
      var j: nat :| i - n - 3 <= j <= i - n && IsCharBoundary(s[n..], j);
      if j == 0 && n < |s| {
        assert CharLen(s[n..]) > 0;
        assert s[n] == s[n..][0];
      } else if n + j < |s| {
        assert s[n + j] == s[n..][j];
      }
      assert IsCharBoundary(s, n + j);
    }
  }

  lemma {:induction false} ValidConcat(a: seq<byte>, b: seq<byte>)
    requires ValidUtf8(a) && ValidUtf8(b)
    ensures ValidUtf8(a + b)
    decreases |a|
  {
    if a == [] {
      assert a + b == b;
    } else {
      var n := CharLen(a);
      assert (a + b)[..|a|] == a;
      CharLenGrows(a + b, |a|);
      assert (a + b)[n..] == a[n..] + b;
      ValidConcat(a[n..], b);
    }
  }

  lemma EllipsisValid()
    ensures ValidUtf8(ELLIPSIS)
  {
    assert CharLen(ELLIPSIS) == 3;
    assert ELLIPSIS[3..] == [];
  }

  /** The backward search for a boundary. */
  method LastBoundary(line: seq<byte>) returns (end: nat)
    requires ValidUtf8(line) && |line| > MAX_BUS_LINE
    ensures MAX_BUS_LINE - 3 <= end <= MAX_BUS_LINE && IsCharBoundary(line, end)
    ensures forall i :: end < i <= MAX_BUS_LINE ==> !IsCharBoundary(line, i)
  {
    BoundaryWithinThree(line, MAX_BUS_LINE);
    ghost var near: nat :| MAX_BUS_LINE - 3 <= near <= MAX_BUS_LINE && IsCharBoundary(line, near);
    end := MAX_BUS_LINE;
    while !IsCharBoundary(line, end)
      invariant near <= end <= MAX_BUS_LINE
      invariant forall i :: end < i <= MAX_BUS_LINE ==> !IsCharBoundary(line, i)
      decreases end
    {
      end := end - 1;
    }
  }

  lemma BoundariesAreBetweenChars(line: seq<byte>, end: nat, bound: nat)
    requires ValidUtf8(line) && end <= bound <= |line| && IsCharBoundary(line, end)
    requires forall i :: end < i <= bound ==> !IsCharBoundary(line, i)
    ensures BetweenChars(line, end) && forall i :: end < i <= bound ==> !BetweenChars(line, i)
  {
    BoundaryTestIsExact(line, end);
    forall i | end < i <= bound ensures !BetweenChars(line, i) {
      BoundaryTestIsExact(line, i);
    }
  }

  lemma CutIsValid(line: seq<byte>, end: nat)
    requires ValidUtf8(line) && end <= |line| && BetweenChars(line, end)
    ensures ValidUtf8(line[..end] + ELLIPSIS)
  {
    PrefixValidIffBetweenChars(line, end);
    EllipsisValid();
    ValidConcat(line[..end], ELLIPSIS);
  }

  /** The bus copy of a line. A long line is cut at the greatest character boundary within the limit,
      found in at most three steps back, and stays valid UTF-8. */
  method BusText(line: seq<byte>) returns (text: seq<byte>, ghost steps: nat)
    requires ValidUtf8(line)
    ensures ValidUtf8(text)
    ensures |line| <= 8192 ==> text == line
    ensures |line| > 8192 ==>
      && steps <= 3
      && text == line[..8192 - steps] + [0xE2, 0x80, 0xA6]
      && BetweenChars(line, 8192 - steps)
      && forall i :: 8192 - steps < i <= 8192 ==> !BetweenChars(line, i)
  {
    steps := 0;
    if |line| <= MAX_BUS_LINE {
      return line, 0;
    }
    var end := LastBoundary(line);
    steps := MAX_BUS_LINE - end;
    BoundariesAreBetweenChars(line, end, MAX_BUS_LINE);
    CutIsValid(line, end);
    text := line[..end] + ELLIPSIS;
  }
}
