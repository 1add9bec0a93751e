/** Plain line splitting of a byte string: the specification the log readers refine. */
module LineSplit {
  const NEWLINE: bv8 := 10
  const CR: bv8 := 13

  /** The pieces between newlines. A final piece counts only when it is not empty. */
  function Split(s: seq<bv8>): (lines: seq<seq<bv8>>)
    ensures s != [] ==> lines != []
  {
    if s == [] then []
    else
      var rest := Split(s[1..]);
      if s[0] == NEWLINE then [[]] + rest
      else if rest == [] then [[s[0]]]
      else [[s[0]] + rest[0]] + rest[1..]
  }

  /** Every line followed by a newline. */
  function Joined(lines: seq<seq<bv8>>): seq<bv8> {
    if lines == [] then [] else lines[0] + [NEWLINE] + Joined(lines[1..])
  }

  predicate EndsOpen(s: seq<bv8>) {
    s != [] && s[|s| - 1] != NEWLINE
  }

  /** `lines` with text `a` put before the first of them. */
  function Prepended(a: seq<bv8>, lines: seq<seq<bv8>>): seq<seq<bv8>> {
    if lines == [] then [a] else [a + lines[0]] + lines[1..]
  }

  lemma Reassociate<T>(x: seq<T>, y: seq<T>, z: seq<T>)
    ensures (x + y) + z == x + (y + z)
  {
  }

  lemma JoinedCons(line: seq<bv8>, rest: seq<seq<bv8>>)
    ensures Joined([line] + rest) == line + [NEWLINE] + Joined(rest)
  {
    assert ([line] + rest)[1..] == rest;
  }

  lemma JoinedPrepended(c: bv8, lines: seq<seq<bv8>>)
    requires lines != []
    ensures Joined(Prepended([c], lines)) == [c] + Joined(lines)
  {
    JoinedCons([c] + lines[0], lines[1..]);
    assert lines == [lines[0]] + lines[1..];
    JoinedCons(lines[0], lines[1..]);
    assert ([c] + lines[0]) + [NEWLINE] + Joined(lines[1..]) == [c] + (lines[0] + [NEWLINE] + Joined(lines[1..]));
  }

  /** What joining the lines of `s` gives. */
  function Closed(s: seq<bv8>): seq<bv8> {
    if EndsOpen(s) then s + [NEWLINE] else s
  }

  lemma ClosedCons(c: bv8, t: seq<bv8>)
    requires t != []
    ensures Closed([c] + t) == [c] + Closed(t)
  {
    assert ([c] + t)[|t|] == t[|t| - 1];
    assert [c] + (t + [NEWLINE]) == ([c] + t) + [NEWLINE];
  }

  /** Splitting loses nothing: joining the lines gives the input back, with a newline added when the
      input did not end in one. */
  lemma {:induction false} SplitRebuilds(s: seq<bv8>)
    ensures Joined(Split(s)) == Closed(s)
  {
    if s != [] {
      var t := s[1..];
      SplitRebuilds(t);
      assert s == [s[0]] + t;
      if s[0] == NEWLINE {
        JoinedCons([], Split(t));
        assert [] + [NEWLINE] == [NEWLINE];
        if t != [] {
          ClosedCons(s[0], t);
        }
      } else if t == [] {
        JoinedCons(s, []);
        assert s + [NEWLINE] + [] == s + [NEWLINE];
      } else {
        assert Split(s) == Prepended([s[0]], Split(t));
        JoinedPrepended(s[0], Split(t));
        ClosedCons(s[0], t);
      }
    }
  }

  /** And no line holds a newline. */
  lemma {:induction false} LinesHoldNoNewline(s: seq<bv8>)
    ensures forall k :: 0 <= k < |Split(s)| ==> NEWLINE !in Split(s)[k]
  {
    if s != [] {
      LinesHoldNoNewline(s[1..]);
    }
  }

  /** A newline cuts the splitting in two. */
  lemma {:induction false} SplitAtNewline(a: seq<bv8>, b: seq<bv8>)
    requires NEWLINE !in a
    ensures Split(a + [NEWLINE] + b) == [a] + Split(b)
  {
    var s := a + [NEWLINE] + b;
    if a == [] {
      assert s[1..] == b;
    } else {
      assert s[1..] == a[1..] + [NEWLINE] + b;
      assert a[0] in a;
      SplitAtNewline(a[1..], b);
      assert [a[0]] + a[1..] == a;
    }
  }

  lemma FirstLine(b: seq<bv8>)
    ensures Split(b) == [] <==> b == []
    ensures b != [] && b[0] == NEWLINE ==> Split(b)[0] == []
    ensures b != [] && b[0] != NEWLINE ==> Split(b)[0] != []
  {
  }

  lemma {:induction false} SplitPrepends(a: seq<bv8>, b: seq<bv8>)
    requires NEWLINE !in a && a != []
    ensures Split(a + b) == Prepended(a, Split(b))
  {
    var s := a + b;
    assert s[0] == a[0] && a[0] in a;
    if |a| == 1 {
      assert s[1..] == b && [a[0]] == a;
    } else {
      assert s[1..] == a[1..] + b;
      SplitPrepends(a[1..], b);
      assert [a[0]] + a[1..] == a;
      if Split(b) != [] {
        assert [a[0]] + (a[1..] + Split(b)[0]) == a + Split(b)[0];
      }
    }
  }

  /** The other way round: splitting joined lines gives the lines back. */
  lemma {:induction false} SplitOfJoined(lines: seq<seq<bv8>>)
    requires forall k :: 0 <= k < |lines| ==> NEWLINE !in lines[k]
    ensures Split(Joined(lines)) == lines
    decreases |lines|
  {
    if lines != [] {
      SplitOfJoined(lines[1..]);
      SplitAtNewline(lines[0], Joined(lines[1..]));
      assert lines == [lines[0]] + lines[1..];
    }
  }

  /** So splitting is pinned down: the lines are the only newline-free ones that join to the text, closed by
      a newline. */
  lemma SplitIsTheOnlyOne(s: seq<bv8>, lines: seq<seq<bv8>>)
    ensures lines == Split(s) <==>
            (forall k :: 0 <= k < |lines| ==> NEWLINE !in lines[k]) && Joined(lines) == Closed(s)
  {
    SplitRebuilds(s);
    LinesHoldNoNewline(s);
    SplitOfJoined(Split(s));
    if forall k :: 0 <= k < |lines| ==> NEWLINE !in lines[k] {
      SplitOfJoined(lines);
    }
  }

  /** Text without a newline is one line, or the beginning of the first one. */
  lemma SplitOpen(a: seq<bv8>, b: seq<bv8>)
    requires NEWLINE !in a && a != []
    ensures Split(a + b) == if Split(b) == [] then [a]
                            else if b[0] == NEWLINE then [a] + Split(b)[1..]
                            else [a + Split(b)[0]] + Split(b)[1..]
    ensures Split(b) == [] <==> b == []
    ensures b != [] && b[0] == NEWLINE ==> Split(b)[0] == []
    ensures b != [] && b[0] != NEWLINE ==> Split(b)[0] != []
  {
    SplitPrepends(a, b);
    FirstLine(b);
    if b != [] && b[0] == NEWLINE {
      assert a + Split(b)[0] == a;
    }
  }

  /** Dropping a prefix leaves all lines but the first of what remains: they are the last lines of the
      whole. */
  lemma {:induction false} SuffixKeepsLastLines(s: seq<bv8>, start: nat)
    requires start <= |s| && Split(s[start..]) != []
    ensures var all, part := Split(s), Split(s[start..]);
      |all| >= |part| && all[|all| - (|part| - 1)..] == part[1..]
    decreases start
  {
    if start == 0 {
      assert s[0..] == s;
    } else {
      SuffixKeepsLastLines(s[1..], start - 1);
      assert s[1..][start - 1..] == s[start..];
    }
  }
}
