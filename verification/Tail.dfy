/** The last n lines of a file, read through a window at its end that doubles until it holds enough. */
module Tail {
  import opened LineSplit

  /** Estimated bytes per line. */
  const LINE_ESTIMATE: nat := 200

  function StripCr(line: seq<bv8>): seq<bv8> {
    if line != [] && line[|line| - 1] == CR then line[..|line| - 1] else line
  }

  /** Exactly one carriage return goes, and only from the end of a line. */
  lemma CrStripped(line: seq<bv8>)
    ensures StripCr(line + [13]) == line
    ensures (line == [] || line[|line| - 1] != 13) ==> StripCr(line) == line
  {
  }

  function StripAll(lines: seq<seq<bv8>>): (r: seq<seq<bv8>>)
    ensures |r| == |lines|
  {
    seq(|lines|, k requires 0 <= k < |lines| => StripCr(lines[k]))
  }

  function LastN<T>(s: seq<T>, n: nat): seq<T> {
    if |s| <= n then s else s[|s| - n..]
  }

  /** What `tail_lines` is for: split the whole file, strip carriage returns, keep the last n. */
  function TailSpec(file: seq<bv8>, n: nat): seq<seq<bv8>> {
    LastN(StripAll(Split(file)), n)
  }

  lemma WholeFile(file: seq<bv8>, n: nat, buf: seq<seq<bv8>>)
    requires buf == LastN(StripAll(Split(file)), n + 1)
    ensures LastN(buf, n) == TailSpec(file, n)
  {
  }

  /** A window that holds more than n pieces holds the last n lines whole. */
  lemma WindowSuffices(file: seq<bv8>, start: nat, n: nat, buf: seq<seq<bv8>>)
    requires start <= |file| && buf == LastN(StripAll(Split(file[start..])), n + 1) && |buf| == n + 1
    ensures buf[1..] == TailSpec(file, n)
  {
    var all, part := Split(file), Split(file[start..]);
    SuffixKeepsLastLines(file, start);
    SameLastLines(all, part, n);
    LastButOne(StripAll(part), n);
  }

  lemma DropFirst<T>(s: seq<T>, n: nat)
    requires |s| > n
    ensures LastN(s[1..], n) == LastN(s, n)
  {
  }

  lemma LastButOne<T>(s: seq<T>, n: nat)
    requires |s| >= n + 1
    ensures LastN(s, n + 1)[1..] == LastN(s, n)
  {
  }

  lemma StripSlice(lines: seq<seq<bv8>>, from: nat)
    requires from <= |lines|
    ensures StripAll(lines)[from..] == StripAll(lines[from..])
  {
  }

  lemma SameLastLines(all: seq<seq<bv8>>, part: seq<seq<bv8>>, n: nat)
    requires |all| >= |part| >= n + 1 && all[|all| - (|part| - 1)..] == part[1..]
    ensures LastN(StripAll(all), n) == LastN(StripAll(part), n)
  {
    var cut := |part| - 1 - n;
    assert all[|all| - n..] == all[|all| - (|part| - 1)..][cut..];
    assert part[|part| - n..] == part[1..][cut..];
    StripSlice(all, |all| - n);
    StripSlice(part, |part| - n);
  }

  /** Pushing a line into a buffer that keeps the last n + 1. */
  lemma PushKeepsLast(lines: seq<seq<bv8>>, buf: seq<seq<bv8>>, line: seq<bv8>, n: nat)
    requires buf == LastN(lines, n + 1)
    ensures (if |buf| == n + 1 then buf[1..] else buf) + [line] == LastN(lines + [line], n + 1)
  {
  }

  /** One pass over the window from `start`: the last n + 1 of its pieces, never holding more. */
  method ReadWindow(file: seq<bv8>, start: nat, n: nat) returns (buf: seq<seq<bv8>>)
    requires start <= |file|
    ensures buf == LastN(StripAll(Split(file[start..])), n + 1)
  {
    var pieces := Split(file[start..]);
    buf := [];
    ghost var lines: seq<seq<bv8>> := [];
    for k := 0 to |pieces|
      invariant |buf| <= n + 1 && buf == LastN(lines, n + 1)
      invariant lines == StripAll(pieces[..k])
    {
      var chunk := pieces[k];
      if chunk != [] && chunk[|chunk| - 1] == CR {
        chunk := chunk[..|chunk| - 1];
      }
      assert chunk == StripCr(pieces[k]);
      StripAppends(pieces, k);
      PushKeepsLast(lines, buf, chunk, n);
      if |buf| == n + 1 {
        buf := buf[1..];
      }
      buf := buf + [chunk];
      lines := lines + [chunk];
    }
    assert pieces[..|pieces|] == pieces;
  }

  lemma StripAppends(pieces: seq<seq<bv8>>, k: nat)
    requires k < |pieces|
    ensures StripAll(pieces[..k + 1]) == StripAll(pieces[..k]) + [StripCr(pieces[k])]
  {
  }

  /** For every file and every n >= 1 the result is exactly the last n lines of the whole file, and the
      doubling of the window ends. */
  method TailLines(file: seq<bv8>, n: nat) returns (tail: seq<seq<bv8>>)
    requires n >= 1
    ensures tail == TailSpec(file, n)
  {
    var size := |file|;
    var window := n * LINE_ESTIMATE;
    while true
      invariant window > 0
      decreases if window < size then size - window else 0
    {
      var start := if window < size then size - window else 0;
      var buf := ReadWindow(file, start, n);
      var complete := start == 0;
      if |buf| > n || complete {
        if !complete && |buf| > n {
          WindowSuffices(file, start, n, buf);
          buf := buf[1..];
          assert LastN(buf, n) == buf;
        } else {
          assert file[0..] == file;
          WholeFile(file, n, buf);
        }
        while |buf| > n
          invariant LastN(buf, n) == TailSpec(file, n)
        {
          DropFirst(buf, n);
          buf := buf[1..];
        }
        return buf;
      }
      window := window * 2;
    }
  }

  /** The window after some rounds of the loop. */
  function WindowAfter(n: nat, rounds: nat): nat {
    if rounds == 0 then n * LINE_ESTIMATE else WindowAfter(n, rounds - 1) * 2
  }

  /** The loop returns in the round that uses this window. */
  predicate Returns(file: seq<bv8>, n: nat, window: nat) {
    var start := if window < |file| then |file| - window else 0;
    start == 0 || |LastN(Split(file[start..]), n + 1)| > n
  }

  lemma {:induction false} ZeroStaysZero(rounds: nat)
    ensures WindowAfter(0, rounds) == 0
  {
    if rounds > 0 {
      ZeroStaysZero(rounds - 1);
    }
  }

  /** For n = 0 the loop would end on an empty file only: the window never grows. */
  lemma ZeroLinesReturnsIffEmpty(file: seq<bv8>)
    ensures (exists rounds: nat :: Returns(file, 0, WindowAfter(0, rounds))) <==> file == []
  {
    forall rounds: nat | Returns(file, 0, WindowAfter(0, rounds)) ensures file == [] {
      ZeroStaysZero(rounds);
      assert file[|file|..] == [];
    }
    if file == [] {
      assert Returns(file, 0, WindowAfter(0, 0));
    }
  }

  /** The lines `print_tail` prints: for n = 0 it returns before tailing. */
  method PrintTail(file: seq<bv8>, n: nat) returns (lines: seq<seq<bv8>>)
    ensures lines == TailSpec(file, n)
  {
    if n == 0 {
      return [];
    }
    lines := TailLines(file, n);
  }
}
