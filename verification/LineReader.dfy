/** The chunked line reader of the log pumps: bounded memory, long lines split where a chunk ends. */
module LineReader {
  import opened Domain
  import opened LineSplit

  const MAX_LINE: nat := 1024 * 1024
  const READ_BUF: nat := 64 * 1024

  /** One emitted line; `terminated` tells whether a newline ended it. */
  datatype Piece = Piece(bytes: seq<bv8>, terminated: bool)

  function Flat(chunks: seq<seq<bv8>>): seq<bv8> {
    if chunks == [] then [] else chunks[0] + Flat(chunks[1..])
  }

  /** The position of the first newline. */
  function Position(s: seq<bv8>): (r: Option<nat>)
    ensures r.None? <==> NEWLINE !in s
    ensures r.Some? ==> r.value < |s| && s[r.value] == NEWLINE && NEWLINE !in s[..r.value]
  {
    if s == [] then None
    else if s[0] == NEWLINE then Some(0)
    else
      match Position(s[1..])
      case None => None
      case Some(i) =>
        assert s[..i + 1] == [s[0]] + s[1..][..i];
        Some(i + 1)
  }

  /** The pieces emitted for the chunks still to be read, when `acc` was read since the last piece.
      `clean` tells an end of file from a read error, after which the accumulated bytes are lost. */
  function Emit(chunks: seq<seq<bv8>>, acc: seq<bv8>, clean: bool): seq<Piece>
    decreases |Flat(chunks)|, |chunks|
  {
    if chunks == [] then
      if acc == [] || !clean then [] else [Piece(acc, false)]
    else
      match Position(chunks[0])
      case None =>
        var acc' := acc + chunks[0];
        if |acc'| >= MAX_LINE then [Piece(acc', false)] + Emit(chunks[1..], [], clean)
        else Emit(chunks[1..], acc', clean)
      case Some(i) =>
        assert Flat([chunks[0][i + 1..]] + chunks[1..]) == chunks[0][i + 1..] + Flat(chunks[1..]);
        [Piece(acc + chunks[0][..i], true)] + Emit([chunks[0][i + 1..]] + chunks[1..], [], clean)
  }

  function Texts(pieces: seq<Piece>): (r: seq<seq<bv8>>)
    ensures |r| == |pieces|
  {
    seq(|pieces|, k requires 0 <= k < |pieces| => pieces[k].bytes)
  }

  /** The pieces' bytes with a newline put back after each terminated one. */
  function Rebuilt(pieces: seq<Piece>): seq<bv8> {
    if pieces == [] then []
    else pieces[0].bytes + (if pieces[0].terminated then [NEWLINE] else []) + Rebuilt(pieces[1..])
  }

  predicate ChunksFit(chunks: seq<seq<bv8>>) {
    forall k :: 0 <= k < |chunks| ==> |chunks[k]| <= READ_BUF
  }

  /** The chunks left after cutting the first one behind its first newline. */
  function AfterCut(chunks: seq<seq<bv8>>): seq<seq<bv8>>
    requires chunks != [] && NEWLINE in chunks[0]
  {
    [chunks[0][Position(chunks[0]).value + 1..]] + chunks[1..]
  }

  /** The text before that newline. */
  function BeforeCut(chunks: seq<seq<bv8>>): seq<bv8>
    requires chunks != [] && NEWLINE in chunks[0]
  {
    chunks[0][..Position(chunks[0]).value]
  }

  lemma EmitCut(chunks: seq<seq<bv8>>, acc: seq<bv8>, clean: bool)
    requires chunks != [] && NEWLINE in chunks[0]
    ensures Emit(chunks, acc, clean) == [Piece(acc + BeforeCut(chunks), true)] + Emit(AfterCut(chunks), [], clean)
  {
  }

  lemma FlatCut(chunks: seq<seq<bv8>>)
    requires chunks != [] && NEWLINE in chunks[0]
    ensures Flat(chunks) == BeforeCut(chunks) + ([NEWLINE] + Flat(AfterCut(chunks)))
    ensures NEWLINE !in BeforeCut(chunks) && |Flat(AfterCut(chunks))| < |Flat(chunks)|
  {
    var c, i := chunks[0], Position(chunks[0]).value;
    assert AfterCut(chunks)[0] == c[i + 1..] && AfterCut(chunks)[1..] == chunks[1..];
    assert c == c[..i] + ([NEWLINE] + c[i + 1..]);
    Reassociate(c[..i], [NEWLINE] + c[i + 1..], Flat(chunks[1..]));
    Reassociate([NEWLINE], c[i + 1..], Flat(chunks[1..]));
  }

  lemma AccCut(chunks: seq<seq<bv8>>, acc: seq<bv8>)
    requires chunks != [] && NEWLINE in chunks[0]
    ensures acc + Flat(chunks) == (acc + BeforeCut(chunks)) + [NEWLINE] + Flat(AfterCut(chunks))
  {
    FlatCut(chunks);
    Reassociate(acc, BeforeCut(chunks), [NEWLINE] + Flat(AfterCut(chunks)));
    Reassociate(acc + BeforeCut(chunks), [NEWLINE], Flat(AfterCut(chunks)));
  }

  lemma EmitWhole(chunks: seq<seq<bv8>>, acc: seq<bv8>, clean: bool)
    requires chunks != [] && NEWLINE !in chunks[0]
    ensures Emit(chunks, acc, clean) ==
      if |acc + chunks[0]| >= MAX_LINE then [Piece(acc + chunks[0], false)] + Emit(chunks[1..], [], clean)
      else Emit(chunks[1..], acc + chunks[0], clean)
  {
  }

  // ----- nothing is lost, nothing is invented

  lemma RebuiltCons(p: Piece, rest: seq<Piece>, lost: seq<bv8>, input: seq<bv8>)
    requires Rebuilt(rest) + lost == input
    ensures Rebuilt([p] + rest) + lost == p.bytes + (if p.terminated then [NEWLINE] else []) + input
  {
    assert ([p] + rest)[1..] == rest;
  }

  lemma RebuiltOpen(text: seq<bv8>, rest: seq<Piece>, lost: seq<bv8>, input: seq<bv8>)
    requires Rebuilt(rest) + lost == input
    ensures Rebuilt([Piece(text, false)] + rest) + lost == text + input
  {
    RebuiltCons(Piece(text, false), rest, lost, input);
    assert text + [] == text;
  }

  lemma RebuiltAfterNewline(chunks: seq<seq<bv8>>, acc: seq<bv8>, clean: bool, lost: seq<bv8>)
    requires chunks != [] && NEWLINE in chunks[0]
    requires Rebuilt(Emit(AfterCut(chunks), [], clean)) + lost == Flat(AfterCut(chunks))
    ensures Rebuilt(Emit(chunks, acc, clean)) + lost == acc + Flat(chunks)
  {
    EmitCut(chunks, acc, clean);
    AccCut(chunks, acc);
    RebuiltCons(Piece(acc + BeforeCut(chunks), true), Emit(AfterCut(chunks), [], clean), lost, Flat(AfterCut(chunks)));
  }

  lemma RebuiltAfterFlush(chunks: seq<seq<bv8>>, acc: seq<bv8>, clean: bool, lost: seq<bv8>)
    requires chunks != [] && NEWLINE !in chunks[0] && |acc + chunks[0]| >= MAX_LINE
    requires Rebuilt(Emit(chunks[1..], [], clean)) + lost == Flat(chunks[1..])
    ensures Rebuilt(Emit(chunks, acc, clean)) + lost == acc + Flat(chunks)
  {
    EmitWhole(chunks, acc, clean);
    RebuiltOpen(acc + chunks[0], Emit(chunks[1..], [], clean), lost, Flat(chunks[1..]));
    Reassociate(acc, chunks[0], Flat(chunks[1..]));
  }

  /** The emitted pieces rebuild the input exactly, but for what a read error loses: less than MAX_LINE
      bytes without a newline. */
  lemma {:induction false} EmitRebuilds(chunks: seq<seq<bv8>>, acc: seq<bv8>, clean: bool) returns (lost: seq<bv8>)
    requires NEWLINE !in acc && |acc| < MAX_LINE
    ensures Rebuilt(Emit(chunks, acc, clean)) + lost == acc + Flat(chunks)
    ensures clean ==> lost == []
    ensures |lost| < MAX_LINE && NEWLINE !in lost
    decreases |Flat(chunks)|, |chunks|
  {
    if chunks == [] {
      lost := if clean then [] else acc;
      RebuiltCons(Piece(acc, false), [], [], []);
      assert acc + Flat(chunks) == acc;
    } else if NEWLINE in chunks[0] {
      FlatCut(chunks);
      lost := EmitRebuilds(AfterCut(chunks), [], clean);
      EmptyPlus(Flat(AfterCut(chunks)));
      RebuiltAfterNewline(chunks, acc, clean, lost);
    } else if |acc + chunks[0]| >= MAX_LINE {
      lost := EmitRebuilds(chunks[1..], [], clean);
      EmptyPlus(Flat(chunks[1..]));
      RebuiltAfterFlush(chunks, acc, clean, lost);
    } else {
      NotIn(acc, chunks[0]);
      lost := EmitRebuilds(chunks[1..], acc + chunks[0], clean);
      EmitWhole(chunks, acc, clean);
      Reassociate(acc, chunks[0], Flat(chunks[1..]));
    }
  }

  lemma EmptyPlus<T>(s: seq<T>)
    ensures [] + s == s
  {
  }

  lemma NotIn(a: seq<bv8>, b: seq<bv8>)
    requires NEWLINE !in a && NEWLINE !in b
    ensures NEWLINE !in a + b
  {
  }

  /** Memory is bounded: no piece exceeds MAX_LINE - 1 bytes plus one buffer. And none holds a newline. */
  lemma {:induction false} PiecesBounded(chunks: seq<seq<bv8>>, acc: seq<bv8>, clean: bool)
    requires NEWLINE !in acc && |acc| < MAX_LINE && ChunksFit(chunks)
    ensures forall k :: 0 <= k < |Emit(chunks, acc, clean)| ==>
      && |Emit(chunks, acc, clean)[k].bytes| <= 1048575 + 65536
      && NEWLINE !in Emit(chunks, acc, clean)[k].bytes
    decreases |Flat(chunks)|, |chunks|
  {
    if chunks != [] {
      if NEWLINE in chunks[0] {
        FlatCut(chunks);
        EmitCut(chunks, acc, clean);
        NotIn(acc, BeforeCut(chunks));
        PiecesBounded(AfterCut(chunks), [], clean);
      } else {
        EmitWhole(chunks, acc, clean);
        NotIn(acc, chunks[0]);
        PiecesBounded(chunks[1..], if |acc + chunks[0]| >= MAX_LINE then [] else acc + chunks[0], clean);
      }
    }
  }

  /** A line is split, or ends open, only when it is long or last: every piece that no newline ended holds at
      least MAX_LINE bytes, but for the last one at a clean end of the file. A read error emits no tail. */
  lemma {:induction false} OpenPiecesAreLongOrLast(chunks: seq<seq<bv8>>, acc: seq<bv8>, clean: bool)
    ensures var pieces := Emit(chunks, acc, clean);
      forall k :: 0 <= k < |pieces| && !pieces[k].terminated ==>
        |pieces[k].bytes| >= 1048576 || (clean && k == |pieces| - 1)
    decreases |Flat(chunks)|, |chunks|
  {
    if chunks != [] {
      if NEWLINE in chunks[0] {
        FlatCut(chunks);
        EmitCut(chunks, acc, clean);
        OpenPiecesAreLongOrLast(AfterCut(chunks), [], clean);
      } else {
        EmitWhole(chunks, acc, clean);
        OpenPiecesAreLongOrLast(chunks[1..], if |acc + chunks[0]| >= MAX_LINE then [] else acc + chunks[0], clean);
      }
    }
  }

  // ----- plain line splitting

  /** Every terminated line is shorter than MAX_LINE (1 MiB), and an unterminated last one at most MAX_LINE. */
  ghost predicate LinesFit(s: seq<bv8>) {
    forall k :: 0 <= k < |Split(s)| ==>
      |Split(s)[k]| < 1048576 || (k == |Split(s)| - 1 && EndsOpen(s) && |Split(s)[k]| == 1048576)
  }

  lemma FitAfterNewline(a: seq<bv8>, b: seq<bv8>)
    requires NEWLINE !in a
    ensures LinesFit(a + [NEWLINE] + b) <==> |a| < MAX_LINE && LinesFit(b)
  {
    SplitAtNewline(a, b);
    var s := a + [NEWLINE] + b;
    assert b != [] ==> s[|s| - 1] == b[|b| - 1];
    assert b == [] ==> s[|s| - 1] == NEWLINE;
    assert forall k :: 0 <= k < |Split(b)| ==> Split(s)[k + 1] == Split(b)[k];
    if LinesFit(s) {
      assert |Split(s)[0]| < MAX_LINE;
      forall k | 0 <= k < |Split(b)|
        ensures |Split(b)[k]| < MAX_LINE || (k == |Split(b)| - 1 && EndsOpen(b) && |Split(b)[k]| == MAX_LINE)
      {
        assert |Split(s)[k + 1]| < MAX_LINE || (k + 1 == |Split(s)| - 1 && EndsOpen(s) && |Split(s)[k + 1]| == MAX_LINE);
      }
    }
  }

  lemma FlushMeansLongLine(a: seq<bv8>, b: seq<bv8>)
    requires NEWLINE !in a && |a| >= MAX_LINE && LinesFit(a + b)
    ensures b == [] && |a| == MAX_LINE
  {
    SplitOpen(a, b);
    assert |Split(a + b)[0]| >= |a|;
    assert |Split(a + b)| == 1;
  }

  lemma PlainCut(chunks: seq<seq<bv8>>, acc: seq<bv8>)
    requires NEWLINE !in acc && chunks != [] && NEWLINE in chunks[0]
    requires Texts(Emit(AfterCut(chunks), [], true)) == Split(Flat(AfterCut(chunks)))
    ensures Texts(Emit(chunks, acc, true)) == Split(acc + Flat(chunks))
  {
    EmitCut(chunks, acc, true);
    AccCut(chunks, acc);
    FlatCut(chunks);
    NotIn(acc, BeforeCut(chunks));
    SplitAtNewline(acc + BeforeCut(chunks), Flat(AfterCut(chunks)));
    TextsCons(Piece(acc + BeforeCut(chunks), true), Emit(AfterCut(chunks), [], true));
  }

  lemma FitCut(chunks: seq<seq<bv8>>, acc: seq<bv8>)
    requires NEWLINE !in acc && chunks != [] && NEWLINE in chunks[0] && LinesFit(acc + Flat(chunks))
    ensures LinesFit(Flat(AfterCut(chunks))) && |Flat(AfterCut(chunks))| < |Flat(chunks)|
  {
    AccCut(chunks, acc);
    FlatCut(chunks);
    NotIn(acc, BeforeCut(chunks));
    FitAfterNewline(acc + BeforeCut(chunks), Flat(AfterCut(chunks)));
  }

  lemma PlainFlush(chunks: seq<seq<bv8>>, acc: seq<bv8>)
    requires NEWLINE !in acc && chunks != [] && NEWLINE !in chunks[0] && |acc + chunks[0]| >= MAX_LINE
    requires LinesFit(acc + Flat(chunks))
    ensures Flat(chunks[1..]) == [] && LinesFit([]) && acc + Flat(chunks) == acc + chunks[0]
    ensures Emit(chunks[1..], [], true) == [] ==> Texts(Emit(chunks, acc, true)) == Split(acc + Flat(chunks))
  {
    var a := acc + chunks[0];
    NotIn(acc, chunks[0]);
    Reassociate(acc, chunks[0], Flat(chunks[1..]));
    FlushMeansLongLine(a, Flat(chunks[1..]));
    assert a + [] == a;
    SplitOpen(a, []);
    EmitWhole(chunks, acc, true);
    TextsCons(Piece(a, false), Emit(chunks[1..], [], true));
  }

  /** When the lines fit, the output is plain line splitting, however the input was cut into chunks. */
  lemma {:induction false} FittingLinesSplitPlainly(chunks: seq<seq<bv8>>, acc: seq<bv8>)
    requires NEWLINE !in acc && |acc| < MAX_LINE && LinesFit(acc + Flat(chunks))
    ensures Texts(Emit(chunks, acc, true)) == Split(acc + Flat(chunks))
    decreases |Flat(chunks)|, |chunks|
  {
    if chunks == [] {
      assert acc + [] == acc;
      if acc != [] {
        SplitOpen(acc, []);
      }
    } else if NEWLINE in chunks[0] {
      FitCut(chunks, acc);
      EmptyPlus(Flat(AfterCut(chunks)));
      FittingLinesSplitPlainly(AfterCut(chunks), []);
      PlainCut(chunks, acc);
    } else if |acc + chunks[0]| >= MAX_LINE {
      PlainFlush(chunks, acc);
      EmptyPlus(Flat(chunks[1..]));
      FittingLinesSplitPlainly(chunks[1..], []);
    } else {
      EmitWhole(chunks, acc, true);
      NotIn(acc, chunks[0]);
      Reassociate(acc, chunks[0], Flat(chunks[1..]));
      FittingLinesSplitPlainly(chunks[1..], acc + chunks[0]);
    }
  }

  lemma TextsCons(p: Piece, rest: seq<Piece>)
    ensures Texts([p] + rest) == [p.bytes] + Texts(rest)
  {
  }

  // ----- and only then

  function Singles(s: seq<bv8>): seq<seq<bv8>> {
    if s == [] then [] else [[s[0]]] + Singles(s[1..])
  }

  lemma {:induction false} SinglesFlat(s: seq<bv8>)
    ensures Flat(Singles(s)) == s && ChunksFit(Singles(s))
    ensures forall k :: 0 <= k < |Singles(s)| ==> |Singles(s)[k]| == 1
  {
    if s != [] {
      SinglesFlat(s[1..]);
      assert Singles(s)[1..] == Singles(s[1..]);
    }
  }

  /** One byte at a time, unfolded. */
  lemma EmitSingle(s: seq<bv8>, acc: seq<bv8>)
    requires s != [] && NEWLINE !in acc && |acc| < MAX_LINE
    ensures s[0] == NEWLINE ==> Emit(Singles(s), acc, true) == [Piece(acc, true)] + Emit(Singles(s[1..]), [], true)
    ensures s[0] != NEWLINE ==>
      Emit(Singles(s), acc, true) ==
        if |acc + [s[0]]| >= MAX_LINE then [Piece(acc + [s[0]], false)] + Emit(Singles(s[1..]), [], true)
        else Emit(Singles(s[1..]), acc + [s[0]], true)
  {
    var chunks := Singles(s);
    assert chunks[0] == [s[0]] && chunks[1..] == Singles(s[1..]);
    if s[0] == NEWLINE {
      assert chunks[0][0] in chunks[0];
      EmitCut(chunks, acc, true);
      assert BeforeCut(chunks) == [] && AfterCut(chunks) == [[]] + Singles(s[1..]);
      assert acc + [] == acc;
      SkipEmptyHead(Singles(s[1..]), true);
    } else {
      EmitWhole(chunks, acc, true);
    }
  }

  /** Byte-wise reading never emits fewer pieces than there are lines. */
  lemma {:induction false} NoFewerPieces(s: seq<bv8>, acc: seq<bv8>)
    requires NEWLINE !in acc && |acc| < MAX_LINE
    ensures |Emit(Singles(s), acc, true)| >= |Split(acc + s)|
    decreases |s|
  {
    if s == [] {
      assert acc + s == acc;
      if acc != [] {
        SplitOpen(acc, []);
      }
    } else {
      EmitSingle(s, acc);
      var t := s[1..];
      if s[0] == NEWLINE {
        assert acc + s == acc + [NEWLINE] + t && [] + t == t;
        SplitAtNewline(acc, t);
        NoFewerPieces(t, []);
      } else {
        var acc' := acc + [s[0]];
        assert acc + s == acc' + t && [] + t == t;
        if |acc'| >= MAX_LINE {
          NoFewerPieces(t, []);
          SplitOpen(acc', t);
        } else {
          NoFewerPieces(t, acc');
        }
      }
    }
  }

  lemma SameTail<T>(x: T, a: seq<T>, b: seq<T>)
    requires [x] + a == [x] + b
    ensures a == b
  {
    assert ([x] + a)[1..] == a && ([x] + b)[1..] == b;
  }

  lemma TextsAtNewline(s: seq<bv8>, acc: seq<bv8>)
    requires NEWLINE !in acc && |acc| < MAX_LINE && s != [] && s[0] == NEWLINE
    ensures Texts(Emit(Singles(s), acc, true)) == [acc] + Texts(Emit(Singles(s[1..]), [], true))
  {
    EmitSingle(s, acc);
    TextsCons(Piece(acc, true), Emit(Singles(s[1..]), [], true));
  }

  lemma LinesAtNewline(a: seq<bv8>, s: seq<bv8>, lines: seq<seq<bv8>>)
    requires NEWLINE !in a && s != [] && s[0] == NEWLINE && [a] + lines == Split(a + s)
    ensures lines == Split(s[1..])
  {
    assert a + s == a + [NEWLINE] + s[1..];
    SplitAtNewline(a, s[1..]);
    SameTail(a, lines, Split(s[1..]));
  }

  lemma PlainAfterNewline(s: seq<bv8>, acc: seq<bv8>)
    requires NEWLINE !in acc && |acc| < MAX_LINE && s != [] && s[0] == NEWLINE
    requires Texts(Emit(Singles(s), acc, true)) == Split(acc + s)
    ensures Texts(Emit(Singles(s[1..]), [], true)) == Split(s[1..])
  {
    TextsAtNewline(s, acc);
    LinesAtNewline(acc, s, Texts(Emit(Singles(s[1..]), [], true)));
  }

  lemma TextsAtFlush(s: seq<bv8>, acc: seq<bv8>)
    requires NEWLINE !in acc && |acc| == MAX_LINE - 1 && s != [] && s[0] != NEWLINE
    ensures Texts(Emit(Singles(s), acc, true)) == [acc + [s[0]]] + Texts(Emit(Singles(s[1..]), [], true))
  {
    EmitSingle(s, acc);
    TextsCons(Piece(acc + [s[0]], false), Emit(Singles(s[1..]), [], true));
  }

  lemma Shift(acc: seq<bv8>, s: seq<bv8>)
    requires s != []
    ensures acc + s == (acc + [s[0]]) + s[1..]
  {
  }

  lemma PlainAfterFlush(s: seq<bv8>, acc: seq<bv8>)
    requires NEWLINE !in acc && |acc| == MAX_LINE - 1 && s != [] && s[0] != NEWLINE
    requires Texts(Emit(Singles(s), acc, true)) == Split(acc + s)
    ensures LinesFit(acc + s)
  {
    TextsAtFlush(s, acc);
    Shift(acc, s);
    FlushedPlainly(s[1..], acc + [s[0]]);
  }

  /** If byte-wise reading splits plainly, the lines fit. */
  lemma {:induction false} PlainSplitMeansFit(s: seq<bv8>, acc: seq<bv8>)
    requires NEWLINE !in acc && |acc| < MAX_LINE
    requires Texts(Emit(Singles(s), acc, true)) == Split(acc + s)
    ensures LinesFit(acc + s)
    decreases |s|
  {
    if s == [] {
      assert acc + s == acc;
      if acc != [] {
        SplitOpen(acc, []);
        assert acc + [] == acc;
      }
    } else if s[0] == NEWLINE {
      PlainAfterNewline(s, acc);
      assert [] + s[1..] == s[1..];
      PlainSplitMeansFit(s[1..], []);
      assert acc + s == acc + [NEWLINE] + s[1..];
      FitAfterNewline(acc, s[1..]);
    } else if |acc| == MAX_LINE - 1 {
      PlainAfterFlush(s, acc);
    } else {
      EmitSingle(s, acc);
      assert acc + s == (acc + [s[0]]) + s[1..];
      PlainSplitMeansFit(s[1..], acc + [s[0]]);
    }
  }

  /** A piece cut at exactly MAX_LINE agrees with plain splitting only at the end of the input. */
  lemma FlushedPlainly(t: seq<bv8>, acc: seq<bv8>)
    requires NEWLINE !in acc && |acc| == MAX_LINE
    requires [acc] + Texts(Emit(Singles(t), [], true)) == Split(acc + t)
    ensures LinesFit(acc + t)
  {
    SplitOpen(acc, t);
    if t == [] {
      assert acc + t == acc;
      assert acc[|acc| - 1] in acc;
    } else {
      assert Split(acc + t)[0] == acc;
      assert t[0] == NEWLINE;
      var u := t[1..];
      assert t == [] + [NEWLINE] + u && [] + u == u;
      SplitAtNewline([], u);
      EmitSingle(t, []);
      NoFewerPieces(u, []);
    }
  }

  /** The output equals plain line splitting for every way of cutting the input into chunks if and only
      if the lines fit. */
  lemma PlainForEveryChunkingIffLinesFit(s: seq<bv8>)
    ensures (forall chunks :: Flat(chunks) == s && ChunksFit(chunks) ==> Texts(Emit(chunks, [], true)) == Split(s))
            <==> LinesFit(s)
  {
    assert [] + s == s;
    if LinesFit(s) {
      forall chunks | Flat(chunks) == s && ChunksFit(chunks) ensures Texts(Emit(chunks, [], true)) == Split(s) {
        FittingLinesSplitPlainly(chunks, []);
      }
    }
    SinglesFlat(s);
    if forall chunks :: Flat(chunks) == s && ChunksFit(chunks) ==> Texts(Emit(chunks, [], true)) == Split(s) {
      assert Texts(Emit(Singles(s), [], true)) == Split(s);
      PlainSplitMeansFit(s, []);
    }
  }

  // ----- the reader

  /** The unread chunks after consuming `n` bytes of the first. */
  function Consumed(pending: seq<seq<bv8>>, n: nat): seq<seq<bv8>>
    requires pending != [] && n <= |pending[0]|
  {
    if n == |pending[0]| then pending[1..] else [pending[0][n..]] + pending[1..]
  }

  lemma SkipEmptyHead(chunks: seq<seq<bv8>>, clean: bool)
    ensures Emit([[]] + chunks, [], clean) == Emit(chunks, [], clean)
    ensures Flat([[]] + chunks) == Flat(chunks)
  {
    assert ([[]] + chunks)[1..] == chunks;
    var none: seq<bv8> := [];
    assert none + none == none;
  }

  lemma ReadToNewline(pending: seq<seq<bv8>>, acc: seq<bv8>, clean: bool)
    requires pending != [] && NEWLINE in pending[0]
    ensures var i := Position(pending[0]).value;
      && Emit(pending, acc, clean) ==
           [Piece(acc + pending[0][..i], true)] + Emit(Consumed(pending, i + 1), [], clean)
      && |Flat(Consumed(pending, i + 1))| < |Flat(pending)|
  {
    EmitCut(pending, acc, clean);
    FlatCut(pending);
    if Position(pending[0]).value + 1 == |pending[0]| {
      assert AfterCut(pending) == [[]] + pending[1..];
      SkipEmptyHead(pending[1..], clean);
    }
  }

  lemma ReadWholeChunk(pending: seq<seq<bv8>>, acc: seq<bv8>, clean: bool)
    requires pending != [] && NEWLINE !in pending[0]
    ensures Emit(pending, acc, clean) ==
      if |acc + pending[0]| >= MAX_LINE
      then [Piece(acc + pending[0], false)] + Emit(pending[1..], [], clean)
      else Emit(pending[1..], acc + pending[0], clean)
    ensures |Flat(pending)| == |pending[0]| + |Flat(pending[1..])|
  {
    EmitWhole(pending, acc, clean);
  }

  /** The buffered reader and the accumulator of one pump. `pending` holds what the source will still
      deliver, one buffer at a time; its head is the part of the buffer not yet consumed. */
  class Reader {
    var pending: seq<seq<bv8>>
    var acc: seq<bv8>
    const clean: bool

    ghost predicate Valid()
      reads this
    {
      && (forall k :: 0 <= k < |pending| ==> 0 < |pending[k]| <= READ_BUF)
      && NEWLINE !in acc
      && |acc| < MAX_LINE
    }

    constructor (chunks: seq<seq<bv8>>, clean: bool)
      requires forall k :: 0 <= k < |chunks| ==> 0 < |chunks[k]| <= READ_BUF
      ensures Valid() && pending == chunks && acc == [] && this.clean == clean
    {
      pending := chunks;
      acc := [];
      this.clean := clean;
    }

    /** The buffered bytes: empty at the end of the file, None on a read error. */
    method FillBuf() returns (buf: Option<seq<bv8>>)
      requires Valid()
      ensures buf == if pending != [] then Some(pending[0]) else if clean then Some([]) else None
    {
      if pending != [] {
        buf := Some(pending[0]);
      } else {
        buf := if clean then Some([]) else None;
      }
    }

    method Consume(n: nat)
      requires Valid() && pending != [] && n <= |pending[0]|
      modifies this`pending
      ensures Valid() && pending == Consumed(old(pending), n)
    {
      if n == |pending[0]| {
        pending := pending[1..];
      } else {
        pending := [pending[0][n..]] + pending[1..];
      }
    }

    /** What is left to read and emit; every emitted line makes it smaller. */
    ghost function Remaining(): nat
      reads this
    {
      |Flat(pending)| + |acc|
    }

    /** One call emits the next piece of the specification, or None when there is none left. */
    method ReadCappedLine() returns (line: Option<seq<bv8>>, ghost terminated: bool)
      requires Valid()
      modifies this
      ensures Valid()
      ensures line.Some? ==>
        && old(Emit(pending, acc, clean)) == [Piece(line.value, terminated)] + Emit(pending, acc, clean)
        && acc == []
        && Remaining() < old(Remaining())
      ensures line.None? ==> old(Emit(pending, acc, clean)) == [] && pending == []
    {
      terminated := false;
      while true
        invariant Valid()
        invariant Emit(pending, acc, clean) == old(Emit(pending, acc, clean))
        invariant Remaining() == old(Remaining())
        decreases |pending|
      {
        var filled := FillBuf();
        if filled.None? {
          return None, false;
        }
        var buf := filled.value;
        if buf == [] {
          if acc == [] {
            return None, false;
          }
          var tail := acc;
          acc := [];
          return Some(tail), false;
        }
        var at := Position(buf);
        if at.Some? {
          ReadToNewline(pending, acc, clean);
          var text := acc + buf[..at.value];
          Consume(at.value + 1);
          acc := [];
          return Some(text), true;
        }
        ReadWholeChunk(pending, acc, clean);
        var grown := acc + buf;
        Consume(|buf|);
        if |grown| >= MAX_LINE {
          acc := [];
          return Some(grown), false;
        }
        acc := grown;
      }
    }
  }

  lemma OneMoreLine(done: seq<Piece>, p: Piece, rest: seq<Piece>)
    ensures done + ([p] + rest) == (done + [p]) + rest
    ensures Texts(done + [p]) == Texts(done) + [p.bytes]
  {
  }

  /** A pump's loop over its reader: every emitted line, in order. */
  method ReadAll(reader: Reader) returns (lines: seq<seq<bv8>>)
    requires reader.Valid() && reader.acc == []
    modifies reader
    ensures lines == Texts(old(Emit(reader.pending, [], reader.clean)))
  {
    lines := [];
    ghost var whole := Emit(reader.pending, [], reader.clean);
    ghost var done: seq<Piece> := [];
    ghost var left := whole;
    var more := true;
    while more
      invariant reader.Valid() && (more ==> left == Emit(reader.pending, reader.acc, reader.clean))
      invariant done + left == whole && (!more ==> left == [])
      invariant lines == Texts(done)
      decreases more, reader.Remaining()
    {
      ghost var terminated;
      var line;
      line, terminated := reader.ReadCappedLine();
      match line {
        case None => more := false;
        case Some(text) =>
          lines := lines + [text];
          ghost var rest := Emit(reader.pending, reader.acc, reader.clean);
          OneMoreLine(done, Piece(text, terminated), rest);
          done, left := done + [Piece(text, terminated)], rest;
      }
    }
  }
}
