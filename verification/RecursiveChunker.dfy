/** The recursive chunker of rag-embedder. */
module RecursiveChunker {
  import opened Text

  /* Split on ever finer separators, merge the pieces greedily up to the token budget with an overlap,
     then merge small spans away. */

  /** The tokenizer is uninterpreted. */
  datatype Tokenizer = Tokenizer(count: string -> nat, encode: string -> seq<int>, decode: seq<int> -> string)

  datatype Config = Config(chunkSize: int, overlap: int, minChunkSize: int)

  datatype Span = Span(start: nat, end: nat)

  ghost predicate Covers(spans: seq<Span>, c: nat) {
    exists k :: 0 <= k < |spans| && spans[k].start <= c < spans[k].end
  }

  /** Character c of the text lies inside an occurrence of one of the separators. */
  ghost predicate InSeparator(text: string, seps: seq<string>, c: nat) {
    exists s: string, q: nat :: s in seps && OccursAt(text, s, q) && q <= c < q + |s|
  }

  // ----- Splitting ------------------------------------------------------------------------------

  /** The spans of a text that starts at `offset` of the document. */
  function SplitSpans(t: Tokenizer, cfg: Config, text: string, offset: nat, seps: seq<string>): seq<Span>
    decreases |seps|, 1, 0
  {
    if seps == [] || seps[0] == "" then [Span(offset, offset + |text|)]
    else PieceSpans(t, cfg, Split(text, seps[0]), offset, seps)
  }

  /** The spans of consecutive pieces, the first of which starts at `pos`. */
  function PieceSpans(t: Tokenizer, cfg: Config, pieces: seq<string>, pos: nat, seps: seq<string>): seq<Span>
    requires seps != []
    decreases |seps|, 0, |pieces|
  {
    if pieces == [] then []
    else
      OnePiece(t, cfg, pieces[0], pos, seps) +
      PieceSpans(t, cfg, pieces[1..], pos + |pieces[0]| + |seps[0]|, seps)
  }

  function OnePiece(t: Tokenizer, cfg: Config, piece: string, pos: nat, seps: seq<string>): seq<Span>
    requires seps != []
    decreases |seps|, 0, 0
  {
    if piece == "" then []
    else if t.count(piece) <= cfg.chunkSize || |seps| == 1 then [Span(pos, pos + |piece|)]
    else SplitSpans(t, cfg, piece, pos, seps[1..])
  }

  /** Non-empty, disjoint, in order, inside [lo, hi). */
  ghost predicate Ascending(spans: seq<Span>, lo: nat, hi: nat) {
    && (forall k :: 0 <= k < |spans| ==> lo <= spans[k].start < spans[k].end <= hi)
    && (forall k, l :: 0 <= k < l < |spans| ==> spans[k].end <= spans[l].start)
  }

  lemma AscendingAppend(a: seq<Span>, b: seq<Span>, lo: nat, mid: nat, hi: nat)
    requires Ascending(a, lo, mid) && Ascending(b, mid, hi) && lo <= mid <= hi
    ensures Ascending(a + b, lo, hi)
  {
  }

  lemma {:induction false} SplitAscending(t: Tokenizer, cfg: Config, text: string, offset: nat, seps: seq<string>)
    requires text != ""
    ensures Ascending(SplitSpans(t, cfg, text, offset, seps), offset, offset + |text|)
    decreases |seps|, 1, 0
  {
    if seps != [] && seps[0] != "" {
      JoinSplit(text, seps[0]);
      PiecesAscending(t, cfg, Split(text, seps[0]), offset, seps);
    }
  }

  lemma {:induction false} PiecesAscending(t: Tokenizer, cfg: Config, pieces: seq<string>, pos: nat, seps: seq<string>)
    requires seps != [] && pieces != []
    ensures Ascending(PieceSpans(t, cfg, pieces, pos, seps), pos, pos + |JoinWith(pieces, seps[0])|)
    decreases |seps|, 0, |pieces|
  {
    var piece, next := pieces[0], pos + |pieces[0]| + |seps[0]|;
    var first := OnePiece(t, cfg, piece, pos, seps);
    JoinCons(pieces, seps[0]);
    assert Ascending(first, pos, pos + |piece|) by {
      if piece != "" && !(t.count(piece) <= cfg.chunkSize || |seps| == 1) {
        SplitAscending(t, cfg, piece, pos, seps[1..]);
      }
    }
    if |pieces| > 1 {
      var tail, hi := PieceSpans(t, cfg, pieces[1..], next, seps), next + |JoinWith(pieces[1..], seps[0])|;
      PiecesAscending(t, cfg, pieces[1..], next, seps);
      AscendingAppend(first, tail, pos, next, hi);
    } else {
      assert PieceSpans(t, cfg, pieces, pos, seps) == first + [] == first;
    }
  }

  lemma SeparatorInWhole(a: string, b: string, c: string, seps: seq<string>, more: seq<string>, i: nat)
    requires InSeparator(b, seps, i) && forall s :: s in seps ==> s in more
    ensures InSeparator(a + b + c, more, |a| + i)
  {
    var s: string, q: nat :| s in seps && OccursAt(b, s, q) && q <= i < q + |s|;
    OccursInWhole(a, b, c, s, q);
    assert s in more;
  }

  lemma CoversLeft(a: seq<Span>, b: seq<Span>, c: nat)
    ensures Covers(a, c) ==> Covers(a + b, c)
    ensures Covers(b, c) ==> Covers(a + b, c)
  {
    if Covers(a, c) {
      var k :| 0 <= k < |a| && a[k].start <= c < a[k].end;
      assert (a + b)[k] == a[k];
    }
    if Covers(b, c) {
      var k :| 0 <= k < |b| && b[k].start <= c < b[k].end;
      assert (a + b)[|a| + k] == b[k];
    }
  }

  /** Splitting loses only separators. */
  lemma {:induction false} SplitLosesSeparators(t: Tokenizer, cfg: Config, text: string, offset: nat,
      seps: seq<string>, c: nat)
    requires text != "" && c < |text|
    ensures Covers(SplitSpans(t, cfg, text, offset, seps), offset + c) || InSeparator(text, seps, c)
    decreases |seps|, 1, 0
  {
    if seps == [] || seps[0] == "" {
      assert SplitSpans(t, cfg, text, offset, seps)[0].start <= offset + c;
    } else {
      JoinSplit(text, seps[0]);
      PiecesLoseSeparators(t, cfg, Split(text, seps[0]), offset, seps, c);
    }
  }

  lemma {:induction false} PiecesLoseSeparators(t: Tokenizer, cfg: Config, pieces: seq<string>, pos: nat,
      seps: seq<string>, c: nat)
    requires seps != [] && pieces != [] && c < |JoinWith(pieces, seps[0])|
    ensures Covers(PieceSpans(t, cfg, pieces, pos, seps), pos + c) || InSeparator(JoinWith(pieces, seps[0]), seps, c)
    decreases |seps|, 0, |pieces|
  {
    var piece, sep, rest := pieces[0], seps[0], JoinWith(pieces[1..], seps[0]);
    var next := pos + |piece| + |sep|;
    JoinCons(pieces, sep);
    if c < |piece| {
      OneLosesSeparators(t, cfg, piece, pos, seps, c);
    } else if c >= |piece| + |sep| {
      PiecesLoseSeparators(t, cfg, pieces[1..], next, seps, c - |piece| - |sep|);
    }
    LoseStep(OnePiece(t, cfg, piece, pos, seps), PieceSpans(t, cfg, pieces[1..], next, seps),
             piece, if |pieces| == 1 then "" else sep + rest, rest, seps, pos, c);
  }

  /** One piece, its separator and the rest: a lost character is in the separator, or lost in one of
      the two parts. */
  lemma LoseStep(first: seq<Span>, tail: seq<Span>, piece: string, after: string, rest: string, seps: seq<string>,
      pos: nat, c: nat)
    requires seps != [] && c < |piece + after| && (after == "" || after == seps[0] + rest)
    requires c < |piece| ==> Covers(first, pos + c) || InSeparator(piece, seps, c)
    requires c >= |piece| + |seps[0]| ==> Covers(tail, pos + c) || InSeparator(rest, seps, c - |piece| - |seps[0]|)
    ensures Covers(first + tail, pos + c) || InSeparator(piece + after, seps, c)
  {
    var sep := seps[0];
    CoversLeft(first, tail, pos + c);
    if c < |piece| {
      if InSeparator(piece, seps, c) {
        assert piece + after == "" + piece + after;
        SeparatorInWhole("", piece, after, seps, seps, c);
      }
    } else if c < |piece| + |sep| {
      OccursInWhole(piece, sep, rest, sep, 0);
      assert piece + after == piece + sep + rest;
    } else if InSeparator(rest, seps, c - |piece| - |sep|) {
      assert piece + after == (piece + sep) + rest + "";
      SeparatorInWhole(piece + sep, rest, "", seps, seps, c - |piece| - |sep|);
    }
  }

  lemma {:induction false} OneLosesSeparators(t: Tokenizer, cfg: Config, piece: string, pos: nat, seps: seq<string>, c: nat)
    requires seps != [] && c < |piece|
    ensures Covers(OnePiece(t, cfg, piece, pos, seps), pos + c) || InSeparator(piece, seps, c)
    decreases |seps|, 0, 0
  {
    if t.count(piece) <= cfg.chunkSize || |seps| == 1 {
      assert OnePiece(t, cfg, piece, pos, seps)[0].start <= pos + c;
    } else {
      SplitLosesSeparators(t, cfg, piece, pos, seps[1..], c);
      if InSeparator(piece, seps[1..], c) {
        assert "" + piece + "" == piece;
        SeparatorInWhole("", piece, "", seps[1..], seps, c);
      }
    }
  }

  /** The separators tried before the first empty one. */
  function Tried(seps: seq<string>): seq<string> {
    if seps == [] || seps[0] == "" then [] else [seps[0]] + Tried(seps[1..])
  }

  ghost predicate FreeOf(text: string, seps: seq<string>) { forall s :: s in seps ==> Free(text, s) }

  /** A span is an atom of the budget, or cannot be split any further. */
  ghost predicate Atomic(t: Tokenizer, cfg: Config, text: string, offset: nat, seps: seq<string>, span: Span) {
    && offset <= span.start <= span.end <= offset + |text|
    && var part := text[span.start - offset..span.end - offset];
       t.count(part) <= cfg.chunkSize || FreeOf(part, Tried(seps))
  }

  /** A span over the budget contains none of the separators: splitting went as far as it can. */
  lemma {:induction false} SplitAtomic(t: Tokenizer, cfg: Config, text: string, offset: nat, seps: seq<string>, k: nat)
    requires text != "" && k < |SplitSpans(t, cfg, text, offset, seps)|
    ensures Atomic(t, cfg, text, offset, seps, SplitSpans(t, cfg, text, offset, seps)[k])
    decreases |seps|, 1, 0
  {
    if seps != [] && seps[0] != "" {
      JoinSplit(text, seps[0]);
      SplitIsFree(text, seps[0]);
      PiecesAtomic(t, cfg, Split(text, seps[0]), offset, seps, k);
    } else {
      assert text[0..|text|] == text;
    }
  }

  lemma {:induction false} PiecesAtomic(t: Tokenizer, cfg: Config, pieces: seq<string>, pos: nat, seps: seq<string>, k: nat)
    requires seps != [] && seps[0] != "" && pieces != [] && k < |PieceSpans(t, cfg, pieces, pos, seps)|
    requires forall i :: 0 <= i < |pieces| ==> Free(pieces[i], seps[0])
    ensures Atomic(t, cfg, JoinWith(pieces, seps[0]), pos, seps, PieceSpans(t, cfg, pieces, pos, seps)[k])
    decreases |seps|, 0, |pieces|
  {
    var piece, next := pieces[0], pos + |pieces[0]| + |seps[0]|;
    var first, tail := OnePiece(t, cfg, piece, pos, seps), PieceSpans(t, cfg, pieces[1..], next, seps);
    assert PieceSpans(t, cfg, pieces, pos, seps) == first + tail;
    if k < |first| {
      OneAtomic(t, cfg, piece, pos, seps, k);
      FirstAtomic(t, cfg, pieces, pos, seps, first[k]);
    } else {
      PiecesAtomic(t, cfg, pieces[1..], next, seps, k - |first|);
      LaterAtomic(t, cfg, pieces, pos, seps, tail[k - |first|]);
    }
  }

  lemma FirstAtomic(t: Tokenizer, cfg: Config, pieces: seq<string>, pos: nat, seps: seq<string>, span: Span)
    requires seps != [] && pieces != [] && Atomic(t, cfg, pieces[0], pos, seps, span)
    ensures Atomic(t, cfg, JoinWith(pieces, seps[0]), pos, seps, span)
  {
    var piece, sep := pieces[0], seps[0];
    var after := if |pieces| == 1 then "" else sep + JoinWith(pieces[1..], sep);
    JoinCons(pieces, sep);
    assert JoinWith(pieces, sep) == "" + piece + after;
    AtomicInWhole(t, cfg, "", piece, after, pos, seps, span);
  }

  lemma LaterAtomic(t: Tokenizer, cfg: Config, pieces: seq<string>, pos: nat, seps: seq<string>, span: Span)
    requires seps != [] && |pieces| > 1
    requires Atomic(t, cfg, JoinWith(pieces[1..], seps[0]), pos + |pieces[0]| + |seps[0]|, seps, span)
    ensures Atomic(t, cfg, JoinWith(pieces, seps[0]), pos, seps, span)
  {
    var piece, sep, rest := pieces[0], seps[0], JoinWith(pieces[1..], seps[0]);
    JoinCons(pieces, sep);
    assert JoinWith(pieces, sep) == (piece + sep) + rest + "";
    AtomicInWhole(t, cfg, piece + sep, rest, "", pos, seps, span);
  }

  lemma AtomicInWhole(t: Tokenizer, cfg: Config, a: string, b: string, c: string, pos: nat, seps: seq<string>, span: Span)
    requires Atomic(t, cfg, b, pos + |a|, seps, span)
    ensures Atomic(t, cfg, a + b + c, pos, seps, span)
  {
    var lo := pos + |a|;
    assert (a + b + c)[span.start - pos..span.end - pos] == b[span.start - lo..span.end - lo];
  }

  lemma {:induction false} OneAtomic(t: Tokenizer, cfg: Config, piece: string, pos: nat, seps: seq<string>, k: nat)
    requires seps != [] && seps[0] != "" && Free(piece, seps[0]) && k < |OnePiece(t, cfg, piece, pos, seps)|
    ensures Atomic(t, cfg, piece, pos, seps, OnePiece(t, cfg, piece, pos, seps)[k])
    decreases |seps|, 0, 0
  {
    if t.count(piece) <= cfg.chunkSize || |seps| == 1 {
      assert piece[0..|piece|] == piece;
      assert |seps| == 1 ==> Tried(seps) == [seps[0]];
    } else {
      SplitAtomic(t, cfg, piece, pos, seps[1..], k);
      var span := SplitSpans(t, cfg, piece, pos, seps[1..])[k];
      FreeInside(piece, seps[0], span.start - pos, span.end - pos);
    }
  }

  /** Where the p-th piece begins. */
  function PieceStart(pieces: seq<string>, sep: string, p: nat): nat
    requires p < |pieces|
  {
    if p == 0 then 0 else |pieces[0]| + |sep| + PieceStart(pieces[1..], sep, p - 1)
  }

  lemma {:induction false} PieceAtStart(pieces: seq<string>, sep: string, p: nat)
    requires p < |pieces|
    ensures OccursAt(JoinWith(pieces, sep), pieces[p], PieceStart(pieces, sep, p))
  {
    JoinCons(pieces, sep);
    if p == 0 {
      assert JoinWith(pieces, sep)[0..|pieces[0]|] == pieces[0];
    } else {
      PieceAtStart(pieces[1..], sep, p - 1);
      assert JoinWith(pieces, sep) == (pieces[0] + sep) + JoinWith(pieces[1..], sep) + "";
      OccursInWhole(pieces[0] + sep, JoinWith(pieces[1..], sep), "", pieces[p], PieceStart(pieces[1..], sep, p - 1));
    }
  }

  lemma {:induction false} PieceIsSpan(t: Tokenizer, cfg: Config, pieces: seq<string>, pos: nat, seps: seq<string>, p: nat)
    requires seps != [] && p < |pieces| && pieces[p] != "" && t.count(pieces[p]) <= cfg.chunkSize
    ensures var start := pos + PieceStart(pieces, seps[0], p);
            Span(start, start + |pieces[p]|) in PieceSpans(t, cfg, pieces, pos, seps)
  {
    if p > 0 {
      PieceIsSpan(t, cfg, pieces[1..], pos + |pieces[0]| + |seps[0]|, seps, p - 1);
    }
  }

  /** A piece between two of the first separators that fits the budget is split no further: it is a span. */
  lemma FittingPieceStaysWhole(t: Tokenizer, cfg: Config, text: string, offset: nat, seps: seq<string>,
      pieces: seq<string>, p: nat)
    requires seps != [] && seps[0] != "" && pieces == Split(text, seps[0])
    requires p < |pieces| && pieces[p] != "" && t.count(pieces[p]) <= cfg.chunkSize
    ensures OccursAt(text, pieces[p], PieceStart(pieces, seps[0], p))
    ensures var start := offset + PieceStart(pieces, seps[0], p);
            Span(start, start + |pieces[p]|) in SplitSpans(t, cfg, text, offset, seps)
  {
    JoinSplit(text, seps[0]);
    PieceAtStart(pieces, seps[0], p);
    PieceIsSpan(t, cfg, pieces, offset, seps, p);
  }

  // ----- Merging to the budget -------------------------------------------------------------------

  const CHARS_PER_TOKEN := 4

  /** The number of characters at the end of the text that the last `overlap` tokens take up. */
  function OverlapChars(t: Tokenizer, text: string, overlap: int): (n: nat)
    ensures n <= |text|
  {
    if overlap <= 0 || text == "" then 0
    else
      var tokens := t.encode(text);
      if |tokens| <= overlap then |text|
      else
        var idx := RFind(text, t.decode(tokens[|tokens| - overlap..]), |text| + 1);
        if idx == -1 then (if |text| < overlap * CHARS_PER_TOKEN then |text| else overlap * CHARS_PER_TOKEN)
        else |text| - idx
  }

  function Fits(t: Tokenizer, cfg: Config, text: string, start: nat, end: nat): bool {
    t.count(Slice(text, start, end)) <= cfg.chunkSize
  }

  /** Where a new chunk starts, given the finished one and the span that did not fit. */
  function NewStart(t: Tokenizer, cfg: Config, text: string, done: Span, next: Span): nat {
    if cfg.overlap > 0 then
      var start := next.start - OverlapChars(t, Slice(text, done.start, done.end), cfg.overlap);
      if start > done.start then start else done.start
    else next.start
  }

  /** The overlap, told apart: nothing, the whole text when it has no more tokens than the overlap, the
      last occurrence of the decoded last tokens up to the end, or four characters a token when these
      do not occur. */
  lemma OverlapLength(t: Tokenizer, text: string, overlap: int)
    requires text != "" && overlap > 0
    ensures |t.encode(text)| <= overlap ==> OverlapChars(t, text, overlap) == |text|
    ensures |t.encode(text)| > overlap ==>
              var n, tail := OverlapChars(t, text, overlap), LastTokens(t, text, overlap);
              if Free(text, tail) then n == if |text| < overlap * 4 then |text| else overlap * 4
              else OccursAt(text, tail, |text| - n) && forall i: nat :: i > |text| - n ==> !OccursAt(text, tail, i)
  {
    if |t.encode(text)| > overlap {
      var tail := LastTokens(t, text, overlap);
      var idx := RFind(text, tail, |text| + 1);
      assert forall i: nat :: i > |text| ==> !OccursAt(text, tail, i);
      if idx == -1 {
        assert forall i: nat :: !OccursAt(text, tail, i);
      }
    }
  }

  /** The last `overlap` tokens of a text, decoded. */
  function LastTokens(t: Tokenizer, text: string, overlap: int): string {
    var tokens := t.encode(text);
    if 0 < overlap < |tokens| then t.decode(tokens[|tokens| - overlap..]) else text
  }

  /** Without an overlap a new span starts at its atom, otherwise the overlap's length before it, but
      never before the finished span. */
  lemma NewStartMeans(t: Tokenizer, cfg: Config, text: string, done: Span, next: Span)
    ensures cfg.overlap <= 0 ==> NewStart(t, cfg, text, done, next) == next.start
    ensures cfg.overlap > 0 ==>
              var start := NewStart(t, cfg, text, done, next);
              var back := OverlapChars(t, Slice(text, done.start, done.end), cfg.overlap);
              && start >= done.start && start >= next.start - back
              && (start == done.start || start + back == next.start)
  {
  }

  /** Where the text ends with its decoded last tokens, the overlap is as long as these. */
  lemma OverlapOfTail(t: Tokenizer, text: string, overlap: int)
    requires text != "" && overlap > 0
    requires var tail := LastTokens(t, text, overlap); |tail| <= |text| && text[|text| - |tail|..] == tail
    ensures OverlapChars(t, text, overlap) == |LastTokens(t, text, overlap)|
  {
    OverlapLength(t, text, overlap);
    var tail := LastTokens(t, text, overlap);
    if |t.encode(text)| > overlap {
      assert OccursAt(text, tail, |text| - |tail|);
      var n := OverlapChars(t, text, overlap);
      assert OccursAt(text, tail, |text| - n);
    }
  }

  /** The overlap is measured back from the next span, so the separator in between counts: where the text
      of the finished span ends with its decoded last tokens, the new span holds all of these exactly
      when no separator lies between the two spans; otherwise it begins as much later. */
  lemma OverlapExactly(t: Tokenizer, cfg: Config, text: string, done: Span, next: Span)
    requires cfg.overlap > 0 && done.start < done.end <= next.start && done.end <= |text|
    requires var part, tail := text[done.start..done.end], LastTokens(t, text[done.start..done.end], cfg.overlap);
             |tail| <= |part| && part[|part| - |tail|..] == tail
    ensures var tail := LastTokens(t, text[done.start..done.end], cfg.overlap);
            var start := NewStart(t, cfg, text, done, next);
            && start == (if next.start - |tail| > done.start then next.start - |tail| else done.start)
            && (start <= done.end - |tail| <==> next.start == done.end)
    ensures var tail := LastTokens(t, text[done.start..done.end], cfg.overlap);
            text[done.end - |tail|..done.end] == tail
  {
    var part := text[done.start..done.end];
    OverlapOfTail(t, part, cfg.overlap);
    SliceOfSlice(text, done.start, done.end, |part| - |LastTokens(t, part, cfg.overlap)|, |part|);
  }

  function MergeFrom(t: Tokenizer, cfg: Config, text: string, current: Span, spans: seq<Span>): seq<Span>
    decreases |spans|
  {
    if spans == [] then [current]
    else
      var next := spans[0];
      if Fits(t, cfg, text, current.start, next.end) then
        MergeFrom(t, cfg, text, Span(current.start, next.end), spans[1..])
      else
        [current] + MergeFrom(t, cfg, text, Span(NewStart(t, cfg, text, current, next), next.end), spans[1..])
  }

  function MergeSpans(t: Tokenizer, cfg: Config, text: string, spans: seq<Span>): seq<Span> {
    if spans == [] then [] else MergeFrom(t, cfg, text, spans[0], spans[1..])
  }

  /** Non-empty spans with non-decreasing starts and strictly increasing ends. */
  ghost predicate Stepping(spans: seq<Span>) {
    && (forall k :: 0 <= k < |spans| ==> spans[k].start < spans[k].end)
    && (forall k, l :: 0 <= k < l < |spans| ==> spans[k].start <= spans[l].start && spans[k].end < spans[l].end)
  }

  lemma {:induction false} MergeSteps(t: Tokenizer, cfg: Config, text: string, current: Span, spans: seq<Span>, hi: nat)
    requires current.start < current.end <= hi && Ascending(spans, current.end, hi)
    ensures var out := MergeFrom(t, cfg, text, current, spans);
            && out != [] && out[0].start == current.start && current.end <= out[0].end
            && Stepping(out) && out[|out| - 1].end <= hi
    decreases |spans|
  {
    if spans != [] {
      var next, rest := spans[0], spans[1..];
      assert Ascending(rest, next.end, hi);
      if Fits(t, cfg, text, current.start, next.end) {
        MergeSteps(t, cfg, text, Span(current.start, next.end), rest, hi);
      } else {
        MergeSteps(t, cfg, text, Span(NewStart(t, cfg, text, current, next), next.end), rest, hi);
      }
    }
  }

  lemma {:induction false} MergeCovers(t: Tokenizer, cfg: Config, text: string, current: Span, spans: seq<Span>,
      hi: nat, c: nat)
    requires current.start < current.end <= hi && Ascending(spans, current.end, hi)
    requires current.start <= c < current.end || Covers(spans, c)
    ensures Covers(MergeFrom(t, cfg, text, current, spans), c)
    decreases |spans|
  {
    if spans == [] {
      assert MergeFrom(t, cfg, text, current, spans)[0] == current;
    } else {
      var next, rest := spans[0], spans[1..];
      assert Ascending(rest, next.end, hi);
      if Covers(spans, c) && !(next.start <= c < next.end) {
        var k :| 0 <= k < |spans| && spans[k].start <= c < spans[k].end;
        assert rest[k - 1].start <= c;
      }
      if Fits(t, cfg, text, current.start, next.end) {
        MergeCovers(t, cfg, text, Span(current.start, next.end), rest, hi, c);
      } else {
        var more := MergeFrom(t, cfg, text, Span(NewStart(t, cfg, text, current, next), next.end), rest);
        CoversLeft([current], more, c);
        if current.start <= c < current.end {
          assert [current][0].start <= c;
        } else {
          MergeCovers(t, cfg, text, Span(NewStart(t, cfg, text, current, next), next.end), rest, hi, c);
        }
      }
    }
  }

  /** A merged span holds the atoms from `first` up to `next`: it ends with the last of them, it fits the
      budget with each one added after the first, and with the atom `next` it would not fit. */
  ghost predicate Group(t: Tokenizer, cfg: Config, text: string, atoms: seq<Span>, span: Span, first: nat, next: nat) {
    && first < next <= |atoms|
    && span.end == atoms[next - 1].end
    && (forall m :: first < m < next ==> Fits(t, cfg, text, span.start, atoms[m].end))
    && (next < |atoms| ==> !Fits(t, cfg, text, span.start, atoms[next].end))
  }

  /** Where the group after the k-th begins. */
  function NextFirst(firsts: seq<nat>, k: nat, n: nat): nat { if k + 1 < |firsts| then firsts[k + 1] else n }

  /** The k-th merged span: it starts at its first atom, moved back by the overlap of the span before. */
  ghost predicate GroupAt(t: Tokenizer, cfg: Config, text: string, atoms: seq<Span>, out: seq<Span>, firsts: seq<nat>, k: nat)
    requires k < |out| == |firsts|
  {
    && Group(t, cfg, text, atoms, out[k], firsts[k], NextFirst(firsts, k, |atoms|))
    && (k > 0 ==> out[k].start == NewStart(t, cfg, text, out[k - 1], atoms[firsts[k]]))
  }

  /** The atoms split into consecutive groups, one for each merged span. */
  ghost predicate Grouped(t: Tokenizer, cfg: Config, text: string, atoms: seq<Span>, out: seq<Span>, firsts: seq<nat>) {
    |out| == |firsts| && forall k :: 0 <= k < |out| ==> GroupAt(t, cfg, text, atoms, out, firsts, k)
  }

  /** The merge from a current span that holds the atoms i to j - 1. */
  lemma {:induction false} MergeGroups(t: Tokenizer, cfg: Config, text: string, atoms: seq<Span>, current: Span, i: nat, j: nat)
    returns (firsts: seq<nat>)
    requires i < j <= |atoms| && current.end == atoms[j - 1].end
    requires forall m :: i < m < j ==> Fits(t, cfg, text, current.start, atoms[m].end)
    ensures var out := MergeFrom(t, cfg, text, current, atoms[j..]);
            && out != [] && out[0].start == current.start && firsts != [] && firsts[0] == i
            && Grouped(t, cfg, text, atoms, out, firsts)
    decreases |atoms| - j
  {
    if j == |atoms| {
      firsts := [i];
    } else {
      var next := atoms[j];
      assert atoms[j..][0] == next && atoms[j..][1..] == atoms[j + 1..];
      if Fits(t, cfg, text, current.start, next.end) {
        firsts := MergeGroups(t, cfg, text, atoms, Span(current.start, next.end), i, j + 1);
      } else {
        var started := Span(NewStart(t, cfg, text, current, next), next.end);
        var more := MergeGroups(t, cfg, text, atoms, started, j, j + 1);
        firsts := [i] + more;
        GroupsCons(t, cfg, text, atoms, current, i, MergeFrom(t, cfg, text, started, atoms[j + 1..]), more);
      }
    }
  }

  lemma GroupsCons(t: Tokenizer, cfg: Config, text: string, atoms: seq<Span>, current: Span, i: nat,
      out: seq<Span>, firsts: seq<nat>)
    requires Grouped(t, cfg, text, atoms, out, firsts) && out != []
    requires Group(t, cfg, text, atoms, current, i, firsts[0]) && firsts[0] < |atoms|
    requires out[0].start == NewStart(t, cfg, text, current, atoms[firsts[0]])
    ensures Grouped(t, cfg, text, atoms, [current] + out, [i] + firsts)
  {
    var all, starts := [current] + out, [i] + firsts;
    forall k | 0 <= k < |all| ensures GroupAt(t, cfg, text, atoms, all, starts, k) {
      if k > 0 {
        assert GroupAt(t, cfg, text, atoms, out, firsts, k - 1);
        assert NextFirst(starts, k, |atoms|) == NextFirst(firsts, k - 1, |atoms|);
      }
    }
  }

  /** The whole merge: consecutive groups from the first atom on, the first span starting there. */
  lemma MergeIsGreedy(t: Tokenizer, cfg: Config, text: string, atoms: seq<Span>) returns (firsts: seq<nat>)
    requires atoms != []
    ensures var out := MergeSpans(t, cfg, text, atoms);
            && Grouped(t, cfg, text, atoms, out, firsts)
            && firsts != [] && firsts[0] == 0 && out[0].start == atoms[0].start
  {
    firsts := MergeGroups(t, cfg, text, atoms, atoms[0], 0, 1);
  }

  /** A merged span fits the budget, or it is one split atom with nothing in front but the overlap with
      the span before. */
  lemma MergeFitsOrAtom(t: Tokenizer, cfg: Config, text: string, atoms: seq<Span>, k: nat) returns (i: nat)
    requires atoms != [] && k < |MergeSpans(t, cfg, text, atoms)|
    ensures var out := MergeSpans(t, cfg, text, atoms);
            || t.count(Slice(text, out[k].start, out[k].end)) <= cfg.chunkSize
            || (i < |atoms| && out[k].end == atoms[i].end &&
                out[k].start == if k == 0 then atoms[i].start else NewStart(t, cfg, text, out[k - 1], atoms[i]))
  {
    var firsts := MergeIsGreedy(t, cfg, text, atoms);
    assert GroupAt(t, cfg, text, atoms, MergeSpans(t, cfg, text, atoms), firsts, k);
    i := firsts[k];
  }

  /** Between two merged spans: the atom right after the end of the first would have broken the budget,
      and the second starts at that atom, moved back by the overlap. */
  lemma MergeBoundary(t: Tokenizer, cfg: Config, text: string, atoms: seq<Span>, k: nat) returns (i: nat)
    requires 0 < k < |MergeSpans(t, cfg, text, atoms)|
    ensures var out := MergeSpans(t, cfg, text, atoms);
            && 0 < i < |atoms| && out[k - 1].end == atoms[i - 1].end
            && t.count(Slice(text, out[k - 1].start, atoms[i].end)) > cfg.chunkSize
            && out[k].start == NewStart(t, cfg, text, out[k - 1], atoms[i])
  {
    var firsts := MergeIsGreedy(t, cfg, text, atoms);
    assert GroupAt(t, cfg, text, atoms, MergeSpans(t, cfg, text, atoms), firsts, k - 1);
    assert GroupAt(t, cfg, text, atoms, MergeSpans(t, cfg, text, atoms), firsts, k);
    i := firsts[k];
  }

  /** There is one greedy grouping: spans that group the atoms this way are the merged spans. */
  lemma {:induction false} GroupingIsUnique(t: Tokenizer, cfg: Config, text: string, atoms: seq<Span>,
      p: seq<Span>, ps: seq<nat>, q: seq<Span>, qs: seq<nat>, k: nat)
    requires Grouped(t, cfg, text, atoms, p, ps) && Grouped(t, cfg, text, atoms, q, qs) && p != [] && q != []
    requires ps[0] == qs[0] && p[0].start == q[0].start && k < |p|
    ensures k < |q| && p[k] == q[k] && ps[k] == qs[k] && NextFirst(ps, k, |atoms|) == NextFirst(qs, k, |atoms|)
  {
    assert GroupAt(t, cfg, text, atoms, p, ps, k);
    if k > 0 {
      GroupingIsUnique(t, cfg, text, atoms, p, ps, q, qs, k - 1);
    }
    assert GroupAt(t, cfg, text, atoms, q, qs, k);
    SameGroup(t, cfg, text, atoms, p[k], q[k], ps[k], NextFirst(ps, k, |atoms|), NextFirst(qs, k, |atoms|));
  }

  lemma SameGroup(t: Tokenizer, cfg: Config, text: string, atoms: seq<Span>, a: Span, b: Span, first: nat, m: nat, n: nat)
    requires Group(t, cfg, text, atoms, a, first, m) && Group(t, cfg, text, atoms, b, first, n) && a.start == b.start
    ensures m == n && a == b
  {
  }

  // ----- The overlap of merged spans ---------------------------------------------------------------

  /** A separator lies between any two spans. */
  ghost predicate Gapped(spans: seq<Span>) {
    forall k, l :: 0 <= k < l < |spans| ==> spans[k].end < spans[l].start
  }

  lemma GappedAppend(a: seq<Span>, b: seq<Span>, mid: nat, next: nat)
    requires Gapped(a) && Gapped(b) && mid < next
    requires (forall k :: 0 <= k < |a| ==> a[k].end <= mid) && forall k :: 0 <= k < |b| ==> next <= b[k].start
    ensures Gapped(a + b)
  {
  }

  lemma {:induction false} SplitGapped(t: Tokenizer, cfg: Config, text: string, offset: nat, seps: seq<string>)
    requires text != ""
    ensures Gapped(SplitSpans(t, cfg, text, offset, seps))
    decreases |seps|, 1, 0
  {
    if seps != [] && seps[0] != "" {
      PiecesGapped(t, cfg, Split(text, seps[0]), offset, seps);
    }
  }

  lemma {:induction false} PiecesGapped(t: Tokenizer, cfg: Config, pieces: seq<string>, pos: nat, seps: seq<string>)
    requires seps != [] && seps[0] != "" && pieces != []
    ensures Gapped(PieceSpans(t, cfg, pieces, pos, seps))
    decreases |seps|, 0, |pieces|
  {
    var piece, next := pieces[0], pos + |pieces[0]| + |seps[0]|;
    var first := OnePiece(t, cfg, piece, pos, seps);
    assert Gapped(first) && forall k :: 0 <= k < |first| ==> first[k].end <= pos + |piece| by {
      if piece != "" && t.count(piece) > cfg.chunkSize && |seps| > 1 {
        SplitGapped(t, cfg, piece, pos, seps[1..]);
        SplitAscending(t, cfg, piece, pos, seps[1..]);
      }
    }
    if |pieces| > 1 {
      PiecesGapped(t, cfg, pieces[1..], next, seps);
      PiecesAscending(t, cfg, pieces[1..], next, seps);
      GappedAppend(first, PieceSpans(t, cfg, pieces[1..], next, seps), pos + |piece|, next);
    } else {
      assert PieceSpans(t, cfg, pieces, pos, seps) == first + [] == first;
    }
  }

  /** Behind a separator. */
  lemma OverlapBehindGap(t: Tokenizer, cfg: Config, text: string, done: Span, next: Span)
    requires cfg.overlap > 0 && done.start < done.end < next.start && done.end <= |text|
    requires var part := Slice(text, done.start, done.end);
             var tail := LastTokens(t, part, cfg.overlap); |tail| <= |part| && part[|part| - |tail|..] == tail
    ensures var tail := LastTokens(t, Slice(text, done.start, done.end), cfg.overlap);
            var start := NewStart(t, cfg, text, done, next);
            start > done.end - |tail| && (start == next.start - |tail| || start == done.start)
  {
    OverlapExactly(t, cfg, text, done, next);
  }

  lemma MergedInText(t: Tokenizer, cfg: Config, text: string, atoms: seq<Span>, k: nat)
    requires Ascending(atoms, 0, |text|) && k < |MergeSpans(t, cfg, text, atoms)|
    ensures var span := MergeSpans(t, cfg, text, atoms)[k]; span.start < span.end <= |text|
  {
    AscendingTail(atoms, 0, |text|);
    MergeSteps(t, cfg, text, atoms[0], atoms[1..], |text|);
  }

  /** So where the text of a merged span ends with its decoded last tokens, the next span never holds all
      of them: it begins as much later as the separator in between is long, and where it would begin
      before the finished one it begins with it. */
  lemma OverlapFallsShort(t: Tokenizer, cfg: Config, text: string, seps: seq<string>, k: nat) returns (i: nat)
    requires text != "" && cfg.overlap > 0
    requires 0 < k < |MergeSpans(t, cfg, text, SplitSpans(t, cfg, text, 0, seps))|
    requires var done := MergeSpans(t, cfg, text, SplitSpans(t, cfg, text, 0, seps))[k - 1];
             var part := Slice(text, done.start, done.end);
             var tail := LastTokens(t, part, cfg.overlap); |tail| <= |part| && part[|part| - |tail|..] == tail
    ensures var atoms := SplitSpans(t, cfg, text, 0, seps);
            var out := MergeSpans(t, cfg, text, atoms);
            var tail := LastTokens(t, Slice(text, out[k - 1].start, out[k - 1].end), cfg.overlap);
            && i < |atoms| && atoms[i].start > out[k - 1].end && out[k].start > out[k - 1].end - |tail|
            && (out[k].start == atoms[i].start - |tail| || out[k].start == out[k - 1].start)
  {
    var atoms := SplitSpans(t, cfg, text, 0, seps);
    var out := MergeSpans(t, cfg, text, atoms);
    SplitGapped(t, cfg, text, 0, seps);
    SplitAscending(t, cfg, text, 0, seps);
    MergedInText(t, cfg, text, atoms, k - 1);
    i := MergeBoundary(t, cfg, text, atoms, k);
    OverlapBehindGap(t, cfg, text, out[k - 1], atoms[i]);
  }

  // ----- Merging small spans -----------------------------------------------------------------------

  function MergeSmall(spans: seq<Span>, minSize: int): seq<Span> {
    if spans == [] then []
    else
      var merged := MergeSmall(spans[..|spans| - 1], minSize);
      var span := spans[|spans| - 1];
      if merged != [] && span.end - span.start < minSize then
        merged[..|merged| - 1] + [Span(merged[|merged| - 1].start, span.end)]
      else merged + [span]
  }

  /** Stepping, seen from the end. */
  ghost predicate StepsToEnd(spans: seq<Span>) {
    spans == [] ||
    var front, span := spans[..|spans| - 1], spans[|spans| - 1];
    span.start < span.end && StepsToEnd(front) &&
    (front != [] ==> front[|front| - 1].start <= span.start && front[|front| - 1].end < span.end)
  }

  lemma {:induction false} SteppingToEnd(spans: seq<Span>)
    requires Stepping(spans)
    ensures StepsToEnd(spans)
  {
    if spans != [] {
      SteppingToEnd(spans[..|spans| - 1]);
    }
  }

  lemma {:induction false} EndToStepping(spans: seq<Span>)
    requires StepsToEnd(spans)
    ensures Stepping(spans)
  {
    if spans != [] {
      var front := spans[..|spans| - 1];
      EndToStepping(front);
      assert forall k :: 0 <= k < |front| ==> spans[k] == front[k];
      if front != [] {
        assert spans[|front| - 1] == front[|front| - 1];
      }
    }
  }

  /** Appending a later span, or stretching the last span to its end, keeps the order. */
  lemma AbsorbSteps(merged: seq<Span>, span: Span)
    requires StepsToEnd(merged) && span.start < span.end
    requires merged != [] ==> merged[|merged| - 1].start <= span.start && merged[|merged| - 1].end < span.end
    ensures StepsToEnd(merged + [span])
    ensures merged != [] ==> StepsToEnd(merged[..|merged| - 1] + [Span(merged[|merged| - 1].start, span.end)])
  {
    StepsAppend(merged, span);
    if merged != [] {
      StepsAppend(merged[..|merged| - 1], Span(merged[|merged| - 1].start, span.end));
    }
  }

  lemma StepsAppend(front: seq<Span>, span: Span)
    requires StepsToEnd(front) && span.start < span.end
    requires front != [] ==> front[|front| - 1].start <= span.start && front[|front| - 1].end < span.end
    ensures StepsToEnd(front + [span])
  {
    var spans := front + [span];
    assert spans[..|spans| - 1] == front && spans[|spans| - 1] == span;
  }

  /** Small spans are absorbed by the one before: the order stays, the last end stays. */
  lemma {:induction false} MergeSmallSteps(spans: seq<Span>, minSize: int)
    requires StepsToEnd(spans)
    ensures var out := MergeSmall(spans, minSize);
            && StepsToEnd(out) && (spans != [] ==> out != [])
            && (spans != [] ==> out[|out| - 1].end == spans[|spans| - 1].end && out[|out| - 1].start <= spans[|spans| - 1].start)
  {
    if spans != [] {
      var front, span := spans[..|spans| - 1], spans[|spans| - 1];
      MergeSmallSteps(front, minSize);
      AbsorbSteps(MergeSmall(front, minSize), span);
    }
  }

  /** Every span but the first has at least the minimum length. */
  ghost predicate LongAfterFirst(spans: seq<Span>, minSize: int) {
    forall k :: 0 < k < |spans| ==> spans[k].end - spans[k].start >= minSize
  }

  lemma {:induction false} MergeSmallLong(spans: seq<Span>, minSize: int)
    requires StepsToEnd(spans)
    ensures LongAfterFirst(MergeSmall(spans, minSize), minSize)
  {
    if spans != [] {
      MergeSmallSteps(spans[..|spans| - 1], minSize);
      MergeSmallLong(spans[..|spans| - 1], minSize);
    }
  }

  lemma {:induction false} MergeSmallCovers(spans: seq<Span>, minSize: int, c: nat)
    requires StepsToEnd(spans) && Covers(spans, c)
    ensures Covers(MergeSmall(spans, minSize), c)
  {
    var front, span := spans[..|spans| - 1], spans[|spans| - 1];
    var merged := MergeSmall(front, minSize);
    MergeSmallSteps(front, minSize);
    if !(span.start <= c < span.end) {
      var k :| 0 <= k < |spans| && spans[k].start <= c < spans[k].end;
      assert front[k] == spans[k];
      MergeSmallCovers(front, minSize, c);
    }
    AbsorbCovers(merged, span, c);
  }

  lemma AbsorbCovers(merged: seq<Span>, span: Span, c: nat)
    requires Covers(merged, c) || span.start <= c < span.end
    requires merged != [] ==> merged[|merged| - 1].end <= span.end && merged[|merged| - 1].start <= span.start
    ensures Covers(merged + [span], c)
    ensures merged != [] ==> Covers(merged[..|merged| - 1] + [Span(merged[|merged| - 1].start, span.end)], c)
  {
    CoversLeft(merged, [span], c);
    if span.start <= c < span.end {
      assert [span][0].start <= c < [span][0].end;
    }
    if merged != [] {
      var front, last := merged[..|merged| - 1], Span(merged[|merged| - 1].start, span.end);
      CoversLeft(front, [last], c);
      if last.start <= c < last.end {
        assert [last][0].start <= c < [last][0].end;
      } else {
        var l :| 0 <= l < |merged| && merged[l].start <= c < merged[l].end;
        assert front[l] == merged[l];
      }
    }
  }

  lemma {:induction false} NothingSmall(spans: seq<Span>, minSize: int)
    requires minSize <= 0 && Stepping(spans)
    ensures MergeSmall(spans, minSize) == spans
  {
    if spans != [] {
      NothingSmall(spans[..|spans| - 1], minSize);
    }
  }

  /** A span of the input opens a span of the output: the first one, and every one long enough. */
  predicate Opens(spans: seq<Span>, minSize: int, k: nat)
    requires k < |spans|
  {
    k == 0 || spans[k].end - spans[k].start >= minSize
  }

  /** An output span that one input span opens, with those before the next one that opens. */
  ghost predicate OpenedBy(spans: seq<Span>, minSize: int, span: Span, first: nat, next: nat) {
    && first < next <= |spans| && Opens(spans, minSize, first)
    && (forall k :: first < k < next ==> !Opens(spans, minSize, k))
    && span == Span(spans[first].start, spans[next - 1].end)
  }

  /** Exactly those spans open one, in order. */
  ghost predicate Opened(spans: seq<Span>, minSize: int, out: seq<Span>, firsts: seq<nat>) {
    && |out| == |firsts| && (spans == [] <==> out == []) && (firsts != [] ==> firsts[0] == 0)
    && forall n :: 0 <= n < |out| ==> OpenedBy(spans, minSize, out[n], firsts[n], NextFirst(firsts, n, |spans|))
  }

  lemma OpenedLonger(front: seq<Span>, more: seq<Span>, minSize: int, span: Span, first: nat, next: nat)
    requires OpenedBy(front, minSize, span, first, next)
    ensures OpenedBy(front + more, minSize, span, first, next)
  {
    var all := front + more;
    forall k | 0 <= k < |front| ensures Opens(all, minSize, k) <==> Opens(front, minSize, k) {
      assert all[k] == front[k];
    }
    assert all[next - 1] == front[next - 1];
  }

  lemma OpenedSnoc(front: seq<Span>, span: Span, minSize: int, out: seq<Span>, firsts: seq<nat>)
    requires Opened(front, minSize, out, firsts)
    requires front == [] || span.end - span.start >= minSize
    ensures Opened(front + [span], minSize, out + [span], firsts + [|front|])
  {
    var all, starts, spans := front + [span], firsts + [|front|], out + [span];
    forall n | 0 <= n < |spans| ensures OpenedBy(all, minSize, spans[n], starts[n], NextFirst(starts, n, |all|)) {
      if n < |firsts| {
        assert NextFirst(starts, n, |all|) == NextFirst(firsts, n, |front|);
        OpenedLonger(front, [span], minSize, out[n], firsts[n], NextFirst(firsts, n, |front|));
      }
    }
  }

  lemma LastStretched(front: seq<Span>, span: Span, minSize: int, last: Span, first: nat)
    requires OpenedBy(front, minSize, last, first, |front|) && span.end - span.start < minSize
    ensures OpenedBy(front + [span], minSize, Span(last.start, span.end), first, |front| + 1)
  {
    OpenedLonger(front, [span], minSize, last, first, |front|);
    assert !Opens(front + [span], minSize, |front|);
  }

  lemma OpenedStretch(front: seq<Span>, span: Span, minSize: int, out: seq<Span>, firsts: seq<nat>)
    requires Opened(front, minSize, out, firsts) && front != [] && span.end - span.start < minSize
    ensures Opened(front + [span], minSize, out[|out| - 1 := Span(out[|out| - 1].start, span.end)], firsts)
  {
    var all, last := front + [span], |out| - 1;
    var spans := out[last := Span(out[last].start, span.end)];
    forall n | 0 <= n < |out| ensures OpenedBy(all, minSize, spans[n], firsts[n], NextFirst(firsts, n, |all|)) {
      if n < last {
        assert NextFirst(firsts, n, |all|) == NextFirst(firsts, n, |front|);
        OpenedLonger(front, [span], minSize, out[n], firsts[n], NextFirst(firsts, n, |front|));
      } else {
        assert OpenedBy(front, minSize, out[last], firsts[last], NextFirst(firsts, last, |front|));
        LastStretched(front, span, minSize, out[last], firsts[last]);
      }
    }
  }

  /** Absorbing small spans: exactly the first span and those of the minimum length open a chunk, and
      each chunk runs to the end of the last span before the next of these. */
  lemma {:induction false} MergeSmallExactly(spans: seq<Span>, minSize: int) returns (firsts: seq<nat>)
    ensures Opened(spans, minSize, MergeSmall(spans, minSize), firsts)
  {
    if spans == [] {
      firsts := [];
    } else {
      var front, span := spans[..|spans| - 1], spans[|spans| - 1];
      assert spans == front + [span];
      var before := MergeSmallExactly(front, minSize);
      if front != [] && span.end - span.start < minSize {
        var out := MergeSmall(front, minSize);
        OpenedStretch(front, span, minSize, out, before);
        var last := Span(out[|out| - 1].start, span.end);
        assert out[..|out| - 1] + [last] == out[|out| - 1 := last];
        firsts := before;
      } else {
        OpenedSnoc(front, span, minSize, MergeSmall(front, minSize), before);
        firsts := before + [|front|];
      }
    }
  }

  // ----- The chunker -----------------------------------------------------------------------------------

  function ChunkSpans(t: Tokenizer, cfg: Config, text: string, seps: seq<string>): seq<Span> {
    MergeSmall(MergeSpans(t, cfg, text, SplitSpans(t, cfg, text, 0, seps)), cfg.minChunkSize)
  }

  lemma AscendingTail(spans: seq<Span>, lo: nat, hi: nat)
    requires Ascending(spans, lo, hi) && spans != []
    ensures Ascending(spans[1..], spans[0].end, hi)
  {
  }

  /** The chunker loses only separators: every character of a non-empty text outside all chunks lies
      in an occurrence of a separator. */
  lemma ChunkerLosesOnlySeparators(t: Tokenizer, cfg: Config, text: string, seps: seq<string>, c: nat)
    requires text != "" && c < |text|
    ensures Covers(ChunkSpans(t, cfg, text, seps), c) || InSeparator(text, seps, c)
  {
    var atoms := SplitSpans(t, cfg, text, 0, seps);
    SplitLosesSeparators(t, cfg, text, 0, seps, c);
    if Covers(atoms, c) {
      SplitAscending(t, cfg, text, 0, seps);
      AscendingTail(atoms, 0, |text|);
      MergeSteps(t, cfg, text, atoms[0], atoms[1..], |text|);
      var k :| 0 <= k < |atoms| && atoms[k].start <= c < atoms[k].end;
      assert k > 0 ==> atoms[1..][k - 1] == atoms[k];
      MergeCovers(t, cfg, text, atoms[0], atoms[1..], |text|, c);
      SteppingToEnd(MergeSpans(t, cfg, text, atoms));
      MergeSmallCovers(MergeSpans(t, cfg, text, atoms), cfg.minChunkSize, c);
    }
  }

  /** Chunks are non-empty spans of the text with non-decreasing starts and strictly increasing
      ends; all but the first have the minimum length. */
  lemma ChunksStep(t: Tokenizer, cfg: Config, text: string, seps: seq<string>)
    requires text != ""
    ensures var out := ChunkSpans(t, cfg, text, seps);
            && Stepping(out)
            && (forall k :: 0 <= k < |out| ==> out[k].end <= |text|)
            && LongAfterFirst(out, cfg.minChunkSize)
  {
    var atoms := SplitSpans(t, cfg, text, 0, seps);
    SplitAscending(t, cfg, text, 0, seps);
    if atoms != [] {
      AscendingTail(atoms, 0, |text|);
      MergeSteps(t, cfg, text, atoms[0], atoms[1..], |text|);
      SmallStep(MergeSpans(t, cfg, text, atoms), cfg.minChunkSize, |text|);
    }
  }

  lemma SmallStep(spans: seq<Span>, minSize: int, hi: nat)
    requires Stepping(spans) && spans != [] && spans[|spans| - 1].end <= hi
    ensures var out := MergeSmall(spans, minSize);
            Stepping(out) && LongAfterFirst(out, minSize) && forall k :: 0 <= k < |out| ==> out[k].end <= hi
  {
    SteppingToEnd(spans);
    MergeSmallSteps(spans, minSize);
    MergeSmallLong(spans, minSize);
    EndToStepping(MergeSmall(spans, minSize));
  }

  /** Before small spans are merged: an atom over the budget contains no separator, and the spans group the
      atoms greedily from the first on, each starting at its first atom moved back by the overlap. */
  lemma MergedSpansAreGreedy(t: Tokenizer, cfg: Config, text: string, seps: seq<string>) returns (firsts: seq<nat>)
    requires text != ""
    ensures var atoms := SplitSpans(t, cfg, text, 0, seps);
            var out := MergeSpans(t, cfg, text, atoms);
            && (forall k :: 0 <= k < |atoms| ==> Atomic(t, cfg, text, 0, seps, atoms[k]))
            && Grouped(t, cfg, text, atoms, out, firsts)
            && (atoms != [] ==> out != [] && firsts[0] == 0 && out[0].start == atoms[0].start)
  {
    var atoms := SplitSpans(t, cfg, text, 0, seps);
    forall k | 0 <= k < |atoms| ensures Atomic(t, cfg, text, 0, seps, atoms[k]) {
      SplitAtomic(t, cfg, text, 0, seps, k);
    }
    if atoms == [] {
      firsts := [];
    } else {
      firsts := MergeIsGreedy(t, cfg, text, atoms);
    }
  }

  // ----- The methods -----------------------------------------------------------------------------------

  method SplitRecursively(t: Tokenizer, cfg: Config, text: string, offset: nat, seps: seq<string>) returns (spans: seq<Span>)
    ensures spans == SplitSpans(t, cfg, text, offset, seps)
    decreases |seps|, 1
  {
    if seps == [] {
      return [Span(offset, offset + |text|)];
    }
    var sep := seps[0];
    if sep == "" {
      return [Span(offset, offset + |text|)];
    }
    var pieces := Split(text, sep);
    spans := [];
    var pos := offset;
    for i := 0 to |pieces|
      invariant pos >= offset
      invariant spans + PieceSpans(t, cfg, pieces[i..], pos, seps) == PieceSpans(t, cfg, pieces, offset, seps)
    {
      assert pieces[i..][0] == pieces[i] && pieces[i..][1..] == pieces[i + 1..];
      if pieces[i] == "" {
        pos := pos + |sep|;
        continue;
      }
      var inner := SplitPiece(t, cfg, pieces[i], pos, seps);
      spans := spans + inner;
      pos := pos + |pieces[i]| + |sep|;
    }
    assert pieces[|pieces|..] == [];
  }

  /** The body of the loop: a piece within the budget, or on the last separator, is kept whole. */
  method SplitPiece(t: Tokenizer, cfg: Config, piece: string, pos: nat, seps: seq<string>) returns (spans: seq<Span>)
    requires piece != "" && seps != []
    ensures spans == OnePiece(t, cfg, piece, pos, seps)
    decreases |seps|, 0
  {
    if t.count(piece) <= cfg.chunkSize || |seps| == 1 {
      spans := [Span(pos, pos + |piece|)];
    } else {
      spans := SplitRecursively(t, cfg, piece, pos, seps[1..]);
    }
  }

  method Merge(t: Tokenizer, cfg: Config, text: string, spans: seq<Span>) returns (result: seq<Span>)
    ensures result == MergeSpans(t, cfg, text, spans)
  {
    if spans == [] {
      return [];
    }
    result := [];
    var current := spans[0];
    for i := 1 to |spans|
      invariant result + MergeFrom(t, cfg, text, current, spans[i..]) == MergeFrom(t, cfg, text, spans[0], spans[1..])
    {
      var next := spans[i];
      assert spans[i..][0] == next && spans[i..][1..] == spans[i + 1..];
      if t.count(Slice(text, current.start, next.end)) <= cfg.chunkSize {
        current := Span(current.start, next.end);
      } else {
        var start := MovedStart(t, cfg, text, current, next);
        result := result + [current];
        current := Span(start, next.end);
      }
    }
    assert spans[|spans|..] == [];
    result := result + [current];
  }

  /** The overlap branch of the loop: the next span is pulled back into the finished one. */
  method MovedStart(t: Tokenizer, cfg: Config, text: string, done: Span, next: Span) returns (ns: nat)
    ensures ns == NewStart(t, cfg, text, done, next)
  {
    ns := next.start;
    if cfg.overlap > 0 {
      var chars := OverlapChars(t, Slice(text, done.start, done.end), cfg.overlap);
      ns := if ns > done.start + chars then ns - chars else done.start;
    }
  }

  lemma MergeSmallNext(spans: seq<Span>, minSize: int, i: nat)
    requires i < |spans|
    ensures var merged, span := MergeSmall(spans[..i], minSize), spans[i];
            MergeSmall(spans[..i + 1], minSize) ==
            if merged != [] && span.end - span.start < minSize then
              merged[|merged| - 1 := Span(merged[|merged| - 1].start, span.end)]
            else merged + [span]
  {
    assert spans[..i + 1][..i] == spans[..i];
  }

  method MergeSmallSpans(spans: seq<Span>, minSize: int) returns (merged: seq<Span>)
    requires Stepping(spans)
    ensures merged == MergeSmall(spans, minSize)
  {
    if minSize <= 0 || |spans| <= 1 {
      if minSize <= 0 {
        NothingSmall(spans, minSize);
      }
      return spans;
    }
    merged := [];
    for i := 0 to |spans|
      invariant merged == MergeSmall(spans[..i], minSize)
    {
      MergeSmallNext(spans, minSize, i);
      var span := spans[i];
      if merged != [] && span.end - span.start < minSize {
        merged := merged[|merged| - 1 := Span(merged[|merged| - 1].start, span.end)];
      } else {
        merged := merged + [span];
      }
    }
    assert spans[..|spans|] == spans;
  }

  /** chunk() returns early on an empty text, then splits, merges and absorbs small spans. */
  method Chunk(t: Tokenizer, cfg: Config, text: string, seps: seq<string>) returns (spans: seq<Span>)
    ensures text == "" ==> spans == []
    ensures text != "" ==> spans == ChunkSpans(t, cfg, text, seps)
  {
    if text == "" {
      return [];
    }
    var atoms := SplitRecursively(t, cfg, text, 0, seps);
    SplitAscending(t, cfg, text, 0, seps);
    var merged := Merge(t, cfg, text, atoms);
    if atoms != [] {
      AscendingTail(atoms, 0, |text|);
      MergeSteps(t, cfg, text, atoms[0], atoms[1..], |text|);
    }
    spans := MergeSmallSpans(merged, cfg.minChunkSize);
  }
}
