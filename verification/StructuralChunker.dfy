/** The structural chunker of rag-embedder: each section is split on ever finer separators, small pieces
    being appended to the span before, and the spans are merged up to the token budget.
 */
module StructuralChunker {
  import opened Text
  import opened RecursiveChunker
  import Sections

  /** The fallback separators, blank lines first. */
  const SEPARATORS := ["\n\n\n", "\n\n", "\n", ". ", " ", ""]

  // ----- Splitting a section ---------------------------------------------------------------------------

  function Stretch(spans: seq<Span>, end: nat): seq<Span>
    requires spans != []
  {
    spans[|spans| - 1 := Span(spans[|spans| - 1].start, end)]
  }

  function SplitRange(t: Tokenizer, cfg: Config, sub: string, offset: nat, seps: seq<string>): seq<Span>
    decreases |seps|, 1, 0
  {
    if seps == [] || seps[0] == "" then [Span(offset, offset + |sub|)]
    else AddPieces(t, cfg, [], Split(sub, seps[0]), offset, seps)
  }

  function AddPieces(t: Tokenizer, cfg: Config, spans: seq<Span>, pieces: seq<string>, pos: nat,
      seps: seq<string>): seq<Span>
    requires seps != []
    decreases |seps|, 0, |pieces|
  {
    if pieces == [] then spans
    else AddPieces(t, cfg, AddPiece(t, cfg, spans, pieces[0], pos, seps), pieces[1..], pos + |pieces[0]| + |seps[0]|, seps)
  }

  /** One piece: kept whole, small ones in the span before, or split on the finer separators. */
  function AddPiece(t: Tokenizer, cfg: Config, spans: seq<Span>, piece: string, pos: nat, seps: seq<string>): seq<Span>
    requires seps != []
    decreases |seps|, 0, 0
  {
    if piece == "" then spans
    else if t.count(piece) <= cfg.chunkSize || |seps| == 1 then
      if spans == [] || |piece| >= cfg.minChunkSize then spans + [Span(pos, pos + |piece|)] else Stretch(spans, pos + |piece|)
    else spans + SplitRange(t, cfg, piece, pos, seps[1..])
  }

  lemma StretchAscending(spans: seq<Span>, lo: nat, pos: nat, end: nat)
    requires Ascending(spans, lo, pos) && spans != [] && pos <= end
    ensures Ascending(Stretch(spans, end), lo, end)
  {
  }

  lemma StretchCovers(spans: seq<Span>, lo: nat, pos: nat, end: nat, c: nat)
    requires Ascending(spans, lo, pos) && spans != [] && pos <= end
    requires Covers(spans, c) || pos <= c < end
    ensures Covers(Stretch(spans, end), c)
  {
    var out := Stretch(spans, end);
    if Covers(spans, c) {
      var k :| 0 <= k < |spans| && spans[k].start <= c < spans[k].end;
      assert out[k].start <= c < out[k].end;
    } else {
      assert out[|out| - 1].start <= c < out[|out| - 1].end;
    }
  }

  /** Spans stay in order, without overlap. */
  lemma {:induction false} RangeAscending(t: Tokenizer, cfg: Config, sub: string, offset: nat, seps: seq<string>)
    requires sub != ""
    ensures Ascending(SplitRange(t, cfg, sub, offset, seps), offset, offset + |sub|)
    decreases |seps|, 1, 0
  {
    if seps != [] && seps[0] != "" {
      JoinSplit(sub, seps[0]);
      AddPiecesAscending(t, cfg, [], Split(sub, seps[0]), offset, seps, offset);
    }
  }

  lemma {:induction false} AddPiecesAscending(t: Tokenizer, cfg: Config, spans: seq<Span>, pieces: seq<string>,
      pos: nat, seps: seq<string>, lo: nat)
    requires seps != [] && pieces != [] && Ascending(spans, lo, pos) && lo <= pos
    ensures Ascending(AddPieces(t, cfg, spans, pieces, pos, seps), lo, pos + |JoinWith(pieces, seps[0])|)
    decreases |seps|, 0, |pieces|
  {
    var piece, rest := pieces[0], pieces[1..];
    AddPieceAscending(t, cfg, spans, piece, pos, seps, lo);
    JoinCons(pieces, seps[0]);
    if rest != [] {
      var added, next := AddPiece(t, cfg, spans, piece, pos, seps), pos + |piece| + |seps[0]|;
      AscendingWider(added, lo, pos + |piece|, next);
      AddPiecesAscending(t, cfg, added, rest, next, seps, lo);
    }
  }

  lemma AscendingWider(spans: seq<Span>, lo: nat, hi: nat, more: nat)
    requires Ascending(spans, lo, hi) && hi <= more
    ensures Ascending(spans, lo, more)
  {
  }

  lemma {:induction false} AddPieceAscending(t: Tokenizer, cfg: Config, spans: seq<Span>, piece: string, pos: nat,
      seps: seq<string>, lo: nat)
    requires seps != [] && Ascending(spans, lo, pos) && lo <= pos
    ensures Ascending(AddPiece(t, cfg, spans, piece, pos, seps), lo, pos + |piece|)
    decreases |seps|, 0, 0
  {
    var end := pos + |piece|;
    if piece == "" {
    } else if t.count(piece) <= cfg.chunkSize || |seps| == 1 {
      if spans == [] || |piece| >= cfg.minChunkSize {
        AscendingAppend(spans, [Span(pos, end)], lo, pos, end);
      } else {
        StretchAscending(spans, lo, pos, end);
      }
    } else {
      RangeAscending(t, cfg, piece, pos, seps[1..]);
      AscendingAppend(spans, SplitRange(t, cfg, piece, pos, seps[1..]), lo, pos, end);
    }
  }

  /** The spans cover at least what the recursive chunker's split covers: appending small pieces to the
      span before only adds the separators in between. */
  lemma {:induction false} RangeCovers(t: Tokenizer, cfg: Config, sub: string, offset: nat, seps: seq<string>, c: nat)
    requires sub != "" && Covers(SplitSpans(t, cfg, sub, offset, seps), c)
    ensures Covers(SplitRange(t, cfg, sub, offset, seps), c)
    decreases |seps|, 1, 0
  {
    if seps != [] && seps[0] != "" {
      AddPiecesCover(t, cfg, [], Split(sub, seps[0]), offset, seps, offset, c);
    }
  }

  lemma {:induction false} AddPiecesCover(t: Tokenizer, cfg: Config, spans: seq<Span>, pieces: seq<string>,
      pos: nat, seps: seq<string>, lo: nat, c: nat)
    requires seps != [] && Ascending(spans, lo, pos) && lo <= pos
    requires Covers(spans, c) || Covers(PieceSpans(t, cfg, pieces, pos, seps), c)
    ensures Covers(AddPieces(t, cfg, spans, pieces, pos, seps), c)
    decreases |seps|, 0, |pieces|
  {
    if pieces != [] {
      var piece, next := pieces[0], pos + |pieces[0]| + |seps[0]|;
      var added := AddPiece(t, cfg, spans, piece, pos, seps);
      AddPieceAscending(t, cfg, spans, piece, pos, seps, lo);
      AscendingWider(added, lo, pos + |piece|, next);
      if !Covers(PieceSpans(t, cfg, pieces[1..], next, seps), c) {
        CoversEither(OnePiece(t, cfg, piece, pos, seps), PieceSpans(t, cfg, pieces[1..], next, seps), c);
        AddPieceCovers(t, cfg, spans, piece, pos, seps, lo, c);
      }
      AddPiecesCover(t, cfg, added, pieces[1..], next, seps, lo, c);
    }
  }

  lemma CoversEither(a: seq<Span>, b: seq<Span>, c: nat)
    ensures Covers(a + b, c) ==> Covers(a, c) || Covers(b, c)
  {
    if Covers(a + b, c) {
      var k :| 0 <= k < |a + b| && (a + b)[k].start <= c < (a + b)[k].end;
      if k >= |a| {
        assert b[k - |a|] == (a + b)[k];
      }
    }
  }

  lemma {:induction false} AddPieceCovers(t: Tokenizer, cfg: Config, spans: seq<Span>, piece: string, pos: nat,
      seps: seq<string>, lo: nat, c: nat)
    requires seps != [] && Ascending(spans, lo, pos) && lo <= pos
    requires Covers(spans, c) || Covers(OnePiece(t, cfg, piece, pos, seps), c)
    ensures Covers(AddPiece(t, cfg, spans, piece, pos, seps), c)
    decreases |seps|, 0, 0
  {
    var end := pos + |piece|;
    if piece == "" {
    } else if t.count(piece) <= cfg.chunkSize || |seps| == 1 {
      if spans == [] || |piece| >= cfg.minChunkSize {
        CoversLeft(spans, [Span(pos, end)], c);
      } else {
        StretchCovers(spans, lo, pos, end, c);
      }
    } else {
      if Covers(OnePiece(t, cfg, piece, pos, seps), c) {
        RangeCovers(t, cfg, piece, pos, seps[1..], c);
      }
      CoversLeft(spans, SplitRange(t, cfg, piece, pos, seps[1..]), c);
    }
  }

  // ----- Small pieces and the budget ---------------------------------------------------------------

  /** Where every piece is long enough to stand alone, this is the recursive chunker's split. */
  lemma {:induction false} RangeIsSplit(t: Tokenizer, cfg: Config, sub: string, offset: nat, seps: seq<string>)
    requires cfg.minChunkSize <= 1
    ensures SplitRange(t, cfg, sub, offset, seps) == SplitSpans(t, cfg, sub, offset, seps)
    decreases |seps|, 1, 0
  {
    if seps != [] && seps[0] != "" {
      PiecesAreSplit(t, cfg, [], Split(sub, seps[0]), offset, seps);
    }
  }

  lemma {:induction false} PiecesAreSplit(t: Tokenizer, cfg: Config, spans: seq<Span>, pieces: seq<string>, pos: nat,
      seps: seq<string>)
    requires cfg.minChunkSize <= 1 && seps != []
    ensures AddPieces(t, cfg, spans, pieces, pos, seps) == spans + PieceSpans(t, cfg, pieces, pos, seps)
    decreases |seps|, 0, |pieces|
  {
    if pieces != [] {
      PieceIsSplit(t, cfg, spans, pieces[0], pos, seps);
      var added, next := AddPiece(t, cfg, spans, pieces[0], pos, seps), pos + |pieces[0]| + |seps[0]|;
      PiecesAreSplit(t, cfg, added, pieces[1..], next, seps);
      Associative(spans, OnePiece(t, cfg, pieces[0], pos, seps), PieceSpans(t, cfg, pieces[1..], next, seps));
    }
  }

  lemma {:induction false} PieceIsSplit(t: Tokenizer, cfg: Config, spans: seq<Span>, piece: string, pos: nat,
      seps: seq<string>)
    requires cfg.minChunkSize <= 1 && seps != []
    ensures AddPiece(t, cfg, spans, piece, pos, seps) == spans + OnePiece(t, cfg, piece, pos, seps)
    decreases |seps|, 0, 0
  {
    if !(t.count(piece) <= cfg.chunkSize || |seps| == 1) {
      RangeIsSplit(t, cfg, piece, pos, seps[1..]);
    }
  }

  lemma Associative(a: seq<Span>, b: seq<Span>, c: seq<Span>)
    ensures (a + b) + c == a + (b + c)
  {
  }

  /** Every span of a section over the budget is free of separators: it was split as far as it can be. */
  ghost predicate SplitsToBudget(t: Tokenizer, cfg: Config, sub: string) {
    var spans := SplitRange(t, cfg, sub, 0, SEPARATORS);
    forall k :: 0 <= k < |spans| ==> Atomic(t, cfg, sub, 0, SEPARATORS, spans[k])
  }

  lemma {:induction false} SplitOfFree(text: string, sep: string)
    requires sep != "" && Free(text, sep)
    ensures Split(text, sep) == [text]
  {
  }

  /** A text over the budget without the first separator is split on the others. */
  lemma Descends(t: Tokenizer, cfg: Config, sub: string, seps: seq<string>)
    requires |seps| > 1 && seps[0] != "" && Free(sub, seps[0]) && sub != "" && t.count(sub) > cfg.chunkSize
    ensures SplitRange(t, cfg, sub, 0, seps) == SplitRange(t, cfg, sub, 0, seps[1..])
  {
    SplitOfFree(sub, seps[0]);
    var spans := SplitRange(t, cfg, sub, 0, seps[1..]);
    assert [sub][1..] == [];
    assert AddPiece(t, cfg, [], sub, 0, seps) == spans;
    assert AddPieces(t, cfg, spans, [], |sub| + |seps[0]|, seps) == spans;
  }

  const TWO_LINES := "a\nb"

  lemma NoBlankLines()
    ensures Free(TWO_LINES, "\n\n\n") && Free(TWO_LINES, "\n\n") && Free("b", "\n")
  {
    assert TWO_LINES[0..3][0] == 'a' && TWO_LINES[0..2][0] == 'a' && TWO_LINES[1..3][1] == 'b' && "b"[0..1][0] == 'b';
  }

  lemma OneLineBreak()
    ensures OccursAt(TWO_LINES, "\n", 1) && Find(TWO_LINES, "\n", 0) == 1 && Split(TWO_LINES, "\n") == ["a", "b"]
  {
    NoBlankLines();
    assert TWO_LINES[1..2] == "\n" && TWO_LINES[0..1][0] == 'a';
    assert Find(TWO_LINES, "\n", 1) == 1;
    assert TWO_LINES[..1] == "a" && TWO_LINES[2..] == "b";
    SplitOfFree("b", "\n");
  }

  lemma LineBreakTried()
    ensures "\n" in Tried(SEPARATORS)
  {
    var seps := SEPARATORS;
    assert Tried(seps) == [seps[0]] + Tried(seps[1..]);
    assert Tried(seps[1..]) == [seps[1]] + Tried(seps[1..][1..]);
    assert Tried(seps[1..][1..]) == [seps[2]] + Tried(seps[1..][1..][1..]);
    assert Tried(seps)[2] == "\n";
  }

  /** The second line is a small piece, so the span of the first is stretched over it. */
  lemma TwoLinesMakeOneSpan(t: Tokenizer, cfg: Config, seps: seq<string>)
    requires |seps| > 1 && seps[0] == "\n" && cfg.minChunkSize >= 2
    requires t.count("a") <= cfg.chunkSize && t.count("b") <= cfg.chunkSize
    ensures SplitRange(t, cfg, TWO_LINES, 0, seps) == [Span(0, 3)]
  {
    OneLineBreak();
    assert ["a", "b"][1..] == ["b"] && ["b"][1..] == [];
    assert AddPiece(t, cfg, [], "a", 0, seps) == [Span(0, 1)];
    assert AddPiece(t, cfg, [Span(0, 1)], "b", 2, seps) == [Span(0, 3)];
    assert AddPieces(t, cfg, [Span(0, 3)], [], 4, seps) == [Span(0, 3)];
    assert AddPieces(t, cfg, [Span(0, 1)], ["b"], 2, seps) == [Span(0, 3)];
  }

  /** Stretching a span over a small piece does not look at the budget: of two lines of one letter, of
      which each fits and both together do not, the split makes one span. */
  lemma StretchIgnoresBudget(cfg: Config) returns (t: Tokenizer)
    requires cfg.chunkSize >= 0 && cfg.minChunkSize >= 2
    ensures t.count("a") <= cfg.chunkSize && t.count("b") <= cfg.chunkSize && t.count(TWO_LINES) > cfg.chunkSize
    ensures SplitRange(t, cfg, TWO_LINES, 0, SEPARATORS) == [Span(0, 3)]
    ensures !SplitsToBudget(t, cfg, TWO_LINES)
  {
    t := Tokenizer((s: string) => if |s| <= 1 then 0 else cfg.chunkSize + 1, (s: string) => [], (ids: seq<int>) => "");
    NoBlankLines();
    Descends(t, cfg, TWO_LINES, SEPARATORS);
    Descends(t, cfg, TWO_LINES, SEPARATORS[1..]);
    TwoLinesMakeOneSpan(t, cfg, SEPARATORS[1..][1..]);
    NotToBudget(t, cfg);
  }

  lemma NotToBudget(t: Tokenizer, cfg: Config)
    requires t.count(TWO_LINES) > cfg.chunkSize && SplitRange(t, cfg, TWO_LINES, 0, SEPARATORS) == [Span(0, 3)]
    ensures !SplitsToBudget(t, cfg, TWO_LINES)
  {
    OneLineBreak();
    LineBreakTried();
    assert TWO_LINES[0..3] == TWO_LINES;
    assert !Atomic(t, cfg, TWO_LINES, 0, SEPARATORS, [Span(0, 3)][0]);
  }

  /** Sections are split down to the budget, for every text and tokenizer, exactly when the minimum size
      is so small that no piece is ever appended to the span before. */
  lemma BudgetExactly(cfg: Config)
    requires cfg.chunkSize >= 0
    ensures (forall t, sub :: sub != "" ==> SplitsToBudget(t, cfg, sub)) <==> cfg.minChunkSize <= 1
  {
    if cfg.minChunkSize <= 1 {
      forall t, sub | sub != "" ensures SplitsToBudget(t, cfg, sub) {
        RangeIsSplit(t, cfg, sub, 0, SEPARATORS);
        forall k | 0 <= k < |SplitSpans(t, cfg, sub, 0, SEPARATORS)|
          ensures Atomic(t, cfg, sub, 0, SEPARATORS, SplitSpans(t, cfg, sub, 0, SEPARATORS)[k])
        {
          SplitAtomic(t, cfg, sub, 0, SEPARATORS, k);
        }
      }
    } else {
      var t := StretchIgnoresBudget(cfg);
    }
  }

  // ----- A section's chunks --------------------------------------------------------------------------

  function SectionSpans(t: Tokenizer, cfg: Config, text: string, start: nat, end: nat): seq<Span>
    requires start <= end <= |text|
  {
    MergeSpans(t, cfg, text, SplitRange(t, cfg, text[start..end], start, SEPARATORS))
  }

  /** A section's chunks are non-empty, stay inside the section and step forward. */
  lemma SectionSpansStep(t: Tokenizer, cfg: Config, text: string, start: nat, end: nat)
    requires start < end <= |text|
    ensures var out := SectionSpans(t, cfg, text, start, end);
            Stepping(out) && forall k :: 0 <= k < |out| ==> start <= out[k].start && out[k].end <= end
  {
    var sub := text[start..end];
    var atoms := SplitRange(t, cfg, sub, start, SEPARATORS);
    RangeAscending(t, cfg, sub, start, SEPARATORS);
    if atoms != [] {
      AscendingTail(atoms, start, end);
      MergeSteps(t, cfg, text, atoms[0], atoms[1..], end);
    }
  }

  /** A section's chunks group its split spans greedily up to the budget, from the first on, each
      starting at its first span moved back by the overlap. */
  lemma SectionSpansAreGreedy(t: Tokenizer, cfg: Config, text: string, start: nat, end: nat) returns (firsts: seq<nat>)
    requires start < end <= |text|
    ensures var atoms := SplitRange(t, cfg, text[start..end], start, SEPARATORS);
            var out := SectionSpans(t, cfg, text, start, end);
            && Grouped(t, cfg, text, atoms, out, firsts)
            && (atoms != [] ==> out != [] && firsts[0] == 0 && out[0].start == atoms[0].start)
  {
    var atoms := SplitRange(t, cfg, text[start..end], start, SEPARATORS);
    if atoms == [] {
      firsts := [];
    } else {
      firsts := MergeIsGreedy(t, cfg, text, atoms);
    }
  }

  /** Within a section only separators are lost. */
  lemma SectionLosesOnlySeparators(t: Tokenizer, cfg: Config, text: string, start: nat, end: nat, c: nat)
    requires start <= c < end <= |text|
    ensures Covers(SectionSpans(t, cfg, text, start, end), c) || InSeparator(text, SEPARATORS, c)
  {
    var sub := text[start..end];
    SplitLosesSeparators(t, cfg, sub, start, SEPARATORS, c - start);
    if Covers(SplitSpans(t, cfg, sub, start, SEPARATORS), c) {
      RangeCovers(t, cfg, sub, start, SEPARATORS, c);
      RangeAscending(t, cfg, sub, start, SEPARATORS);
      MergedCovers(t, cfg, text, SplitRange(t, cfg, sub, start, SEPARATORS), start, end, c);
    } else {
      assert text == text[..start] + sub + text[end..];
      SeparatorInWhole(text[..start], sub, text[end..], SEPARATORS, SEPARATORS, c - start);
    }
  }

  lemma MergedCovers(t: Tokenizer, cfg: Config, text: string, atoms: seq<Span>, lo: nat, hi: nat, c: nat)
    requires Ascending(atoms, lo, hi) && Covers(atoms, c)
    ensures Covers(MergeSpans(t, cfg, text, atoms), c)
  {
    AscendingTail(atoms, lo, hi);
    var k :| 0 <= k < |atoms| && atoms[k].start <= c < atoms[k].end;
    assert k > 0 ==> atoms[1..][k - 1] == atoms[k];
    MergeCovers(t, cfg, text, atoms[0], atoms[1..], hi, c);
  }

  // ----- The chunks of a document ----------------------------------------------------------------------

  datatype Chunk = Chunk(path: seq<string>, span: Span)

  function Label(path: seq<string>, spans: seq<Span>): seq<Chunk> {
    if spans == [] then [] else Label(path, spans[..|spans| - 1]) + [Chunk(path, spans[|spans| - 1])]
  }

  function SectionChunks(t: Tokenizer, cfg: Config, text: string, s: Sections.Section): seq<Chunk> {
    if s.start < s.end <= |text| then Label(s.path, SectionSpans(t, cfg, text, s.start, s.end)) else []
  }

  function ChunksOf(t: Tokenizer, cfg: Config, text: string, sections: seq<Sections.Section>): seq<Chunk> {
    if sections == [] then []
    else ChunksOf(t, cfg, text, sections[..|sections| - 1]) + SectionChunks(t, cfg, text, sections[|sections| - 1])
  }

  ghost predicate InChunk(chunks: seq<Chunk>, c: nat) {
    exists k :: 0 <= k < |chunks| && chunks[k].span.start <= c < chunks[k].span.end
  }

  lemma {:induction false} LabelKeeps(path: seq<string>, spans: seq<Span>, c: nat)
    requires Covers(spans, c)
    ensures InChunk(Label(path, spans), c)
  {
    var front, last := spans[..|spans| - 1], spans[|spans| - 1];
    if last.start <= c < last.end {
      InEither(Label(path, front), [Chunk(path, last)], c, true);
    } else {
      var k :| 0 <= k < |spans| && spans[k].start <= c < spans[k].end;
      assert front[k] == spans[k];
      LabelKeeps(path, front, c);
      InEither(Label(path, front), [Chunk(path, last)], c, false);
    }
  }

  lemma InEither(a: seq<Chunk>, b: seq<Chunk>, c: nat, last: bool)
    requires if last then b != [] && b[|b| - 1].span.start <= c < b[|b| - 1].span.end else InChunk(a, c) || InChunk(b, c)
    ensures InChunk(a + b, c)
  {
    if last {
      assert (a + b)[|a + b| - 1] == b[|b| - 1];
    } else if InChunk(a, c) {
      var k :| 0 <= k < |a| && a[k].span.start <= c < a[k].span.end;
      assert (a + b)[k] == a[k];
    } else {
      var k :| 0 <= k < |b| && b[k].span.start <= c < b[k].span.end;
      assert (a + b)[|a| + k] == b[k];
    }
  }

  lemma {:induction false} ChunksKeep(t: Tokenizer, cfg: Config, text: string, sections: seq<Sections.Section>, c: nat)
    requires Sections.Within(sections, c) && c < |text|
    requires forall k :: 0 <= k < |sections| ==> sections[k].end <= |text|
    ensures InChunk(ChunksOf(t, cfg, text, sections), c) || InSeparator(text, SEPARATORS, c)
  {
    var front, last := sections[..|sections| - 1], sections[|sections| - 1];
    var before, more := ChunksOf(t, cfg, text, front), SectionChunks(t, cfg, text, last);
    if last.start <= c < last.end {
      SectionLosesOnlySeparators(t, cfg, text, last.start, last.end, c);
      if Covers(SectionSpans(t, cfg, text, last.start, last.end), c) {
        LabelKeeps(last.path, SectionSpans(t, cfg, text, last.start, last.end), c);
        InEither(before, more, c, false);
      }
    } else {
      var k :| 0 <= k < |sections| && sections[k].start <= c < sections[k].end;
      assert front[k] == sections[k];
      ChunksKeep(t, cfg, text, front, c);
      if InChunk(before, c) {
        InEither(before, more, c, false);
      }
    }
  }

  /** The chunker loses only headings and separators: every character of a text lies in a chunk, in a
      heading match or in an occurrence of a separator. */
  lemma LosesOnlyHeadingsAndSeparators(t: Tokenizer, cfg: Config, text: string, markdown: seq<Sections.Heading>,
                                       html: seq<Sections.Heading>, c: nat)
    requires Sections.Matches(markdown, |text|) && Sections.Matches(html, |text|) && c < |text|
    ensures var hs := Sections.Headings(markdown, html);
            || InChunk(ChunksOf(t, cfg, text, Sections.SectionsOf(hs, |text|)), c)
            || Sections.InHeading(hs, c) || InSeparator(text, SEPARATORS, c)
  {
    var hs := Sections.Headings(markdown, html);
    Sections.HeadingsInOrder(markdown, html, |text|);
    Sections.SectionsCover(hs, |text|, c);
    Sections.SectionsDisjoint(hs, |text|);
    if !Sections.InHeading(hs, c) {
      ChunksKeep(t, cfg, text, Sections.SectionsOf(hs, |text|), c);
    }
  }

  /** Every chunk lies inside one section and carries its path. */
  lemma {:induction false} ChunkInSection(t: Tokenizer, cfg: Config, text: string, sections: seq<Sections.Section>,
      k: nat) returns (i: nat)
    requires k < |ChunksOf(t, cfg, text, sections)|
    ensures var chunk := ChunksOf(t, cfg, text, sections)[k];
            && i < |sections| && chunk.path == sections[i].path
            && sections[i].start <= chunk.span.start < chunk.span.end <= sections[i].end
  {
    var front, last := sections[..|sections| - 1], sections[|sections| - 1];
    var before := ChunksOf(t, cfg, text, front);
    if k < |before| {
      i := ChunkInSection(t, cfg, text, front, k);
    } else {
      i := |sections| - 1;
      SectionSpansStep(t, cfg, text, last.start, last.end);
      LabelAt(last.path, SectionSpans(t, cfg, text, last.start, last.end), k - |before|);
    }
  }

  lemma {:induction false} LabelAt(path: seq<string>, spans: seq<Span>, k: nat)
    ensures |Label(path, spans)| == |spans|
    ensures k < |spans| ==> Label(path, spans)[k] == Chunk(path, spans[k])
  {
    if spans != [] {
      LabelAt(path, spans[..|spans| - 1], k);
    }
  }

  // ----- The methods -----------------------------------------------------------------------------------

  method SplitWithin(t: Tokenizer, cfg: Config, sub: string, offset: nat, seps: seq<string>) returns (spans: seq<Span>)
    ensures spans == SplitRange(t, cfg, sub, offset, seps)
    decreases |seps|, 1
  {
    if seps == [] {
      return [Span(offset, offset + |sub|)];
    }
    var sep := seps[0];
    if sep == "" {
      return [Span(offset, offset + |sub|)];
    }
    var pieces := Split(sub, sep);
    spans := [];
    var pos := offset;
    for i := 0 to |pieces|
      invariant pos >= offset
      invariant AddPieces(t, cfg, spans, pieces[i..], pos, seps) == AddPieces(t, cfg, [], pieces, offset, seps)
    {
      assert pieces[i..][0] == pieces[i] && pieces[i..][1..] == pieces[i + 1..];
      spans := KeepPiece(t, cfg, spans, pieces[i], pos, seps);
      pos := pos + |pieces[i]| + |sep|;
    }
    assert pieces[|pieces|..] == [];
  }

  /** The body of the loop. */
  method KeepPiece(t: Tokenizer, cfg: Config, spans: seq<Span>, piece: string, pos: nat,
      seps: seq<string>) returns (next: seq<Span>)
    requires seps != []
    ensures next == AddPiece(t, cfg, spans, piece, pos, seps)
    decreases |seps|, 0
  {
    if piece == "" {
      return spans;
    }
    var end := pos + |piece|;
    if t.count(piece) <= cfg.chunkSize || |seps| == 1 {
      if spans == [] || end - pos >= cfg.minChunkSize {
        next := spans + [Span(pos, end)];
      } else {
        next := spans[|spans| - 1 := Span(spans[|spans| - 1].start, end)];
      }
    } else {
      var inner := SplitWithin(t, cfg, piece, pos, seps[1..]);
      next := spans + inner;
    }
  }

  lemma ChunksNext(t: Tokenizer, cfg: Config, text: string, sections: seq<Sections.Section>, i: nat)
    requires i < |sections|
    ensures ChunksOf(t, cfg, text, sections[..i + 1])
         == ChunksOf(t, cfg, text, sections[..i]) + SectionChunks(t, cfg, text, sections[i])
  {
    assert sections[..i + 1][..i] == sections[..i];
  }

  /** The chunks of a text, given its heading matches. */
  method ChunkText(t: Tokenizer, cfg: Config, text: string, markdown: seq<Sections.Heading>, html: seq<Sections.Heading>)
    returns (chunks: seq<Chunk>)
    requires Sections.Matches(markdown, |text|) && Sections.Matches(html, |text|)
    ensures chunks == if text == "" then []
                      else ChunksOf(t, cfg, text, Sections.SectionsOf(Sections.Headings(markdown, html), |text|))
  {
    if text == "" {
      return [];
    }
    var sections := Sections.FindSections(|text|, markdown, html);
    Sections.HeadingsInOrder(markdown, html, |text|);
    Sections.SectionsDisjoint(Sections.Headings(markdown, html), |text|);
    chunks := [];
    for i := 0 to |sections|
      invariant chunks == ChunksOf(t, cfg, text, sections[..i])
    {
      ChunksNext(t, cfg, text, sections, i);
      var s := sections[i];
      if s.start >= s.end {
        continue;
      }
      var atoms := SplitWithin(t, cfg, text[s.start..s.end], s.start, SEPARATORS);
      var spans := Merge(t, cfg, text, atoms);
      chunks := chunks + Label(s.path, spans);
    }
    assert sections[..|sections|] == sections;
  }
}
