/** The page map of rag-embedder: page texts are located greedily in the document text, and a
    chunk's pages are those whose range meets its span.
 */
module PageMap {
  import opened Text
  import Sorting

  datatype Page = Page(text: string, number: int)

  datatype Range = Range(start: nat, end: nat, number: int)

  // ----- Building the map ------------------------------------------------------------------------

  /** The place found for a page, searching from `pos`, else from the beginning. */
  function Locate(text: string, page: string, pos: nat): (i: int)
    ensures i == -1 || (0 <= i && OccursAt(text, page, i))
  {
    var ahead := Find(text, page, pos);
    if ahead == -1 then Find(text, page, 0) else ahead
  }

  /** A page is located at its first place at or after `pos`, or at its first place in the text if it has
      none there, and nowhere exactly when the text does not contain it. */
  lemma LocateMeans(text: string, page: string, pos: nat)
    ensures Locate(text, page, pos) == -1 <==> Free(text, page)
    ensures var i := Locate(text, page, pos);
            i >= 0 ==>
              if i >= pos && Find(text, page, pos) != -1 then forall j: nat :: pos <= j < i ==> !OccursAt(text, page, j)
              else forall j: nat :: j < i || j >= pos ==> !OccursAt(text, page, j)
  {
    FindIsFirst(text, page, pos);
    FindIsFirst(text, page, 0);
  }

  /** The ranges found for the remaining pages. */
  function MapFrom(text: string, pages: seq<Page>, pos: nat): seq<Range> {
    if pages == [] then []
    else
      var page := pages[0].text;
      if page == "" then MapFrom(text, pages[1..], pos)
      else
        var i := Locate(text, page, pos);
        if i == -1 then MapFrom(text, pages[1..], pos)
        else [Range(i, i + |page|, pages[0].number)] + MapFrom(text, pages[1..], i + |page|)
  }

  /** Every search ahead succeeds, so the fallback to the beginning is never taken. */
  predicate FoundAhead(text: string, pages: seq<Page>, pos: nat) {
    pages == [] ||
    var page := pages[0].text;
    if page == "" then FoundAhead(text, pages[1..], pos)
    else
      var i := Find(text, page, pos);
      i != -1 && FoundAhead(text, pages[1..], i + |page|)
  }

  method Search(text: string, page: string, pos: nat) returns (idx: int)
    ensures idx == Locate(text, page, pos)
  {
    idx := Find(text, page, pos);
    if idx == -1 {
      idx := Find(text, page, 0);
    }
  }

  method BuildPageMap(text: string, pages: seq<Page>) returns (pageMap: seq<Range>)
    ensures pageMap == MapFrom(text, pages, 0)
  {
    pageMap := [];
    if pages == [] || text == "" {
      NothingInEmpty(pages, 0);
      return;
    }
    var searchPos: nat := 0;
    for k := 0 to |pages|
      invariant pageMap + MapFrom(text, pages[k..], searchPos) == MapFrom(text, pages, 0)
    {
      assert pages[k..][0] == pages[k] && pages[k..][1..] == pages[k + 1..];
      var page := pages[k].text;
      if page == "" {
        continue;
      }
      var idx := Search(text, page, searchPos);
      if idx == -1 {
        continue;
      }
      var end := idx + |page|;
      pageMap := pageMap + [Range(idx, end, pages[k].number)];
      searchPos := end;
    }
  }

  lemma {:induction false} NothingInEmpty(pages: seq<Page>, pos: nat)
    ensures MapFrom("", pages, pos) == []
  {
    if pages != [] {
      NothingInEmpty(pages[1..], pos);
    }
  }

  /** On any document, a range spells the text of the page it is recorded for. */
  lemma {:induction false} RangesSpellPages(text: string, pages: seq<Page>, pos: nat, i: nat)
    requires i < |MapFrom(text, pages, pos)|
    ensures var r := MapFrom(text, pages, pos)[i];
            r.end <= |text| && r.start < r.end &&
            exists k :: 0 <= k < |pages| && pages[k].number == r.number && pages[k].text == text[r.start..r.end]
  {
    var page := pages[0].text;
    var at := Locate(text, page, pos);
    if page == "" || at == -1 {
      RangesSpellPages(text, pages[1..], pos, i);
    } else if i > 0 {
      RangesSpellPages(text, pages[1..], at + |page|, i - 1);
    }
    if page == "" || at == -1 || i > 0 {
      var r := MapFrom(text, pages, pos)[i];
      var k :| 0 <= k < |pages[1..]| && pages[1..][k].number == r.number && pages[1..][k].text == text[r.start..r.end];
      assert pages[k + 1] == pages[1..][k];
    } else {
      assert pages[0].text == text[at..at + |page|];
    }
  }

  // ----- Documents that are the join of their pages ----------------------------------------------

  const SEPARATOR := "\n\n"

  function Texts(pages: seq<Page>): seq<string> {
    seq(|pages|, (i: nat) requires i < |pages| => pages[i].text)
  }

  /** Where a non-empty page really is. */
  datatype Place = Place(text: string, number: int, offset: nat)

  function Places(pages: seq<Page>, offset: nat): seq<Place> {
    if pages == [] then []
    else (if pages[0].text == "" then [] else [Place(pages[0].text, pages[0].number, offset)]) +
         Places(pages[1..], offset + |pages[0].text| + |SEPARATOR|)
  }

  predicate Newlines(s: string) { forall i :: 0 <= i < |s| ==> s[i] == '\n' }

  /** The range found for a page: right page, right text, never past the page's true place, and
      exactly there just when the page is first or has a character other than a newline. */
  ghost predicate FoundAt(text: string, r: Range, place: Place) {
    && r.number == place.number
    && r.end == r.start + |place.text| && r.end <= |text| && text[r.start..r.end] == place.text
    && r.start <= place.offset
    && (r.start == place.offset <==> place.offset == 0 || !Newlines(place.text))
  }

  /** What the loop knows before a page: the rest of the document is the join of the remaining
      pages, and between the search position and there is nothing but newlines. */
  ghost predicate Before(text: string, pages: seq<Page>, pos: nat, offset: nat) {
    && pos <= offset <= |text|
    && text[offset..] == JoinWith(Texts(pages), SEPARATOR)
    && Newlines(text[pos..offset])
    && (pos == offset ==> offset == 0)
  }

  lemma JoinStep(text: string, pages: seq<Page>, offset: nat)
    requires pages != [] && offset <= |text| && text[offset..] == JoinWith(Texts(pages), SEPARATOR)
    ensures var page := pages[0].text; var next := offset + |page| + |SEPARATOR|;
            && OccursAt(text, page, offset)
            && (|pages| > 1 ==> next <= |text| && text[next..] == JoinWith(Texts(pages[1..]), SEPARATOR)
                                && text[offset + |page|..next] == SEPARATOR)
  {
    var page := pages[0].text;
    JoinCons(Texts(pages), SEPARATOR);
    assert Texts(pages)[1..] == Texts(pages[1..]);
    assert text[offset..][..|page|] == text[offset..offset + |page|];
    if |pages| > 1 {
      var next := offset + |page| + |SEPARATOR|;
      assert text[offset..][|page| + |SEPARATOR|..] == text[next..];
      assert text[offset..][|page|..|page| + |SEPARATOR|] == text[offset + |page|..next];
    }
  }

  lemma NewlinesJoin(text: string, a: nat, b: nat, c: nat)
    requires a <= b <= c <= |text| && Newlines(text[a..b]) && Newlines(text[b..c])
    ensures Newlines(text[a..c])
  {
    assert text[a..c] == text[a..b] + text[b..c];
  }

  lemma NewlinesDrop(text: string, a: nat, b: nat, c: nat)
    requires a <= b <= c <= |text| && Newlines(text[a..c])
    ensures Newlines(text[b..c])
  {
    assert text[b..c] == text[a..c][b - a..];
  }

  /** The search finds a page at its place, or, if it is all newlines, right where it starts. */
  lemma FindPage(text: string, page: string, pos: nat, offset: nat)
    requires page != "" && pos <= offset && OccursAt(text, page, offset) && Newlines(text[pos..offset])
    ensures Find(text, page, pos) == if Newlines(page) then pos else offset
  {
    FindIsFirst(text, page, pos);
    if Newlines(page) {
      NewlinesJoin(text, pos, offset, offset + |page|);
      var found := text[pos..pos + |page|];
      forall i | 0 <= i < |page| ensures found[i] == page[i] {
        assert text[pos..offset + |page|][i] == '\n' == page[i];
      }
      assert OccursAt(text, page, pos);
    } else {
      var a := FirstOther(page);
      forall q: nat | pos <= q < offset ensures !OccursAt(text, page, q) {
        if q + |page| <= |text| {
          if q + a < offset {
            assert text[pos..offset][q + a - pos] == text[q + a];
          } else {
            assert text[offset..offset + |page|][q + a - offset] == text[q + a];
          }
          assert text[q..q + |page|][a] == text[q + a] == '\n';
        }
      }
    }
  }

  lemma FirstOther(s: string) returns (a: nat)
    requires !Newlines(s)
    ensures a < |s| && s[a] != '\n' && forall i :: 0 <= i < a ==> s[i] == '\n'
  {
    a := 0;
    while s[a] == '\n'
      invariant a < |s| && forall i :: 0 <= i < a ==> s[i] == '\n'
      invariant exists i :: a <= i < |s| && s[i] != '\n'
      decreases |s| - a
    {
      a := a + 1;
    }
  }

  lemma NewlinesGrow(text: string, pos: nat, at: nat, offset: nat, page: string)
    requires pos <= offset && OccursAt(text, page, offset) && Newlines(text[pos..offset])
    requires at == (if Newlines(page) then pos else offset)
    requires offset + |page| + |SEPARATOR| <= |text| && text[offset + |page|..offset + |page| + |SEPARATOR|] == SEPARATOR
    ensures at + |page| < offset + |page| + |SEPARATOR|
    ensures Newlines(text[at + |page|..offset + |page| + |SEPARATOR|])
  {
    var next := offset + |page| + |SEPARATOR|;
    assert text[offset..offset + |page|] == page;
    if Newlines(page) {
      NewlinesJoin(text, pos, offset, offset + |page|);
      NewlinesJoin(text, pos, offset + |page|, next);
      NewlinesDrop(text, pos, at + |page|, next);
    }
  }

  /** Where the search finds a page, given what the loop knows. */
  function Hit(page: string, pos: nat, offset: nat): nat {
    if page == "" || Newlines(page) then pos else offset
  }

  /** One page of a joined document. */
  lemma JoinedPage(text: string, pages: seq<Page>, pos: nat, offset: nat)
    requires Before(text, pages, pos, offset) && pages != []
    ensures var page := pages[0].text; var at := Hit(page, pos, offset); var next := offset + |page| + |SEPARATOR|;
            && (page != "" ==> Find(text, page, pos) == Locate(text, page, pos) == at
                               && FoundAt(text, Range(at, at + |page|, pages[0].number), Place(page, pages[0].number, offset)))
            && (|pages| > 1 ==> Before(text, pages[1..], at + |page|, next))
  {
    var page := pages[0].text;
    JoinStep(text, pages, offset);
    if page != "" {
      FindPage(text, page, pos, offset);
      assert OccursAt(text, page, Hit(page, pos, offset));
    }
    if |pages| > 1 {
      NewlinesGrow(text, pos, Hit(page, pos, offset), offset, page);
    }
  }

  /** Ranges and places agree one by one, each range after the one before, the first from `pos` on. */
  ghost predicate Aligned(text: string, rs: seq<Range>, ps: seq<Place>, pos: nat) {
    if rs == [] then ps == []
    else ps != [] && FoundAt(text, rs[0], ps[0]) && pos <= rs[0].start && Aligned(text, rs[1..], ps[1..], rs[0].end)
  }

  /** How the map and the places begin at a page that is not empty and found at `at`. */
  lemma FoundPageFirst(text: string, pages: seq<Page>, pos: nat, offset: nat, at: nat)
    requires pages != [] && pages[0].text != "" && Locate(text, pages[0].text, pos) == at
    ensures var page := pages[0]; var next := offset + |page.text| + |SEPARATOR|;
            && MapFrom(text, pages, pos) ==
               [Range(at, at + |page.text|, page.number)] + MapFrom(text, pages[1..], at + |page.text|)
            && Places(pages, offset) == [Place(page.text, page.number, offset)] + Places(pages[1..], next)
  {
  }

  lemma EmptyPageFirst(text: string, pages: seq<Page>, pos: nat, offset: nat)
    requires pages != [] && pages[0].text == ""
    ensures MapFrom(text, pages, pos) == MapFrom(text, pages[1..], pos)
    ensures Places(pages, offset) == Places(pages[1..], offset + |SEPARATOR|)
  {
  }

  /** Page by page: the search from `pos` succeeds and finds the page as FoundAt says. */
  ghost predicate Tracks(text: string, pages: seq<Page>, pos: nat, offset: nat) {
    pages == [] ||
    var page, next := pages[0].text, offset + |pages[0].text| + |SEPARATOR|;
    if page == "" then Tracks(text, pages[1..], pos, next)
    else
      var at := Find(text, page, pos);
      at != -1 && FoundAt(text, Range(at, at + |page|, pages[0].number), Place(page, pages[0].number, offset)) &&
      Tracks(text, pages[1..], at + |page|, next)
  }

  lemma {:induction false} JoinedTracks(text: string, pages: seq<Page>, pos: nat, offset: nat)
    requires Before(text, pages, pos, offset)
    ensures Tracks(text, pages, pos, offset)
    decreases |pages|
  {
    if pages != [] {
      var page, rest := pages[0].text, pages[1..];
      var behind, next := Hit(page, pos, offset) + |page|, offset + |page| + |SEPARATOR|;
      JoinedPage(text, pages, pos, offset);
      if |pages| > 1 {
        JoinedTracks(text, rest, behind, next);
      }
      assert Tracks(text, rest, behind, next);
      assert page == "" ==> behind == pos;
    }
  }

  lemma {:induction false} TracksFoundAhead(text: string, pages: seq<Page>, pos: nat, offset: nat)
    requires Tracks(text, pages, pos, offset)
    ensures FoundAhead(text, pages, pos)
  {
    if pages != [] {
      var page, next := pages[0].text, offset + |pages[0].text| + |SEPARATOR|;
      TracksFoundAhead(text, pages[1..], if page == "" then pos else Find(text, page, pos) + |page|, next);
    }
  }

  lemma {:induction false} TracksAlign(text: string, pages: seq<Page>, pos: nat, offset: nat)
    requires Tracks(text, pages, pos, offset)
    ensures Aligned(text, MapFrom(text, pages, pos), Places(pages, offset), pos)
  {
    if pages != [] {
      var page, number, next := pages[0].text, pages[0].number, offset + |pages[0].text| + |SEPARATOR|;
      if page == "" {
        TracksAlign(text, pages[1..], pos, next);
        EmptyPageFirst(text, pages, pos, offset);
      } else {
        var at := Find(text, page, pos);
        TracksAlign(text, pages[1..], at + |page|, next);
        FoundPageFirst(text, pages, pos, offset, at);
        AlignedCons(text, Range(at, at + |page|, number), Place(page, number, offset),
                    MapFrom(text, pages[1..], at + |page|), Places(pages[1..], next), pos);
      }
    }
  }

  lemma AlignedCons(text: string, r: Range, p: Place, rs: seq<Range>, ps: seq<Place>, pos: nat)
    requires FoundAt(text, r, p) && pos <= r.start && Aligned(text, rs, ps, r.end)
    ensures Aligned(text, [r] + rs, [p] + ps, pos)
  {
    assert ([r] + rs)[1..] == rs && ([p] + ps)[1..] == ps;
  }

  lemma {:induction false} AlignedEach(text: string, rs: seq<Range>, ps: seq<Place>, pos: nat)
    requires Aligned(text, rs, ps, pos)
    ensures |rs| == |ps|
    ensures forall i :: 0 <= i < |rs| ==> FoundAt(text, rs[i], ps[i]) && pos <= rs[i].start
    ensures forall i, j :: 0 <= i < j < |rs| ==> rs[i].end <= rs[j].start
  {
    if rs != [] {
      AlignedEach(text, rs[1..], ps[1..], rs[0].end);
    }
  }

  /** When the document text is the join of its page texts, the search never falls back, there is one
      range per non-empty page, in page order and disjoint, each spelling its page; and a range is
      at its page's true place exactly when the page comes first or is not just newlines. */
  lemma JoinedDocument(text: string, pages: seq<Page>)
    requires text == JoinWith(Texts(pages), SEPARATOR)
    ensures FoundAhead(text, pages, 0)
    ensures var rs, ps := MapFrom(text, pages, 0), Places(pages, 0);
            && |rs| == |ps|
            && (forall i :: 0 <= i < |rs| ==> FoundAt(text, rs[i], ps[i]))
            && (forall i, j :: 0 <= i < j < |rs| ==> rs[i].end <= rs[j].start)
  {
    assert text[0..] == text && text[0..0] == "";
    JoinedTracks(text, pages, 0, 0);
    TracksFoundAhead(text, pages, 0, 0);
    TracksAlign(text, pages, 0, 0);
    AlignedEach(text, MapFrom(text, pages, 0), Places(pages, 0), 0);
  }

  /** So the map is not always exact: a page of one newline after "a" is found in the separator. */
  lemma NewlinePageIsMisplaced()
    ensures var pages := [Page("a", 1), Page("\n", 2)];
            var rs, ps := MapFrom(JoinWith(Texts(pages), SEPARATOR), pages, 0), Places(pages, 0);
            |rs| == |ps| == 2 && rs[1].start < ps[1].offset
  {
    var pages := [Page("a", 1), Page("\n", 2)];
    JoinedDocument(JoinWith(Texts(pages), SEPARATOR), pages);
    assert pages[1..] == [Page("\n", 2)] && pages[1..][1..] == [];
    assert Places(pages, 0) == [Place("a", 1, 0), Place("\n", 2, 3)];
    assert Newlines("\n");
  }

  /** The numbers of the pages that the text contains, empty ones left out. */
  ghost function Contained(text: string, pages: seq<Page>): seq<int> {
    if pages == [] then []
    else (if pages[0].text != "" && !Free(text, pages[0].text) then [pages[0].number] else [])
         + Contained(text, pages[1..])
  }

  function Numbers(ranges: seq<Range>): seq<int> {
    if ranges == [] then [] else [ranges[0].number] + Numbers(ranges[1..])
  }

  /** On any document there is one range for every page that the text contains, in page order. */
  lemma {:induction false} ContainedPagesAreMapped(text: string, pages: seq<Page>, pos: nat)
    ensures Numbers(MapFrom(text, pages, pos)) == Contained(text, pages)
  {
    if pages != [] {
      var page := pages[0].text;
      LocateMeans(text, page, pos);
      var i := Locate(text, page, pos);
      if page == "" || i == -1 {
        ContainedPagesAreMapped(text, pages[1..], pos);
        assert [] + Contained(text, pages[1..]) == Contained(text, pages[1..]);
      } else {
        var rest := MapFrom(text, pages[1..], i + |page|);
        ContainedPagesAreMapped(text, pages[1..], i + |page|);
        NumbersCons(Range(i, i + |page|, pages[0].number), rest);
      }
    }
  }

  lemma NumbersCons(r: Range, rest: seq<Range>)
    ensures Numbers([r] + rest) == [r.number] + Numbers(rest)
  {
    assert ([r] + rest)[1..] == rest;
  }

  // ----- Pages of a span ----------------------------------------------------------------------------

  predicate Meets(r: Range, start: nat, end: nat) { r.start < end && r.end > start }

  /** A range and a span that are not empty meet exactly when they share a character. */
  lemma MeetsMeans(r: Range, start: nat, end: nat)
    requires r.start < r.end && start < end
    ensures Meets(r, start, end) <==> exists c: nat :: Shares(r, start, end, c)
  {
    if Meets(r, start, end) {
      assert Shares(r, start, end, if r.start > start then r.start else start);
    }
  }

  predicate Shares(r: Range, start: nat, end: nat, c: nat) { r.start <= c < r.end && start <= c < end }

  /** The numbers of the pages whose range meets [start, end), each once, ascending. */
  method PagesForSpan(pageMap: seq<Range>, start: nat, end: nat) returns (numbers: seq<int>)
    ensures forall n :: n in numbers <==>
              exists i :: 0 <= i < |pageMap| && pageMap[i].number == n && Meets(pageMap[i], start, end)
    ensures forall i, j :: 0 <= i < j < |numbers| ==> numbers[i] < numbers[j]
  {
    var pages: set<int> := {};
    for k := 0 to |pageMap|
      invariant forall n :: n in pages <==> exists i :: 0 <= i < k && pageMap[i].number == n && Meets(pageMap[i], start, end)
    {
      if Meets(pageMap[k], start, end) {
        pages := pages + {pageMap[k].number};
      }
    }
    numbers := Sorting.SortedNumbers(pages);
  }
}
