/** Strings as Python handles them: slices with clamped bounds, str.find and str.rfind, str.split with a
    separator and str.join. Splitting and joining are inverse, no piece contains the separator, and an
    occurrence inside a part of a text is an occurrence in the whole. The chunkers and the page map of
    rag-embedder rest on these facts.
 */
module Text {

  /** text[lo:hi] with the bounds clamped. */
  function Slice(text: string, lo: nat, hi: nat): (part: string)
    ensures lo <= hi <= |text| ==> part == text[lo..hi]
  {
    var h := if hi < |text| then hi else |text|;
    if lo <= h then text[lo..h] else ""
  }

  predicate OccursAt(text: string, pat: string, i: nat) {
    i + |pat| <= |text| && text[i..i + |pat|] == pat
  }

  ghost predicate Free(text: string, pat: string) { forall i: nat :: !OccursAt(text, pat, i) }

  /** The first occurrence at or after `from`, or -1. */
  function Find(text: string, pat: string, from: nat): (r: int)
    ensures r == -1 || (from <= r && OccursAt(text, pat, r))
    decreases |text| - from
  {
    if from + |pat| > |text| then -1
    else if OccursAt(text, pat, from) then from
    else Find(text, pat, from + 1)
  }

  lemma {:induction false} FindIsFirst(text: string, pat: string, from: nat)
    ensures var r := Find(text, pat, from); forall i: nat :: from <= i && (r == -1 || i < r) ==> !OccursAt(text, pat, i)
    decreases |text| - from
  {
    if from + |pat| <= |text| && !OccursAt(text, pat, from) {
      FindIsFirst(text, pat, from + 1);
    }
  }

  /** The last occurrence that starts below `to`, or -1. */
  function RFind(text: string, pat: string, to: nat): (r: int)
    ensures r == -1 || (0 <= r < to && OccursAt(text, pat, r))
    ensures forall i: nat :: r < i < to ==> !OccursAt(text, pat, i)
  {
    if to == 0 then -1 else if OccursAt(text, pat, to - 1) then to - 1 else RFind(text, pat, to - 1)
  }

  function Split(text: string, sep: string): (pieces: seq<string>)
    requires sep != ""
    ensures pieces != []
    decreases |text|
  {
    var i := Find(text, sep, 0);
    if i == -1 then [text] else [text[..i]] + Split(text[i + |sep|..], sep)
  }

  function JoinWith(pieces: seq<string>, sep: string): string {
    if pieces == [] then "" else if |pieces| == 1 then pieces[0] else pieces[0] + sep + JoinWith(pieces[1..], sep)
  }

  lemma JoinCons(pieces: seq<string>, sep: string)
    requires pieces != []
    ensures JoinWith(pieces, sep) ==
            pieces[0] + if |pieces| == 1 then "" else sep + JoinWith(pieces[1..], sep)
  {
  }

  /** Joining the pieces gives the text back. */
  lemma {:induction false} JoinSplit(text: string, sep: string)
    requires sep != ""
    ensures JoinWith(Split(text, sep), sep) == text
    decreases |text|
  {
    var i := Find(text, sep, 0);
    if i != -1 {
      var rest := text[i + |sep|..];
      JoinSplit(rest, sep);
      assert Split(text, sep)[1..] == Split(rest, sep);
      assert text == text[..i] + sep + rest;
    }
  }

  /** The text without its whitespace. */
  function Visible(space: set<char>, text: string): string {
    if text == "" then "" else (if text[0] in space then "" else [text[0]]) + Visible(space, text[1..])
  }

  /** The pieces one after the other. */
  function Flat(pieces: seq<string>): string { if pieces == [] then "" else pieces[0] + Flat(pieces[1..]) }

  lemma {:induction false} VisibleRun(space: set<char>, text: string, n: nat)
    requires n <= |text| && forall i :: 0 <= i < n ==> text[i] !in space
    ensures Visible(space, text) == text[..n] + Visible(space, text[n..])
  {
    if n == 0 {
      assert text[0..] == text;
    } else {
      VisibleRun(space, text[1..], n - 1);
      assert text[1..][n - 1..] == text[n..] && text[..n] == [text[0]] + text[1..][..n - 1];
    }
  }

  lemma FlatCons(piece: string, rest: seq<string>)
    ensures Flat([piece] + rest) == piece + Flat(rest)
  {
    assert ([piece] + rest)[1..] == rest;
  }

  lemma SliceOfSlice<T>(text: seq<T>, lo: nat, hi: nat, a: nat, b: nat)
    requires lo <= hi <= |text| && a <= b <= hi - lo
    ensures text[lo..hi][a..b] == text[lo + a..lo + b]
  {
    var left, right := text[lo..hi][a..b], text[lo + a..lo + b];
    forall k | 0 <= k < b - a ensures left[k] == right[k] {
      assert left[k] == text[lo..hi][a + k] == text[lo + a + k];
    }
  }

  lemma FreeInside(text: string, pat: string, lo: nat, hi: nat)
    requires lo <= hi <= |text| && Free(text, pat)
    ensures Free(text[lo..hi], pat)
  {
    forall i: nat ensures !OccursAt(text[lo..hi], pat, i) {
      assert !OccursAt(text, pat, lo + i);
      if i + |pat| <= hi - lo {
        SliceOfSlice(text, lo, hi, i, i + |pat|);
      }
    }
  }

  lemma FreeBefore(text: string, pat: string, i: nat)
    requires i <= |text| && pat != "" && forall j: nat :: j < i ==> !OccursAt(text, pat, j)
    ensures Free(text[..i], pat)
  {
    forall j: nat ensures !OccursAt(text[..i], pat, j) {
      if j + |pat| <= i {
        assert !OccursAt(text, pat, j);
        SliceOfSlice(text, 0, i, j, j + |pat|);
        assert text[..i] == text[0..i];
      }
    }
  }

  /** No piece contains the separator. */
  lemma {:induction false} SplitIsFree(text: string, sep: string)
    requires sep != ""
    ensures forall k :: 0 <= k < |Split(text, sep)| ==> Free(Split(text, sep)[k], sep)
    decreases |text|
  {
    var i := Find(text, sep, 0);
    FindIsFirst(text, sep, 0);
    if i != -1 {
      SplitIsFree(text[i + |sep|..], sep);
      FreeBefore(text, sep, i);
    }
  }

  /** An occurrence inside a part is an occurrence in the whole. */
  lemma OccursInWhole(a: string, b: string, c: string, pat: string, i: nat)
    requires OccursAt(b, pat, i)
    ensures OccursAt(a + b + c, pat, |a| + i)
  {
    assert (a + b + c)[|a| + i..|a| + i + |pat|] == b[i..i + |pat|];
  }
}
