/** SimpleTokenizer and the sliding token window of rag-embedder. `word` and `space` say which characters
    the patterns \w and \s match.
 */
module Tokenization {
  import opened Options
  import opened Text

  datatype Classes = Classes(word: set<char>, space: set<char>)

  /** No character is both, and the blank is a space. */
  predicate Sound(c: Classes) { c.word !! c.space && ' ' in c.space }

  /** The length of the run of word characters at the start. */
  function Run(c: Classes, text: string): (n: nat)
    ensures n <= |text|
  {
    if text == "" || text[0] !in c.word then 0 else 1 + Run(c, text[1..])
  }

  /** findall of \w+|[^\w\s] */
  function Tokens(c: Classes, text: string): seq<string>
    decreases |text|
  {
    if text == "" then []
    else if text[0] in c.word then [text[..Run(c, text)]] + Tokens(c, text[Run(c, text)..])
    else if text[0] in c.space then Tokens(c, text[1..])
    else [text[..1]] + Tokens(c, text[1..])
  }

  /** A run of word characters, or one character that is neither word nor space. */
  ghost predicate IsToken(c: Classes, t: string) {
    || (t != "" && forall i :: 0 <= i < |t| ==> t[i] in c.word)
    || (|t| == 1 && t[0] !in c.word && t[0] !in c.space)
  }

  ghost predicate AreTokens(c: Classes, ts: seq<string>) {
    forall i :: 0 <= i < |ts| ==> IsToken(c, ts[i])
  }

  lemma {:induction false} RunIsWord(c: Classes, text: string)
    ensures forall i :: 0 <= i < Run(c, text) ==> text[i] in c.word
  {
    if text != "" && text[0] in c.word {
      RunIsWord(c, text[1..]);
      forall i | 0 <= i < Run(c, text) ensures text[i] in c.word {
        if i > 0 {
          assert text[i] == text[1..][i - 1];
        }
      }
    }
  }

  /** No character but whitespace is lost: the tokens spell the text without it. */
  lemma {:induction false} TokensSpell(c: Classes, text: string)
    requires Sound(c)
    ensures Flat(Tokens(c, text)) == Visible(c.space, text)
    decreases |text|
  {
    if text != "" {
      if text[0] in c.word {
        var n := Run(c, text);
        RunIsWord(c, text);
        VisibleRun(c.space, text, n);
        TokensSpell(c, text[n..]);
        FlatCons(text[..n], Tokens(c, text[n..]));
      } else {
        TokensSpell(c, text[1..]);
        FlatCons(text[..1], Tokens(c, text[1..]));
      }
    }
  }

  lemma {:induction false} TokensAreTokens(c: Classes, text: string)
    ensures AreTokens(c, Tokens(c, text))
    decreases |text|
  {
    if text != "" {
      if text[0] in c.word {
        RunIsWord(c, text);
        TokensAreTokens(c, text[Run(c, text)..]);
      } else {
        TokensAreTokens(c, text[1..]);
      }
    }
  }

  lemma {:induction false} RunOf(c: Classes, t: string, rest: string)
    requires forall i :: 0 <= i < |t| ==> t[i] in c.word
    requires rest == "" || rest[0] !in c.word
    ensures Run(c, t + rest) == |t|
  {
    if t == "" {
      assert t + rest == rest;
    } else {
      RunOf(c, t[1..], rest);
      assert (t + rest)[1..] == t[1..] + rest;
    }
  }

  lemma TokensCons(c: Classes, t: string, rest: string)
    requires IsToken(c, t) && (rest == "" || rest[0] !in c.word)
    ensures Tokens(c, t + rest) == [t] + Tokens(c, rest)
  {
    assert (t + rest)[0] == t[0];
    assert (t + rest)[..|t|] == t && (t + rest)[|t|..] == rest;
    if t[0] in c.word {
      RunOf(c, t, rest);
    }
  }

  /** Tokenizing tokens joined by blanks gives the tokens back. */
  lemma {:induction false} TokensOfJoin(c: Classes, ts: seq<string>)
    requires Sound(c) && AreTokens(c, ts)
    ensures Tokens(c, JoinWith(ts, " ")) == ts
  {
    if |ts| == 1 {
      TokensCons(c, ts[0], "");
      assert ts[0] + "" == ts[0];
    } else if ts != [] {
      var rest := JoinWith(ts[1..], " ");
      TokensOfJoin(c, ts[1..]);
      assert (" " + rest)[1..] == rest;
      TokensCons(c, ts[0], " " + rest);
      assert JoinWith(ts, " ") == ts[0] + (" " + rest);
    }
  }

  // ----- The vocabulary ----------------------------------------------------------------------------------

  const UNK := "[UNK]"

  /** Each token's id, and each id's token. */
  function IdsOf(vocab: map<string, nat>, ts: seq<string>): seq<nat>
    requires forall i :: 0 <= i < |ts| ==> ts[i] in vocab
  {
    if ts == [] then [] else IdsOf(vocab, ts[..|ts| - 1]) + [vocab[ts[|ts| - 1]]]
  }

  function Spell(inv: map<nat, string>, id: nat): string { if id in inv then inv[id] else UNK }

  function SpellAll(inv: map<nat, string>, ids: seq<nat>): seq<string> {
    if ids == [] then []
    else
      var t := Spell(inv, ids[|ids| - 1]);
      SpellAll(inv, ids[..|ids| - 1]) + if t == "" then [] else [t]
  }

  /** The two tables are inverse to each other, ids are numbered from zero without a gap, and no token is
      empty. */
  ghost predicate Inverse(vocab: map<string, nat>, inv: map<nat, string>) {
    && (forall t :: t in vocab ==> t != "" && vocab[t] in inv && inv[vocab[t]] == t)
    && (forall i: nat :: i in inv ==> inv[i] in vocab && vocab[inv[i]] == i)
    && (forall i: nat :: i in inv <==> i < |vocab|)
  }

  /** Adding entries never changes an id. */
  ghost predicate Extends(before: map<string, nat>, now: map<string, nat>) {
    forall t :: t in before ==> t in now && now[t] == before[t]
  }

  lemma {:induction false} SpellIds(vocab: map<string, nat>, inv: map<nat, string>, ts: seq<string>)
    requires Inverse(vocab, inv) && forall i :: 0 <= i < |ts| ==> ts[i] in vocab
    ensures SpellAll(inv, IdsOf(vocab, ts)) == ts
    ensures |IdsOf(vocab, ts)| == |ts|
  {
    if ts != [] {
      var front, last := ts[..|ts| - 1], ts[|ts| - 1];
      SpellIds(vocab, inv, front);
      SpellSnoc(inv, IdsOf(vocab, front), vocab[last]);
      assert ts == front + [last];
    }
  }

  /** An id with an entry spells its token, an unknown one the unknown mark; empty tokens are left out. */
  lemma SpellSnoc(inv: map<nat, string>, ids: seq<nat>, id: nat)
    ensures SpellAll(inv, ids + [id]) ==
            SpellAll(inv, ids) + if id !in inv then ["[UNK]"] else if inv[id] == "" then [] else [inv[id]]
  {
    assert (ids + [id])[..|ids|] == ids;
  }

  lemma {:induction false} IdsKept(before: map<string, nat>, now: map<string, nat>, ts: seq<string>)
    requires Extends(before, now) && forall i :: 0 <= i < |ts| ==> ts[i] in before
    ensures forall i :: 0 <= i < |ts| ==> ts[i] in now
    ensures IdsOf(now, ts) == IdsOf(before, ts)
  {
    if ts != [] {
      IdsKept(before, now, ts[..|ts| - 1]);
    }
  }

  lemma IdsGrow(before: map<string, nat>, now: map<string, nat>, ts: seq<string>, k: nat)
    requires Extends(before, now) && k < |ts| && ts[k] in now && forall i :: 0 <= i < k ==> ts[i] in before
    ensures forall i :: 0 <= i < k + 1 ==> ts[i] in now
    ensures IdsOf(now, ts[..k + 1]) == IdsOf(before, ts[..k]) + [now[ts[k]]]
  {
    IdsKept(before, now, ts[..k]);
    assert ts[..k + 1][..k] == ts[..k];
  }

  lemma InverseGrows(vocab: map<string, nat>, inv: map<nat, string>, t: string)
    requires Inverse(vocab, inv) && t !in vocab && t != ""
    ensures Inverse(vocab[t := |vocab|], inv[|vocab| := t]) && Extends(vocab, vocab[t := |vocab|])
  {
    assert |vocab[t := |vocab|]| == |vocab| + 1;
  }

  class SimpleTokenizer {
    const classes: Classes
    var vocab: map<string, nat>
    var inv: map<nat, string>

    ghost predicate Valid()
      reads this
    {
      Inverse(vocab, inv) && Sound(classes)
    }

    constructor (classes: Classes)
      requires Sound(classes)
      ensures Valid() && vocab == map[UNK := 0] && this.classes == classes
    {
      this.classes := classes;
      vocab, inv := map[UNK := 0], map[0 := UNK];
    }

    method ToId(token: string) returns (id: nat)
      requires Valid() && token != ""
      modifies this`vocab, this`inv
      ensures Valid() && Extends(old(vocab), vocab)
      ensures token in vocab && vocab[token] == id
      ensures token in old(vocab) ==> vocab == old(vocab)
      ensures token !in old(vocab) ==> id == |old(vocab)| && vocab == old(vocab)[token := id]
    {
      if token in vocab {
        return vocab[token];
      }
      InverseGrows(vocab, inv, token);
      id := |vocab|;
      vocab := vocab[token := id];
      inv := inv[id := token];
    }

    /** Ids of the tokens, new tokens getting the next free id. Encoding known tokens changes nothing. */
    method Encode(text: string) returns (ids: seq<nat>)
      requires Valid()
      modifies this`vocab, this`inv
      ensures Valid() && Extends(old(vocab), vocab)
      ensures var ts := Tokens(classes, text);
              && (forall i :: 0 <= i < |ts| ==> ts[i] in vocab)
              && ids == IdsOf(vocab, ts)
              && ((forall i :: 0 <= i < |ts| ==> ts[i] in old(vocab)) ==> vocab == old(vocab))
    {
      var ts := Tokens(classes, text);
      TokensAreTokens(classes, text);
      ids := [];
      for k := 0 to |ts|
        invariant Valid() && Extends(old(vocab), vocab)
        invariant forall i :: 0 <= i < k ==> ts[i] in vocab
        invariant ids == IdsOf(vocab, ts[..k])
        invariant (forall i :: 0 <= i < k ==> ts[i] in old(vocab)) ==> vocab == old(vocab)
      {
        assert IsToken(classes, ts[k]);
        ghost var before := vocab;
        var id := ToId(ts[k]);
        IdsGrow(before, vocab, ts, k);
        ids := ids + [id];
      }
      assert ts[..|ts|] == ts;
    }

    method Decode(ids: seq<nat>) returns (text: string)
      ensures text == JoinWith(SpellAll(inv, ids), " ")
    {
      var parts: seq<string> := [];
      for k := 0 to |ids|
        invariant parts == SpellAll(inv, ids[..k])
      {
        assert ids[..k + 1][..k] == ids[..k];
        var part := Spell(inv, ids[k]);
        if part != "" {
          parts := parts + [part];
        }
      }
      assert ids[..|ids|] == ids;
      text := JoinWith(parts, " ");
    }
  }

  /** Decoding encoded text gives the tokens joined by blanks, which tokenizes to the same tokens, so that
      encoding it again gives the same ids. */
  lemma DecodeOfEncode(c: Classes, vocab: map<string, nat>, inv: map<nat, string>, text: string)
    requires Inverse(vocab, inv) && Sound(c) && forall i :: 0 <= i < |Tokens(c, text)| ==> Tokens(c, text)[i] in vocab
    ensures Tokens(c, JoinWith(SpellAll(inv, IdsOf(vocab, Tokens(c, text))), " ")) == Tokens(c, text)
  {
    var ts := Tokens(c, text);
    SpellIds(vocab, inv, ts);
    TokensAreTokens(c, text);
    TokensOfJoin(c, ts);
  }

  // ----- The sliding window --------------------------------------------------------------------------------

  function Size(chunkSize: int): int { if chunkSize > 1 then chunkSize else 1 }

  function Overlap(chunkSize: int, overlap: int): (ov: nat)
    ensures ov < Size(chunkSize)
  {
    if overlap <= 0 then 0 else if overlap < Size(chunkSize) - 1 then overlap else Size(chunkSize) - 1
  }

  function WindowsFrom<T>(tokens: seq<T>, size: nat, ov: nat, i: nat): (ws: seq<seq<T>>)
    requires ov < size && i < |tokens|
    ensures ws != []
    decreases |tokens| - i
  {
    if i + size >= |tokens| then [tokens[i..]]
    else [tokens[i..i + size]] + WindowsFrom(tokens, size, ov, i + size - ov)
  }

  function Windows<T>(tokens: seq<T>, size: nat, ov: nat): seq<seq<T>>
    requires ov < size
  {
    if tokens == [] then [] else WindowsFrom(tokens, size, ov, 0)
  }

  /** The first window whole, every later one without its first ov tokens. */
  function Stitch<T>(ws: seq<seq<T>>, ov: nat): seq<T> {
    if ws == [] then [] else ws[0] + Later(ws[1..], ov)
  }

  function Later<T>(ws: seq<seq<T>>, ov: nat): seq<T> {
    if ws == [] then [] else (if ov <= |ws[0]| then ws[0][ov..] else []) + Later(ws[1..], ov)
  }

  lemma {:induction false} LaterRest<T>(tokens: seq<T>, size: nat, ov: nat, i: nat)
    requires ov < size && i + ov < |tokens|
    ensures Later(WindowsFrom(tokens, size, ov, i), ov) == tokens[i + ov..]
    decreases |tokens| - i
  {
    if i + size >= |tokens| {
      assert [tokens[i..]][1..] == [];
      assert tokens[i..][ov..] == tokens[i + ov..];
    } else {
      var rest := WindowsFrom(tokens, size, ov, i + size - ov);
      LaterRest(tokens, size, ov, i + size - ov);
      assert ([tokens[i..i + size]] + rest)[1..] == rest;
      assert tokens[i..i + size][ov..] == tokens[i + ov..i + size];
      assert tokens[i + ov..i + size] + tokens[i + size..] == tokens[i + ov..];
    }
  }

  /** The windows put together are the whole token sequence. */
  lemma WindowsCover<T>(tokens: seq<T>, size: nat, ov: nat)
    requires ov < size
    ensures Stitch(Windows(tokens, size, ov), ov) == tokens
  {
    if tokens == [] {
    } else if size >= |tokens| {
      assert [tokens[0..]][1..] == [];
      assert tokens[0..] + [] == tokens;
    } else {
      var rest := WindowsFrom(tokens, size, ov, size - ov);
      LaterRest(tokens, size, ov, size - ov);
      assert ([tokens[0..size]] + rest)[1..] == rest;
      assert tokens[0..size] + tokens[size..] == tokens;
    }
  }

  /** Every window but the last has exactly `size` tokens, the last at most that many and more than the
      overlap unless it is the only one; neighbours share exactly the overlap. */
  lemma {:induction false} WindowShape<T>(tokens: seq<T>, size: nat, ov: nat, i: nat, k: nat)
    requires ov < size && i < |tokens| && k < |WindowsFrom(tokens, size, ov, i)|
    ensures var ws := WindowsFrom(tokens, size, ov, i);
            && (if k + 1 < |ws| then |ws[k]| == size else |ws[k]| <= size)
            && (k > 0 ==> |ws[k]| > ov && |ws[k - 1]| >= ov && ws[k - 1][|ws[k - 1]| - ov..] == ws[k][..ov])
    decreases |tokens| - i
  {
    if i + size >= |tokens| {
      assert WindowsFrom(tokens, size, ov, i) == [tokens[i..]];
    } else {
      var j := i + size - ov;
      var rest := WindowsFrom(tokens, size, ov, j);
      assert WindowsFrom(tokens, size, ov, i) == [tokens[i..i + size]] + rest;
      if k > 0 {
        WindowShape(tokens, size, ov, j, k - 1);
      }
      if k == 1 {
        FirstShares(tokens, size, ov, i);
      }
    }
  }

  /** The end of a full window is the beginning of the next. */
  lemma FirstShares<T>(tokens: seq<T>, size: nat, ov: nat, i: nat)
    requires ov < size && i + size < |tokens|
    ensures var next := WindowsFrom(tokens, size, ov, i + size - ov)[0];
            |next| > ov && tokens[i..i + size][size - ov..] == next[..ov]
  {
    var j := i + size - ov;
    var next := WindowsFrom(tokens, size, ov, j)[0];
    assert next == if j + size >= |tokens| then tokens[j..] else tokens[j..j + size];
    SliceOfSlice(tokens, i, i + size, size - ov, size);
    SliceOfSlice(tokens, j, j + |next|, 0, ov);
    assert tokens[i..i + size][size - ov..] == tokens[i..i + size][size - ov..size];
  }

  /** For a chunk size of at least one and an overlap below it, as configured: every window but the last
      has exactly chunk_size tokens and neighbours share exactly the overlap. A smaller chunk size
      counts as one, an overlap of the chunk size or more as one less than it. */
  lemma ConfiguredWindows<T>(tokens: seq<T>, chunkSize: int, overlap: int, k: nat)
    requires k < |Windows(tokens, Size(chunkSize), Overlap(chunkSize, overlap))|
    ensures var ws := Windows(tokens, Size(chunkSize), Overlap(chunkSize, overlap));
            var size := if chunkSize < 1 then 1 else chunkSize;
            var shared := if overlap < 0 then 0 else if overlap < size then overlap else size - 1;
            && (if k + 1 < |ws| then |ws[k]| == size else |ws[k]| <= size)
            && (k > 0 ==> |ws[k]| > shared && |ws[k - 1]| >= shared && ws[k - 1][|ws[k - 1]| - shared..] == ws[k][..shared])
  {
    var size: nat, ov := Size(chunkSize), Overlap(chunkSize, overlap);
    WindowShape(tokens, size, ov, 0, k);
    assert Windows(tokens, size, ov) == WindowsFrom(tokens, size, ov, 0);
  }

  // ----- Where the windows are found -----------------------------------------------------------------------

  /** The first occurrence at or after `pos`, or else the first in the text. */
  function Place(text: string, part: string, pos: nat): (r: Option<nat>) {
    var i := Find(text, part, pos);
    if i != -1 then Some(i)
    else
      var j := Find(text, part, 0);
      if j != -1 then Some(j) else None
  }

  /** Where the search goes on: behind the part if it was found. */
  function SearchFrom(text: string, part: string, pos: nat): nat {
    var p := Place(text, part, pos);
    if p.Some? then p.value + |part| else pos
  }

  /** The places of the parts, each searched for from the end of the one last found. */
  function Places(text: string, parts: seq<string>, pos: nat): (r: seq<Option<nat>>)
    ensures |r| == |parts|
  {
    if parts == [] then []
    else [Place(text, parts[0], pos)] + Places(text, parts[1..], SearchFrom(text, parts[0], pos))
  }

  function DecodeAll<T>(decode: seq<T> -> string, windows: seq<seq<T>>): (r: seq<string>)
    ensures |r| == |windows| && forall k :: 0 <= k < |r| ==> r[k] == decode(windows[k])
  {
    seq(|windows|, (k: nat) requires k < |windows| => decode(windows[k]))
  }

  /** A recorded place spells the part, and none is recorded exactly when the text does not contain it. */
  lemma {:induction false} PlacesSpell(text: string, parts: seq<string>, pos: nat, k: nat)
    requires k < |parts|
    ensures var p := Places(text, parts, pos)[k];
            if p.Some? then OccursAt(text, parts[k], p.value) else Free(text, parts[k])
  {
    if k == 0 {
      FindIsFirst(text, parts[0], 0);
    } else {
      PlacesSpell(text, parts[1..], SearchFrom(text, parts[0], pos), k - 1);
    }
  }

  lemma PlacesCons(text: string, part: string, rest: seq<string>, pos: nat)
    ensures Places(text, [part] + rest, pos) == [Place(text, part, pos)] + Places(text, rest, SearchFrom(text, part, pos))
  {
    assert ([part] + rest)[1..] == rest;
  }

  lemma {:induction false} PlacesSnoc(text: string, parts: seq<string>, part: string, pos: nat)
    ensures Places(text, parts + [part], pos) ==
            Places(text, parts, pos) + [Place(text, part, Searched(text, parts, pos))]
  {
    if parts == [] {
      PlacesCons(text, part, [], pos);
      assert [] + [part] == [part] + [];
    } else {
      var next := SearchFrom(text, parts[0], pos);
      PlacesSnoc(text, parts[1..], part, next);
      PlacesCons(text, parts[0], parts[1..] + [part], pos);
      assert parts + [part] == [parts[0]] + (parts[1..] + [part]);
    }
  }

  /** Where the search for the next part begins. */
  function Searched(text: string, parts: seq<string>, pos: nat): nat {
    if parts == [] then pos else Searched(text, parts[1..], SearchFrom(text, parts[0], pos))
  }

  lemma {:induction false} SearchedSnoc(text: string, parts: seq<string>, part: string, pos: nat)
    ensures Searched(text, parts + [part], pos) == SearchFrom(text, part, Searched(text, parts, pos))
  {
    if parts == [] {
      assert [] + [part] == [part] && [part][1..] == [];
    } else {
      assert (parts + [part])[1..] == parts[1..] + [part];
      SearchedSnoc(text, parts[1..], part, SearchFrom(text, parts[0], pos));
    }
  }

  /** One more window, and the rest. */
  lemma WindowsNext<T>(tokens: seq<T>, size: nat, ov: nat, i: nat, before: seq<seq<T>>)
    requires ov < size && i < |tokens|
    ensures var rest := WindowsFrom(tokens, size, ov, i);
            if i + size >= |tokens| then before + rest == before + [tokens[i..|tokens|]]
            else before + rest == (before + [tokens[i..i + size]]) + WindowsFrom(tokens, size, ov, i + size - ov)
  {
    if i + size >= |tokens| {
      assert tokens[i..|tokens|] == tokens[i..];
    }
  }

  /** The windows of the tokens with the place of each decoded window in the text. */
  method ChunkTokens<T>(text: string, tokens: seq<T>, decode: seq<T> -> string, chunkSize: int, overlap: int)
    returns (windows: seq<seq<T>>, places: seq<Option<nat>>)
    ensures windows == Windows(tokens, Size(chunkSize), Overlap(chunkSize, overlap))
    ensures places == Places(text, DecodeAll(decode, windows), 0)
  {
    var size: nat, ov := Size(chunkSize), Overlap(chunkSize, overlap);
    var step := size - ov;
    if step <= 0 {
      step := 1;
    }
    windows, places := [], [];
    var searchPos: nat, i: nat := 0, 0;
    while i < |tokens|
      invariant i < |tokens| ==> windows + WindowsFrom(tokens, size, ov, i) == Windows(tokens, size, ov)
      invariant i >= |tokens| ==> tokens == [] && windows == []
      invariant places == Places(text, DecodeAll(decode, windows), 0)
      invariant searchPos == Searched(text, DecodeAll(decode, windows), 0)
      decreases |tokens| - i
    {
      var end := if i + size < |tokens| then i + size else |tokens|;
      WindowsNext(tokens, size, ov, i, windows);
      windows, places, searchPos := AddWindow(text, decode, windows, places, searchPos, tokens[i..end]);
      if end >= |tokens| {
        break;
      }
      i := i + step;
    }
  }

  /** One window: decoded and searched for, first behind the last one found, then from the start. */
  method AddWindow<T>(text: string, decode: seq<T> -> string, windows: seq<seq<T>>, places: seq<Option<nat>>,
      searchPos: nat, window: seq<T>)
    returns (nextWindows: seq<seq<T>>, nextPlaces: seq<Option<nat>>, nextPos: nat)
    requires places == Places(text, DecodeAll(decode, windows), 0)
    requires searchPos == Searched(text, DecodeAll(decode, windows), 0)
    ensures nextWindows == windows + [window]
    ensures nextPlaces == Places(text, DecodeAll(decode, nextWindows), 0)
    ensures nextPos == Searched(text, DecodeAll(decode, nextWindows), 0)
  {
    var decoded := decode(window);
    var idx := Find(text, decoded, searchPos);
    if idx == -1 {
      idx := Find(text, decoded, 0);
    }
    ghost var parts := DecodeAll(decode, windows);
    PlacesSnoc(text, parts, decoded, 0);
    SearchedSnoc(text, parts, decoded, 0);
    nextWindows := windows + [window];
    assert DecodeAll(decode, nextWindows) == parts + [decoded];
    if idx == -1 {
      nextPlaces, nextPos := places + [None], searchPos;
    } else {
      nextPlaces, nextPos := places + [Some(idx)], idx + |decoded|;
    }
  }
}
