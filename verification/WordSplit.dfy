/** Words of a text as Python's str.split() without an argument gives them; `space` says which
    characters are whitespace. Words joined by one blank split into the same words again, which is what
    lets the context builder count the tokens of a text it has merged from two others.
 */
module WordSplit {
  import opened Text

  ghost predicate IsWord(space: set<char>, w: string) {
    w != "" && forall i :: 0 <= i < |w| ==> w[i] !in space
  }

  ghost predicate AllWords(space: set<char>, ws: seq<string>) {
    forall i :: 0 <= i < |ws| ==> IsWord(space, ws[i])
  }

  /** The length of the run of non-space characters at the start. */
  function Run(space: set<char>, text: string): (n: nat)
    ensures n <= |text|
  {
    if text == "" || text[0] in space then 0 else 1 + Run(space, text[1..])
  }

  function Words(space: set<char>, text: string): seq<string>
    decreases |text|
  {
    if text == "" then []
    else if text[0] in space then Words(space, text[1..])
    else [text[..Run(space, text)]] + Words(space, text[Run(space, text)..])
  }

  lemma {:induction false} RunIsFree(space: set<char>, text: string)
    ensures forall i :: 0 <= i < Run(space, text) ==> text[i] !in space
  {
    if text != "" && text[0] !in space {
      RunIsFree(space, text[1..]);
      forall i | 0 <= i < Run(space, text) ensures text[i] !in space {
        if i > 0 {
          assert text[i] == text[1..][i - 1];
        }
      }
    }
  }

  lemma {:induction false} RunOfWord(space: set<char>, w: string, rest: string)
    requires forall i :: 0 <= i < |w| ==> w[i] !in space
    requires rest == "" || rest[0] in space
    ensures Run(space, w + rest) == |w|
  {
    if w == "" {
      assert w + rest == rest;
    } else {
      RunOfWord(space, w[1..], rest);
      assert (w + rest)[1..] == w[1..] + rest;
    }
  }

  lemma {:induction false} WordsAreWords(space: set<char>, text: string)
    ensures AllWords(space, Words(space, text))
    decreases |text|
  {
    if text != "" {
      if text[0] in space {
        WordsAreWords(space, text[1..]);
      } else {
        RunIsFree(space, text);
        WordsAreWords(space, text[Run(space, text)..]);
      }
    }
  }

  /** No character but whitespace is lost: the words spell the text without it. */
  lemma {:induction false} WordsSpell(space: set<char>, text: string)
    ensures Flat(Words(space, text)) == Visible(space, text)
    decreases |text|
  {
    if text != "" {
      if text[0] in space {
        WordsSpell(space, text[1..]);
      } else {
        var n := Run(space, text);
        RunIsFree(space, text);
        VisibleRun(space, text, n);
        WordsSpell(space, text[n..]);
        FlatCons(text[..n], Words(space, text[n..]));
      }
    }
  }

  lemma WordsCons(space: set<char>, w: string, rest: string)
    requires IsWord(space, w) && (rest == "" || rest[0] in space)
    ensures Words(space, w + rest) == [w] + Words(space, rest)
  {
    RunOfWord(space, w, rest);
    assert (w + rest)[..|w|] == w && (w + rest)[|w|..] == rest;
    assert (w + rest)[0] == w[0];
  }

  /** Splitting words joined by one space gives the words back. */
  lemma {:induction false} WordsOfJoin(space: set<char>, ws: seq<string>)
    requires AllWords(space, ws) && ' ' in space
    ensures Words(space, JoinWith(ws, " ")) == ws
  {
    if |ws| == 1 {
      WordsCons(space, ws[0], "");
      assert ws[0] + "" == ws[0];
    } else if ws != [] {
      var rest := JoinWith(ws[1..], " ");
      WordsOfJoin(space, ws[1..]);
      assert (" " + rest)[1..] == rest;
      WordsCons(space, ws[0], " " + rest);
      assert JoinWith(ws, " ") == ws[0] + (" " + rest);
    }
  }
}
