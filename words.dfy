/** Whitespace tokenisation (`file >> word` on a `std::string`) and per-word counting
    (`result[word]++`), as done by every `wordcount` of the repository. */
module Words {

  import opened Common

  /** The characters `isspace` accepts in the "C" locale: space, \t, \n, \v, \f, \r. */
  predicate IsSpace(c: char)
  {
    c == ' ' || 9 <= c as int <= 13
  }

  /** A token: a non-empty run of non-space characters. */
  predicate IsWord(w: string)
  {
    |w| > 0 && forall i :: 0 <= i < |w| ==> !IsSpace(w[i])
  }

  /** Length of the run of non-space characters at the start of `s`. */
  function WordLength(s: string): (n: nat)
    ensures n <= |s|
    ensures forall i :: 0 <= i < n ==> !IsSpace(s[i])
    ensures n < |s| ==> IsSpace(s[n])
  {
    if s == [] || IsSpace(s[0]) then 0 else 1 + WordLength(s[1..])
  }

  /** The words `while (file >> word)` reads from a file holding `s`: leading
      whitespace is skipped, then characters are taken up to the next whitespace. */
  function Tokens(s: string): (ws: seq<string>)
    ensures forall i :: 0 <= i < |ws| ==> IsWord(ws[i])
    decreases |s|
  {
    if s == [] then []
    else if IsSpace(s[0]) then Tokens(s[1..])
    else
      var n := WordLength(s);
      [s[..n]] + Tokens(s[n..])
  }

  /** Words written out separated by single spaces. */
  function Unwords(ws: seq<string>): string
  {
    if ws == [] then "" else ws[0] + " " + Unwords(ws[1..])
  }

  lemma {:induction false} WordLengthOfWord(w: string, rest: string)
    requires forall i :: 0 <= i < |w| ==> !IsSpace(w[i])
    requires rest == [] || IsSpace(rest[0])
    ensures WordLength(w + rest) == |w|
  {
    if w == [] {
      assert w + rest == rest;
    } else {
      assert (w + rest)[0] == w[0];
      assert (w + rest)[1..] == w[1..] + rest;
      WordLengthOfWord(w[1..], rest);
    }
  }

  /** Tokenising words joined by spaces gives the words back. */
  lemma {:induction false} TokensOfUnwords(ws: seq<string>)
    requires forall i :: 0 <= i < |ws| ==> IsWord(ws[i])
    ensures Tokens(Unwords(ws)) == ws
  {
    if ws != [] {
      var w, tail := ws[0], Unwords(ws[1..]);
      var s := w + " " + tail;
      assert Unwords(ws) == s;
      WordLengthOfWord(w, " " + tail);
      assert s == w + (" " + tail);
      assert s[..|w|] == w;
      assert s[|w|..] == " " + tail;
      assert Tokens(" " + tail) == Tokens(tail) by {
        assert (" " + tail)[1..] == tail;
      }
      TokensOfUnwords(ws[1..]);
    }
  }

  /** The reference count of every word of `ws`: its number of occurrences. */
  function Tally(ws: seq<string>): (m: map<string, int>)
    ensures forall w :: w in m <==> w in ws
  {
    map w | w in ws :: multiset(ws)[w]
  }

  /** `result[word]++`: a missing word starts from 0. */
  function Increment(m: map<string, int>, w: string): map<string, int>
  {
    m[w := (if w in m then m[w] else 0) + 1]
  }

  /** Counting one more word increments its entry. */
  lemma TallyStep(ws: seq<string>, i: nat)
    requires i < |ws|
    ensures Tally(ws[..i + 1]) == Increment(Tally(ws[..i]), ws[i])
  {
    assert ws[..i + 1] == ws[..i] + [ws[i]];
  }

  /** The counts of a file whose contents are `text`; `None` stands for a file that
      cannot be opened, which counts as empty. */
  function FileCounts(text: Option<string>): map<string, int>
  {
    if text.None? then map[] else Tally(Tokens(text.value))
  }

  /** Reads the words of a file one at a time and increments each one's entry; an
      unopenable file (`None`) yields the empty map. */
  method WordCount(text: Option<string>) returns (result: map<string, int>)
    ensures text.None? ==> result == map[]
    ensures text.Some? ==> result == Tally(Tokens(text.value))
    ensures result == FileCounts(text)
  {
    result := map[];
    if text.None? {
      return;
    }
    var ws := Tokens(text.value);
    var i := 0;
    while i < |ws|
      invariant 0 <= i <= |ws|
      invariant result == Tally(ws[..i])
    {
      TallyStep(ws, i);
      result := Increment(result, ws[i]);
      i := i + 1;
    }
    assert ws[..i] == ws;
  }
}
