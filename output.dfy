/** The result file every variant writes: one line `key<sep>value` per entry of the
    count map, in ascending key order (`ofstream << key << sep << value << endl`). */
module OutputFormat {

  import opened Common
  import opened Words
  import opened CountMaps
  import opened KeyOrder

  /** `main.cpp` and `wordcountone.cpp` separate key and value by a space, the
      threaded MPI word count by a tab. */
  const SPACE: char := ' '
  const TAB: char := '\t'

  function DigitChar(d: nat): char
    requires d < 10
  {
    ('0' as int + d) as char
  }

  predicate IsDigit(c: char)
  {
    '0' <= c <= '9'
  }

  /** The decimal digits of `n`, most significant first, no leading zeros. */
  function Digits(n: nat): (s: string)
    ensures |s| > 0 && forall i :: 0 <= i < |s| ==> IsDigit(s[i])
  {
    if n < 10 then [DigitChar(n)] else Digits(n / 10) + [DigitChar(n % 10)]
  }

  /** `operator<<` of an `int`: a minus sign for negative values, then the digits. */
  function Decimal(v: int): (s: string)
    ensures |s| > 0 && forall i :: 0 <= i < |s| ==> IsDigit(s[i]) || s[i] == '-'
  {
    if v < 0 then "-" + Digits(-v) else Digits(v)
  }

  function ParseDigits(s: string): nat
  {
    if s == [] then 0
    else
      var c := s[|s| - 1];
      10 * ParseDigits(s[..|s| - 1]) + (if IsDigit(c) then c as int - '0' as int else 0)
  }

  function ParseDecimal(s: string): int
  {
    if s != [] && s[0] == '-' then -(ParseDigits(s[1..]) as int) else ParseDigits(s)
  }

  lemma {:induction false} DigitsRoundTrip(n: nat)
    ensures ParseDigits(Digits(n)) == n
  {
    if n >= 10 {
      DigitsRoundTrip(n / 10);
      var s := Digits(n);
      assert s[..|s| - 1] == Digits(n / 10);
    }
  }

  lemma DecimalRoundTrip(v: int)
    ensures ParseDecimal(Decimal(v)) == v
  {
    if v < 0 {
      assert ("-" + Digits(-v))[1..] == Digits(-v);
      DigitsRoundTrip(-v);
    } else {
      DigitsRoundTrip(v);
    }
  }

  /** One output line. */
  function Line(k: string, v: int, sep: char): string
  {
    k + [sep] + Decimal(v) + "\n"
  }

  /** Position of the first `c` in `s`, or `|s|` when there is none. */
  function FirstIndex(s: string, c: char): (i: nat)
    ensures i <= |s| && (i < |s| ==> s[i] == c)
    ensures forall j :: 0 <= j < i ==> s[j] != c
  {
    if s == [] || s[0] == c then 0 else 1 + FirstIndex(s[1..], c)
  }

  lemma {:induction false} FirstIndexAfter(a: string, c: char, b: string)
    requires c !in a
    ensures FirstIndex(a + [c] + b, c) == |a|
  {
    if a != [] {
      assert (a + [c] + b)[1..] == a[1..] + [c] + b;
      FirstIndexAfter(a[1..], c, b);
    }
  }

  /** Reads a line back: the key up to the first separator, the value up to the
      newline that ends the line. */
  function ParseLine(line: string, sep: char): Option<(string, int)>
  {
    var i := FirstIndex(line, sep);
    if i + 1 >= |line| || line[|line| - 1] != '\n' then None
    else Some((line[..i], ParseDecimal(line[i + 1..|line| - 1])))
  }

  /** A key without the separator is read back with its value. */
  lemma LineRoundTrip(k: string, v: int, sep: char)
    requires sep !in k
    ensures ParseLine(Line(k, v, sep), sep) == Some((k, v))
  {
    var line := Line(k, v, sep);
    assert line == k + [sep] + (Decimal(v) + "\n");
    FirstIndexAfter(k, sep, Decimal(v) + "\n");
    assert line[..|k|] == k;
    assert line[|k| + 1..|line| - 1] == Decimal(v);
    DecimalRoundTrip(v);
  }

  function Concat(ls: seq<string>): string
  {
    if ls == [] then "" else Concat(ls[..|ls| - 1]) + ls[|ls| - 1]
  }

  lemma {:induction false} ConcatFront(ls: seq<string>)
    requires ls != []
    ensures Concat(ls) == ls[0] + Concat(ls[1..])
    decreases |ls|
  {
    var n := |ls| - 1;
    if n == 0 {
      assert ls[..0] == [] && ls[1..] == [];
    } else {
      var t := ls[1..];
      ConcatFront(ls[..n]);
      assert ls[..n][0] == ls[0];
      assert ls[..n][1..] == t[..n - 1];
      assert t[n - 1] == ls[n];
      assert Concat(t) == Concat(t[..n - 1]) + t[n - 1];
      assert Concat(ls) == Concat(ls[..n]) + ls[n];
      assert Concat(ls) == ls[0] + (Concat(t[..n - 1]) + t[n - 1]);
    }
  }

  /** The lines of a text, each with its newline (a last line without one kept as is). */
  function SplitLines(s: string): seq<string>
    decreases |s|
  {
    if s == [] then []
    else
      var i := FirstIndex(s, '\n');
      if i == |s| then [s] else [s[..i + 1]] + SplitLines(s[i + 1..])
  }

  predicate IsLine(l: string)
  {
    |l| > 0 && l[|l| - 1] == '\n' && '\n' !in l[..|l| - 1]
  }

  lemma {:induction false} SplitConcat(ls: seq<string>)
    requires forall i :: 0 <= i < |ls| ==> IsLine(ls[i])
    ensures SplitLines(Concat(ls)) == ls
    decreases |ls|
  {
    if ls != [] {
      ConcatFront(ls);
      var l := ls[0];
      var a := l[..|l| - 1];
      assert l == a + ['\n'];
      FirstIndexAfter(a, '\n', Concat(ls[1..]));
      assert Concat(ls) == a + ['\n'] + Concat(ls[1..]);
      assert Concat(ls)[..|l|] == l;
      assert Concat(ls)[|l|..] == Concat(ls[1..]);
      SplitConcat(ls[1..]);
    } else {
      assert Concat(ls) == "";
    }
  }

  /** The lines for the keys `ks` of `m`, in the order of `ks`. */
  function Lines(ks: seq<string>, m: CountMap, sep: char): (ls: seq<string>)
    requires forall i :: 0 <= i < |ks| ==> ks[i] in m
    ensures |ls| == |ks|
  {
    seq(|ks|, i requires 0 <= i < |ks| => Line(ks[i], m[ks[i]], sep))
  }

  /** One more key adds its line at the end. */
  lemma LinesStep(ks: seq<string>, m: CountMap, sep: char, i: nat)
    requires i < |ks| && forall j :: 0 <= j < |ks| ==> ks[j] in m
    ensures Concat(Lines(ks[..i + 1], m, sep)) == Concat(Lines(ks[..i], m, sep)) + Line(ks[i], m[ks[i]], sep)
  {
    var ls := Lines(ks[..i + 1], m, sep);
    assert ls[..i] == Lines(ks[..i], m, sep);
    assert ls[i] == Line(ks[i], m[ks[i]], sep);
  }

  /** `writeToFile`: iterates the map in key order and writes one line per entry. */
  method WriteToFile(m: CountMap, sep: char) returns (out: string, order: seq<string>)
    ensures StrictlyAscending(order) && forall k :: k in order <==> k in m
    ensures out == Concat(Lines(order, m, sep))
  {
    var ks := AscendingKeys(m.Keys);
    order := ks;
    out := "";
    var i := 0;
    while i < |ks|
      invariant 0 <= i <= |ks|
      invariant out == Concat(Lines(ks[..i], m, sep))
    {
      LinesStep(ks, m, sep, i);
      out := out + Line(ks[i], m[ks[i]], sep);
      i := i + 1;
    }
    assert ks[..i] == ks;
  }

  /** Reading the file back line by line gives every entry once, in ascending key
      order, provided no key holds the separator or a newline (a word never does when
      the separator is whitespace). */
  lemma OutputRoundTrip(order: seq<string>, m: CountMap, sep: char)
    requires forall i :: 0 <= i < |order| ==> order[i] in m && sep !in order[i] && '\n' !in order[i]
    requires sep != '\n'
    ensures |SplitLines(Concat(Lines(order, m, sep)))| == |order|
    ensures forall i :: 0 <= i < |order| ==>
      ParseLine(SplitLines(Concat(Lines(order, m, sep)))[i], sep) == Some((order[i], m[order[i]]))
  {
    var ls := Lines(order, m, sep);
    forall i | 0 <= i < |ls|
      ensures IsLine(ls[i])
    {
      var l := ls[i];
      assert l[..|l| - 1] == order[i] + [sep] + Decimal(m[order[i]]);
      assert '\n' !in Decimal(m[order[i]]);
    }
    SplitConcat(ls);
    forall i | 0 <= i < |order|
      ensures ParseLine(ls[i], sep) == Some((order[i], m[order[i]]))
    {
      LineRoundTrip(order[i], m[order[i]], sep);
    }
  }

  /** Words contain no whitespace, so the lines of a word-count map always read back. */
  lemma WordKeysReadBack(w: string)
    requires IsWord(w)
    ensures SPACE !in w && TAB !in w && '\n' !in w
  {
  }
}
