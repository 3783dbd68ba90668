/**
 * Python's `str.split()` with no argument: the maximal runs of non-whitespace
 * characters, leading and trailing whitespace ignored. `on_001` takes the fourth of
 * these from the welcome text.
 */
module Whitespace {

  /** The characters for which Python's `str.isspace()` holds. */
  predicate IsSpace(c: char) {
    var n := c as int;
    || 0x09 <= n <= 0x0D || 0x1C <= n <= 0x20
    || n == 0x85 || n == 0xA0 || n == 0x1680
    || 0x2000 <= n <= 0x200A || n == 0x2028 || n == 0x2029
    || n == 0x202F || n == 0x205F || n == 0x3000
  }

  /** A non-empty run of non-whitespace characters. */
  predicate IsWord(w: string) {
    |w| > 0 && forall i :: 0 <= i < |w| ==> !IsSpace(w[i])
  }

  predicate IsBlank(s: string) {
    forall i :: 0 <= i < |s| ==> IsSpace(s[i])
  }

  /** Length of the leading run of non-whitespace characters. */
  function SpanNonSpace(s: string): (n: nat)
    ensures n <= |s|
    ensures forall i :: 0 <= i < n ==> !IsSpace(s[i])
    ensures n < |s| ==> IsSpace(s[n])
  {
    if s == [] || IsSpace(s[0]) then 0 else 1 + SpanNonSpace(s[1..])
  }

  /** `str.split()`: every element is a word. */
  function Words(s: string): (ws: seq<string>)
    ensures forall k :: 0 <= k < |ws| ==> IsWord(ws[k])
    decreases |s|
  {
    if s == [] then []
    else if IsSpace(s[0]) then Words(s[1..])
    else
      var n := SpanNonSpace(s);
      [s[..n]] + Words(s[n..])
  }

  /** The span is determined by its two properties. */
  lemma SpanUnique(s: string, n: nat)
    requires n <= |s|
    requires forall i :: 0 <= i < n ==> !IsSpace(s[i])
    requires n < |s| ==> IsSpace(s[n])
    ensures SpanNonSpace(s) == n
  {
  }

  /** Whitespace alone holds no word. */
  lemma {:induction false} WordsOfBlank(s: string)
    requires IsBlank(s)
    ensures Words(s) == []
    decreases |s|
  {
    if s != [] {
      WordsOfBlank(s[1..]);
    }
  }

  /** A single word splits to itself. */
  lemma WordsOfWord(w: string)
    requires IsWord(w)
    ensures Words(w) == [w]
  {
    SpanUnique(w, |w|);
    assert w[..|w|] == w;
    assert w[|w|..] == [];
  }

  /** A whitespace character separates: the words on either side are kept apart and in order. */
  lemma {:induction false} WordsAcrossSpace(a: string, c: char, b: string)
    requires IsSpace(c)
    ensures Words(a + [c] + b) == Words(a) + Words(b)
    decreases |a|
  {
    var s := a + [c] + b;
    if a == [] {
      assert s == [c] + b;
      assert s[1..] == b;
    } else if IsSpace(a[0]) {
      WordsAcrossSpace(a[1..], c, b);
      assert s[1..] == a[1..] + [c] + b;
    } else {
      var n := SpanNonSpace(a);
      SpanAcrossSpace(a, c, b);
      WordsAcrossSpace(a[n..], c, b);
      assert s[..n] == a[..n];
      assert s[n..] == a[n..] + [c] + b;
    }
  }

  /** The leading word of `a` is not extended past a following whitespace character. */
  lemma SpanAcrossSpace(a: string, c: char, b: string)
    requires IsSpace(c)
    ensures SpanNonSpace(a + [c] + b) == SpanNonSpace(a)
  {
    var s, n := a + [c] + b, SpanNonSpace(a);
    forall i | 0 <= i < n ensures !IsSpace(s[i]) {
      assert s[i] == a[i];
    }
    assert s[n] == if n < |a| then a[n] else c;
    SpanUnique(s, n);
  }

  /** Words joined by single spaces, as a sender writes them. */
  function JoinWords(ws: seq<string>): string {
    if |ws| == 0 then "" else if |ws| == 1 then ws[0] else ws[0] + " " + JoinWords(ws[1..])
  }

  /** Splitting undoes joining: `" ".join(ws).split() == ws` for words `ws`. */
  lemma {:induction false} WordsOfJoined(ws: seq<string>)
    requires forall k :: 0 <= k < |ws| ==> IsWord(ws[k])
    ensures Words(JoinWords(ws)) == ws
  {
    if |ws| == 1 {
      WordsOfWord(ws[0]);
    } else if |ws| > 1 {
      WordsOfJoined(ws[1..]);
      WordsOfWord(ws[0]);
      WordsAcrossSpace(ws[0], ' ', JoinWords(ws[1..]));
      assert ws == [ws[0]] + ws[1..];
    }
  }
}
