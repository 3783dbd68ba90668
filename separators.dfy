/**
 * Python's `str.split(sep)` for a non-empty separator, as the session engine uses it:
 * with "\r\n" to frame the stream and with "=" to cut ISUPPORT tokens.
 * The pieces are the text between successive non-overlapping occurrences of `sep`,
 * scanning left to right; there is always at least one piece.
 */
module Separators {
  import opened Wrappers

  /** `sep` occurs in `s` starting at index `i`. */
  predicate OccursAt(s: string, sep: string, i: nat) {
    i + |sep| <= |s| && s[i..i + |sep|] == sep
  }

  /** The first occurrence of `sep` in `s` at or after `from`. */
  function FindFrom(s: string, sep: string, from: nat): (r: Option<nat>)
    requires from <= |s|
    ensures r.Some? ==> from <= r.value && r.value + |sep| <= |s|
    decreases |s| - from
  {
    if OccursAt(s, sep, from) then Some(from)
    else if |s| <= from + |sep| then None
    else FindFrom(s, sep, from + 1)
  }

  /** `FindFrom` finds an occurrence, the first one from `from` on, and misses none. */
  lemma {:induction false} FindFromSpec(s: string, sep: string, from: nat)
    requires from <= |s|
    ensures var r := FindFrom(s, sep, from);
            && (r.Some? ==> OccursAt(s, sep, r.value))
            && (r.Some? ==> forall j: nat :: from <= j < r.value ==> !OccursAt(s, sep, j))
            && (r.None? ==> forall j: nat :: from <= j ==> !OccursAt(s, sep, j))
    decreases |s| - from
  {
    if !OccursAt(s, sep, from) && from + |sep| < |s| {
      FindFromSpec(s, sep, from + 1);
    }
  }

  /** The first occurrence of `sep` in `s`, if any. */
  function Find(s: string, sep: string): (r: Option<nat>)
    ensures r.Some? ==> r.value + |sep| <= |s|
  {
    FindFrom(s, sep, 0)
  }

  /** `Find` returns the first occurrence, and `None` exactly when there is none. */
  lemma FindSpec(s: string, sep: string)
    ensures var r := Find(s, sep);
            && (r.Some? ==> OccursAt(s, sep, r.value))
            && (r.Some? ==> forall j: nat :: j < r.value ==> !OccursAt(s, sep, j))
            && (r.None? <==> forall j: nat :: !OccursAt(s, sep, j))
  {
    FindFromSpec(s, sep, 0);
  }

  /** `sep` occurs somewhere in `s`. */
  predicate Contains(s: string, sep: string) {
    Find(s, sep).Some?
  }

  /** Nothing before the first occurrence of `sep` contains `sep`. */
  lemma PrefixBeforeFirst(s: string, sep: string, i: nat)
    requires |sep| > 0 && i <= |s|
    requires forall j: nat :: j < i ==> !OccursAt(s, sep, j)
    ensures !Contains(s[..i], sep)
  {
    forall j: nat ensures !OccursAt(s[..i], sep, j) {
      if j + |sep| <= i {
        assert !OccursAt(s, sep, j);
        assert s[..i][j..j + |sep|] == s[j..j + |sep|];
      }
    }
    FindSpec(s[..i], sep);
  }

  /** `str.split(sep)`: always at least one piece; the lemmas below fix which pieces. */
  function Split(s: string, sep: string): (parts: seq<string>)
    requires |sep| > 0
    ensures |parts| >= 1
    decreases |s|
  {
    match Find(s, sep)
    case None => [s]
    case Some(i) => [s[..i]] + Split(s[i + |sep|..], sep)
  }

  /**
   * The first piece is a prefix of the text; the split has a single piece, the whole text,
   * exactly when `sep` does not occur.
   */
  lemma SplitOnePiece(s: string, sep: string)
    requires |sep| > 0
    ensures Split(s, sep)[0] <= s
    ensures |Split(s, sep)| == 1 <==> !Contains(s, sep)
    ensures |Split(s, sep)| == 1 <==> Split(s, sep)[0] == s
  {
    if Contains(s, sep) {
      var i := Find(s, sep).value;
      assert |Split(s, sep)| == 1 + |Split(s[i + |sep|..], sep)|;
      assert |Split(s, sep)[0]| == i < |s|;
    }
  }

  /** No piece of a split contains the separator. */
  lemma {:induction false} SplitPiecesFree(s: string, sep: string)
    requires |sep| > 0
    ensures forall k :: 0 <= k < |Split(s, sep)| ==> !Contains(Split(s, sep)[k], sep)
    decreases |s|
  {
    var f := Find(s, sep);
    FindSpec(s, sep);
    if f.Some? {
      var i := f.value;
      PrefixBeforeFirst(s, sep, i);
      SplitPiecesFree(s[i + |sep|..], sep);
    }
  }

  /** Each line followed by `sep`: what a sender writes for `lines`. */
  function Terminated(lines: seq<string>, sep: string): string {
    if |lines| == 0 then "" else lines[0] + sep + Terminated(lines[1..], sep)
  }

  /** A proper suffix of `sep` of length `|sep| - k` is also its prefix. */
  predicate BorderAt(sep: string, k: int) {
    0 < k < |sep| && sep[k..] == sep[..|sep| - k]
  }

  /** Two occurrences of `sep` can never overlap (true of "\r\n" and of any one-character separator). */
  ghost predicate NoSelfOverlap(sep: string) {
    forall k :: !BorderAt(sep, k)
  }

  /** Splitting gives back the text: all pieces but the last, each terminated, then the last. */
  lemma {:induction false} SplitRoundTrip(s: string, sep: string)
    requires |sep| > 0
    ensures var parts := Split(s, sep);
            Terminated(parts[..|parts| - 1], sep) + parts[|parts| - 1] == s
    decreases |s|
  {
    var f := Find(s, sep);
    if f.Some? {
      var i := f.value;
      var r := s[i + |sep|..];
      var tail := Split(r, sep);
      assert Split(s, sep) == [s[..i]] + tail;
      assert s[..i] + sep + r == s by {
        FindSpec(s, sep);
      }
      SplitRoundTrip(r, sep);
      TerminatedCons(s[..i], tail, sep);
    } else {
      assert Split(s, sep) == [s];
    }
  }

  /** One more leading piece adds that piece and a separator in front. */
  lemma TerminatedCons(p: string, tail: seq<string>, sep: string)
    requires |tail| >= 1
    ensures var parts := [p] + tail;
            Terminated(parts[..|parts| - 1], sep) + parts[|parts| - 1]
            == p + sep + (Terminated(tail[..|tail| - 1], sep) + tail[|tail| - 1])
  {
    var parts, front := [p] + tail, tail[..|tail| - 1];
    assert parts[..|parts| - 1] == [p] + front;
    assert ([p] + front)[1..] == front;
  }

  lemma {:induction false} TerminatedAppend(a: seq<string>, b: seq<string>, sep: string)
    ensures Terminated(a + b, sep) == Terminated(a, sep) + Terminated(b, sep)
  {
    if a != [] {
      TerminatedAppend(a[1..], b, sep);
      assert (a + b)[0] == a[0];
      assert (a + b)[1..] == a[1..] + b;
      assert Terminated(a + b, sep) == a[0] + sep + (Terminated(a[1..], sep) + Terminated(b, sep));
      assert Terminated(a, sep) == a[0] + sep + Terminated(a[1..], sep);
    } else {
      assert a + b == b;
    }
  }

  /** An occurrence of `sep` that straddles the end of `p` would make `sep` overlap itself. */
  lemma NoStraddle(p: string, sep: string, r: string, j: nat)
    requires j < |p| < j + |sep|
    requires !BorderAt(sep, |p| - j)
    ensures !OccursAt(p + sep + r, sep, j)
  {
    var s := p + sep + r;
    var k := |p| - j;
    if j + |sep| <= |s| {
      assert s[j..j + |sep|][k..] == sep[..|sep| - k];
    }
  }

  /** Text that starts with a `sep`-free piece and a separator splits off exactly that piece. */
  lemma SplitAfterPiece(p: string, sep: string, r: string)
    requires |sep| > 0 && NoSelfOverlap(sep) && !Contains(p, sep)
    ensures Split(p + sep + r, sep) == [p] + Split(r, sep)
  {
    var s := p + sep + r;
    FindSpec(p, sep);
    FindSpec(s, sep);
    assert s[|p|..|p| + |sep|] == sep;
    assert OccursAt(s, sep, |p|);
    forall j: nat | j < |p| ensures !OccursAt(s, sep, j) {
      if j + |sep| <= |p| {
        assert s[j..j + |sep|] == p[j..j + |sep|];
        assert !OccursAt(p, sep, j);
      } else {
        NoStraddle(p, sep, r, j);
      }
    }
    assert Find(s, sep) == Some(|p|);
    assert s[..|p|] == p;
    assert s[|p| + |sep|..] == r;
  }

  /** The inverse of the round trip: terminated `sep`-free lines split back into those lines. */
  lemma {:induction false} SplitTerminated(lines: seq<string>, sep: string, x: string)
    requires |sep| > 0 && NoSelfOverlap(sep)
    requires forall k :: 0 <= k < |lines| ==> !Contains(lines[k], sep)
    ensures Split(Terminated(lines, sep) + x, sep) == lines + Split(x, sep)
  {
    if lines == [] {
      assert Terminated(lines, sep) + x == x;
    } else {
      var more := lines[1..];
      var rest := Terminated(more, sep) + x;
      assert Split(rest, sep) == more + Split(x, sep) by {
        forall k | 0 <= k < |more| ensures !Contains(more[k], sep) {
          assert more[k] == lines[k + 1];
        }
        SplitTerminated(more, sep, x);
      }
      assert Split(Terminated(lines, sep) + x, sep) == [lines[0]] + Split(rest, sep) by {
        assert Terminated(lines, sep) + x == lines[0] + sep + rest;
        assert !Contains(lines[0], sep);
        SplitAfterPiece(lines[0], sep, rest);
      }
      assert lines == [lines[0]] + more;
    }
  }

  /** For a one-character separator, containing it is plain membership. */
  lemma ContainsChar(s: string, c: char)
    ensures Contains(s, [c]) <==> c in s
  {
    FindSpec(s, [c]);
    if c in s {
      var i :| 0 <= i < |s| && s[i] == c;
      assert s[i..i + 1] == [c];
      assert OccursAt(s, [c], i);
    } else {
      forall i: nat ensures !OccursAt(s, [c], i) {
        if i + 1 <= |s| {
          assert s[i..i + 1][0] == s[i];
        }
      }
    }
  }
}
