/**
 * The CR LF line framing of section 2.3 of RFC 2812, as `IRCBot.process` and
 * `IRCBot.send_line` use it: outbound text gets one terminator, and the inbound
 * stream is cut at every terminator, the unterminated tail being carried over.
 */
module Framing {
  import opened Separators

  const CRLF: string := "\r\n"

  /** What `send_line(text)` hands to the socket. */
  function Wire(text: string): string
  {
    text + CRLF
  }

  lemma CrlfNoSelfOverlap()
    ensures |CRLF| > 0 && NoSelfOverlap(CRLF)
  {
    forall k ensures !BorderAt(CRLF, k) {
      if 0 < k < 2 {
        assert CRLF[k..][0] != CRLF[..2 - k][0];
      }
    }
  }

  /** The complete lines found in the buffered text and the fragment kept for later. */
  datatype Framed = Framed(lines: seq<string>, rest: string)

  /** `process`: split the carried fragment plus the new chunk at CR LF; the last piece is the new fragment. */
  function Frame(buf: string, chunk: string): (f: Framed)
    ensures buf + chunk == Terminated(f.lines, CRLF) + f.rest
    ensures !Contains(f.rest, CRLF)
    ensures forall k :: 0 <= k < |f.lines| ==> !Contains(f.lines[k], CRLF)
  {
    var parts := Split(buf + chunk, CRLF);
    SplitRoundTrip(buf + chunk, CRLF);
    SplitPiecesFree(buf + chunk, CRLF);
    Framed(parts[..|parts| - 1], parts[|parts| - 1])
  }

  /** The framing is the only way to read the text as terminated CR-LF-free lines and a CR-LF-free fragment. */
  lemma FrameUnique(buf: string, chunk: string, lines: seq<string>, rest: string)
    requires buf + chunk == Terminated(lines, CRLF) + rest
    requires !Contains(rest, CRLF)
    requires forall k :: 0 <= k < |lines| ==> !Contains(lines[k], CRLF)
    ensures Frame(buf, chunk) == Framed(lines, rest)
  {
    CrlfNoSelfOverlap();
    SplitTerminated(lines, CRLF, rest);
    assert Split(rest, CRLF) == [rest];
    var parts := Split(buf + chunk, CRLF);
    assert parts == lines + [rest];
    assert parts[..|parts| - 1] == lines;
  }

  /**
   * Feeding two chunks one after the other frames the same lines, in the same order, and
   * leaves the same fragment as feeding their concatenation at once; a CR ending the first
   * chunk pairs with an LF starting the second.
   */
  lemma FrameInTwoChunks(buf: string, c1: string, c2: string)
    ensures var f1 := Frame(buf, c1);
            var f2 := Frame(f1.rest, c2);
            Frame(buf, c1 + c2) == Framed(f1.lines + f2.lines, f2.rest)
  {
    var f1 := Frame(buf, c1);
    var f2 := Frame(f1.rest, c2);
    var lines := f1.lines + f2.lines;
    assert buf + (c1 + c2) == Terminated(lines, CRLF) + f2.rest by {
      var t1, t2 := Terminated(f1.lines, CRLF), Terminated(f2.lines, CRLF);
      assert buf + c1 == t1 + f1.rest;
      assert f1.rest + c2 == t2 + f2.rest;
      TerminatedAppend(f1.lines, f2.lines, CRLF);
      calc {
        buf + (c1 + c2);
        (buf + c1) + c2;
        t1 + (f1.rest + c2);
        t1 + (t2 + f2.rest);
        (t1 + t2) + f2.rest;
      }
    }
    assert forall k :: 0 <= k < |lines| ==> !Contains(lines[k], CRLF) by {
      forall k | 0 <= k < |lines| ensures !Contains(lines[k], CRLF) {
        if k < |f1.lines| {
          assert lines[k] == f1.lines[k];
        } else {
          assert lines[k] == f2.lines[k - |f1.lines|];
        }
      }
    }
    FrameUnique(buf, c1 + c2, lines, f2.rest);
  }

  /** The bytes of a sequence of socket writes, in order. */
  function Flatten(writes: seq<string>): string {
    if |writes| == 0 then "" else writes[0] + Flatten(writes[1..])
  }

  /** Writes of `Wire(x)` for each `x` in order. */
  function WireAll(xs: seq<string>): seq<string>
  {
    seq(|xs|, k requires 0 <= k < |xs| => Wire(xs[k]))
  }

  lemma {:induction false} FlattenWires(xs: seq<string>)
    ensures Flatten(WireAll(xs)) == Terminated(xs, CRLF)
  {
    if |xs| > 0 {
      FlattenWires(xs[1..]);
      assert WireAll(xs)[1..] == WireAll(xs[1..]);
    }
  }

  /**
   * Sending is undone by receiving: a receiver framing what `send_line` wrote gets back each
   * line, in order, with nothing left over, provided no line carries a CR LF of its own.
   */
  lemma SentLinesFrameBack(xs: seq<string>)
    requires forall k :: 0 <= k < |xs| ==> !Contains(xs[k], CRLF)
    ensures Frame("", Flatten(WireAll(xs))) == Framed(xs, "")
  {
    FlattenWires(xs);
    assert !Contains("", CRLF);
    FrameUnique("", Flatten(WireAll(xs)), xs, "");
  }

  /** A single `send_line` of a CR-LF-free line reaches the receiver as exactly that line. */
  lemma WireFramesBack(x: string)
    requires !Contains(x, CRLF)
    ensures Frame("", Wire(x)) == Framed([x], "")
  {
    SentLinesFrameBack([x]);
    assert Flatten(WireAll([x])) == Wire(x);
  }
}
