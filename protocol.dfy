/**
 * The session engine of `IRCBot` as values: the fields the handlers update, one
 * function per built-in handler, the dispatcher `process_line`, and `process` as a
 * fold of the dispatcher over the framed lines. The class in module Bot is proved
 * to do exactly what these functions say.
 */
module Protocol {
  import opened Separators
  import Whitespace
  import Framing
  import Isupport

  /** A parsed protocol line: its verb (command word or three-digit numeric) and arguments, the trailing one last. */
  datatype Line = Line(verb: string, args: seq<string>)

  /**
   * The exceptions the engine raises: `ConnectionError(reason)` from ERROR, `IndexError`
   * from a missing argument, and `AttributeError` from the TLS branch of the constructor.
   */
  datatype Fault = ConnectionError(reason: string) | IndexError | AttributeError

  datatype Outcome = Done | Raised(fault: Fault)

  /**
   * The session fields the engine may update; `sent` is every write to the socket,
   * in order, standing in for the transport.
   */
  datatype Session = Session(
    netname: string,
    servername: string,
    ircdver: string,
    umodes: seq<string>,
    channels: map<string, seq<string>>,
    isupport: Isupport.IsupportMap,
    sent: seq<string>)

  /** The session after a step, and whether the step raised. */
  datatype Effect = Effect(session: Session, outcome: Outcome)

  function Last(args: seq<string>): string
    requires |args| > 0
  {
    args[|args| - 1]
  }

  /** `send_line(text)`: one more socket write, `text` and CR LF. */
  function Send(s: Session, text: string): (r: Session)
    ensures r.sent == s.sent + [Framing.Wire(text)]
    ensures r.(sent := s.sent) == s
  {
    s.(sent := s.sent + [Framing.Wire(text)])
  }

  /** The two registration lines the constructor sends, NICK first. */
  function Registration(nick: string, user: string, gecos: string): seq<string> {
    ["NICK " + nick, "USER " + user + " " + user + " " + user + " :" + gecos]
  }

  /** The session fields as `__init__` leaves them before it registers. */
  function Initial(netname: string): Session {
    Session(netname, "", "", [], map[], map[], [])
  }

  /**
   * `__init__` as intended: when `ssl` is set the socket is replaced by its TLS wrapper
   * (transport, the identity on this model), then NICK and USER are sent over it,
   * whatever `ssl` is.
   */
  function Startup(netname: string, nick: string, user: string, gecos: string, ssl: bool): (e: Effect)
    ensures e.outcome == Done
    ensures e.session.(sent := []) == Initial(netname)
    ensures e.session.sent == Framing.WireAll(Registration(nick, user, gecos))
  {
    var reg := Registration(nick, user, gecos);
    Effect(Send(Send(Initial(netname), reg[0]), reg[1]), Done)
  }

  /**
   * `__init__` as written: the parameter `ssl` hides the module `ssl`, so for a true `ssl`
   * the lookup of `wrap_socket` on a bool raises before either registration line is sent.
   */
  function StartupAsWritten(netname: string, nick: string, user: string, gecos: string, ssl: bool): (e: Effect)
    ensures e.outcome.Done? <==> !ssl
    ensures ssl ==> e == Effect(Initial(netname), Raised(AttributeError))
    ensures !ssl ==> e == Startup(netname, nick, user, gecos, ssl)
  {
    if ssl then Effect(Initial(netname), Raised(AttributeError))
    else Startup(netname, nick, user, gecos, ssl)
  }

  /** With the default identity and `ssl` set, the code as written registers nothing, where the intended start-up sends two lines. */
  lemma SslStartupSendsNothing()
    ensures StartupAsWritten("ExampleNet", "AmayaTest1", "amaya", "Amaya 0.1", true).session.sent == []
    ensures |Startup("ExampleNet", "AmayaTest1", "amaya", "Amaya 0.1", true).session.sent| == 2
  {
  }

  /**
   * The intended start-up registers over TLS as well as in the clear: a server framing the
   * writes receives NICK then USER, with nothing left over.
   */
  lemma StartupRegisters(netname: string, nick: string, user: string, gecos: string, ssl: bool)
    requires forall k :: 0 <= k < 2 ==> !Contains(Registration(nick, user, gecos)[k], Framing.CRLF)
    ensures var e := Startup(netname, nick, user, gecos, ssl);
            e.outcome == Done &&
            Framing.Frame("", Framing.Flatten(e.session.sent)) == Framing.Framed(Registration(nick, user, gecos), "")
  {
    RegistrationFramesBack(nick, user, gecos);
  }

  function ModeLine(nick: string): string {
    "MODE " + nick + " +B"
  }

  function PongLine(token: string): string {
    "PONG :" + token
  }

  /** `on_001` (RPL_WELCOME): the network name is the fourth word of the last argument. */
  function Welcome(s: Session, line: Line): (e: Effect)
    ensures e.session.(netname := s.netname) == s
    ensures e.outcome.Done? <==> |line.args| > 0 && |Whitespace.Words(Last(line.args))| >= 4
    ensures e.outcome.Done? ==> e.session.netname == Whitespace.Words(Last(line.args))[3]
    ensures e.outcome.Raised? ==> e == Effect(s, Raised(IndexError))
  {
    if |line.args| == 0 then Effect(s, Raised(IndexError))
    else
      var words := Whitespace.Words(Last(line.args));
      if |words| < 4 then Effect(s, Raised(IndexError))
      else Effect(s.(netname := words[3]), Done)
  }

  /**
   * `on_004` (RPL_MYINFO): server name from the first argument, version from the second,
   * and MODE <nick> +B if the fourth argument offers "B". Each assignment happens before
   * the next index is taken, so a short line leaves the fields assigned so far.
   */
  function MyInfo(s: Session, nick: string, line: Line): (e: Effect)
    ensures e.session.(servername := s.servername, ircdver := s.ircdver, sent := s.sent) == s
    ensures e.session.servername == if |line.args| >= 1 then line.args[0] else s.servername
    ensures e.session.ircdver == if |line.args| >= 2 then line.args[1] else s.ircdver
    ensures e.outcome == if |line.args| >= 4 then Done else Raised(IndexError)
    ensures e.session.sent != s.sent <==> |line.args| >= 4 && 'B' in line.args[3]
    ensures e.session.sent != s.sent ==> e.session.sent == s.sent + [Framing.Wire(ModeLine(nick))]
  {
    var args := line.args;
    if |args| == 0 then Effect(s, Raised(IndexError))
    else
      var s1 := s.(servername := args[0]);
      if |args| == 1 then Effect(s1, Raised(IndexError))
      else
        var s2 := s1.(ircdver := args[1]);
        if |args| < 4 then Effect(s2, Raised(IndexError))
        else if 'B' in args[3] then Effect(Send(s2, ModeLine(nick)), Done)
        else Effect(s2, Done)
  }

  /** `line.args[1:]`. */
  function Tail(args: seq<string>): seq<string> {
    if |args| == 0 then [] else args[1..]
  }

  /** `on_005` (RPL_ISUPPORT): fold every argument after the first into the ISUPPORT map. */
  function IsupportReply(s: Session, line: Line): (e: Effect)
    ensures e.outcome == Done
    ensures e.session.(isupport := s.isupport) == s
    ensures e.session.isupport.Keys == s.isupport.Keys + Isupport.KeysOf(Tail(line.args))
  {
    Effect(s.(isupport := Isupport.Fold(s.isupport, Tail(line.args))), Done)
  }

  /** `on_ERROR`: the server closes the link; raise with its reason and change nothing. */
  function ErrorReply(s: Session, line: Line): (e: Effect)
    ensures e.session == s && e.outcome.Raised?
    ensures e.outcome.fault.ConnectionError? <==> |line.args| > 0
    ensures |line.args| > 0 ==> e.outcome.fault.reason == Last(line.args)
  {
    if |line.args| == 0 then Effect(s, Raised(IndexError))
    else Effect(s, Raised(ConnectionError(Last(line.args))))
  }

  /** The verbs that have an `on_` handler. */
  predicate HasHandler(verb: string) {
    verb == "001" || verb == "004" || verb == "005" || verb == "ERROR"
  }

  /** The `on_<verb>` lookup: a built-in handler, or nothing. */
  function Handle(s: Session, nick: string, line: Line): (e: Effect)
    ensures !HasHandler(line.verb) ==> e == Effect(s, Done)
  {
    match line.verb
    case "001" => Welcome(s, line)
    case "004" => MyInfo(s, nick, line)
    case "005" => IsupportReply(s, line)
    case "ERROR" => ErrorReply(s, line)
    case _ => Effect(s, Done)
  }

  /** `process_line`: answer PING first, then run the verb's handler if there is one. */
  function Dispatch(s: Session, nick: string, line: Line): (e: Effect)
    // the outgoing stream only grows, and nothing writes the user modes or the channels
    ensures s.sent <= e.session.sent
    ensures e.session.umodes == s.umodes && e.session.channels == s.channels
    // PING: exactly one PONG with the last argument, and it is the first thing sent
    ensures line.verb == "PING" && |line.args| > 0 ==>
              e == Effect(Send(s, PongLine(Last(line.args))), Done)
    ensures line.verb == "PING" && |line.args| == 0 ==> e == Effect(s, Raised(IndexError))
    // a verb without a handler is dropped
    ensures line.verb != "PING" && !HasHandler(line.verb) ==> e == Effect(s, Done)
    // only ERROR raises a ConnectionError, and it changes nothing
    ensures e.outcome.Raised? && e.outcome.fault.ConnectionError? ==>
              line.verb == "ERROR" && |line.args| > 0 && e.session == s && e.outcome.fault.reason == Last(line.args)
  {
    if line.verb == "PING" then
      if |line.args| == 0 then Effect(s, Raised(IndexError))
      else Handle(Send(s, PongLine(Last(line.args))), nick, line)
    else Handle(s, nick, line)
  }

  /** The `for` loop of `process`: dispatch the lines in order, stopping at the first that raises. */
  function RunLines(s: Session, nick: string, lines: seq<Line>): (e: Effect)
    ensures s.sent <= e.session.sent
    ensures e.session.umodes == s.umodes && e.session.channels == s.channels
    decreases |lines|
  {
    if |lines| == 0 then Effect(s, Done)
    else
      var first := Dispatch(s, nick, lines[0]);
      if first.outcome.Raised? then first else RunLines(first.session, nick, lines[1..])
  }

  /** Running two batches of lines one after the other is running them together. */
  lemma {:induction false} RunLinesAppend(s: Session, nick: string, a: seq<Line>, b: seq<Line>)
    ensures var ea := RunLines(s, nick, a);
            RunLines(s, nick, a + b) == if ea.outcome.Raised? then ea else RunLines(ea.session, nick, b)
    decreases |a|
  {
    if |a| == 0 {
      assert a + b == b;
    } else {
      assert (a + b)[0] == a[0];
      assert (a + b)[1..] == a[1..] + b;
      var first := Dispatch(s, nick, a[0]);
      if first.outcome.Done? {
        RunLinesAppend(first.session, nick, a[1..], b);
      }
    }
  }

  /** Lines that raise nothing leave the fault-free state reached by dispatching each in turn. */
  lemma RunLinesStep(s: Session, nick: string, a: seq<Line>, line: Line)
    requires RunLines(s, nick, a).outcome == Done
    ensures RunLines(s, nick, a + [line]) == Dispatch(RunLines(s, nick, a).session, nick, line)
  {
    RunLinesAppend(s, nick, a, [line]);
    var d := Dispatch(RunLines(s, nick, a).session, nick, line);
    assert [line][1..] == [];
    assert RunLines(d.session, nick, []) == Effect(d.session, Done);
  }

  /** The external line parser, applied to every framed line. */
  function ParseAll(parse: string -> Line, raw: seq<string>): seq<Line>
  {
    seq(|raw|, k requires 0 <= k < |raw| => parse(raw[k]))
  }

  /** The result of `process`: the session, the new carried fragment, and whether it raised. */
  datatype FeedResult = FeedResult(session: Session, buffer: string, outcome: Outcome)

  /** `process` on one received chunk: frame, keep the fragment, dispatch the complete lines. */
  function Feed(s: Session, nick: string, buf: string, chunk: string, parse: string -> Line): (f: FeedResult)
    ensures var framed := Framing.Frame(buf, chunk);
            buf + chunk == Terminated(framed.lines, Framing.CRLF) + f.buffer
    ensures !Contains(f.buffer, Framing.CRLF)
    ensures s.sent <= f.session.sent
  {
    var framed := Framing.Frame(buf, chunk);
    var e := RunLines(s, nick, ParseAll(parse, framed.lines));
    FeedResult(e.session, framed.rest, e.outcome)
  }

  /** `process` on `c1 + c2` dispatches the lines framed from `c1`, then those framed from the rest and `c2`. */
  lemma FeedConcat(s: Session, nick: string, buf: string, c1: string, c2: string, parse: string -> Line)
    ensures var fr1 := Framing.Frame(buf, c1);
            var fr2 := Framing.Frame(fr1.rest, c2);
            var e := RunLines(s, nick, ParseAll(parse, fr1.lines) + ParseAll(parse, fr2.lines));
            Feed(s, nick, buf, c1 + c2, parse) == FeedResult(e.session, fr2.rest, e.outcome)
  {
    var fr1 := Framing.Frame(buf, c1);
    var fr2 := Framing.Frame(fr1.rest, c2);
    Framing.FrameInTwoChunks(buf, c1, c2);
    assert ParseAll(parse, fr1.lines + fr2.lines) == ParseAll(parse, fr1.lines) + ParseAll(parse, fr2.lines);
  }

  /**
   * Receiving a stream in two chunks has the same effect as receiving it in one,
   * as long as the first chunk raised nothing.
   */
  lemma FeedInTwoChunks(s: Session, nick: string, buf: string, c1: string, c2: string, parse: string -> Line)
    requires Feed(s, nick, buf, c1, parse).outcome == Done
    ensures var f1 := Feed(s, nick, buf, c1, parse);
            Feed(f1.session, nick, f1.buffer, c2, parse) == Feed(s, nick, buf, c1 + c2, parse)
  {
    var fr1 := Framing.Frame(buf, c1);
    FeedConcat(s, nick, buf, c1, c2, parse);
    RunLinesAppend(s, nick, ParseAll(parse, fr1.lines), ParseAll(parse, Framing.Frame(fr1.rest, c2).lines));
  }

  /**
   * A chunk whose lines raise stops there: receiving more in the same chunk changes
   * neither the session nor the fault.
   */
  lemma FeedStopsAtFault(s: Session, nick: string, buf: string, c1: string, c2: string, parse: string -> Line)
    requires Feed(s, nick, buf, c1, parse).outcome.Raised?
    ensures var f1 := Feed(s, nick, buf, c1, parse);
            var f := Feed(s, nick, buf, c1 + c2, parse);
            f.session == f1.session && f.outcome == f1.outcome
  {
    var fr1 := Framing.Frame(buf, c1);
    FeedConcat(s, nick, buf, c1, c2, parse);
    RunLinesAppend(s, nick, ParseAll(parse, fr1.lines), ParseAll(parse, Framing.Frame(fr1.rest, c2).lines));
  }

  /** `PING :token123` is answered by exactly `PONG :token123`. */
  lemma PingExample(s: Session, nick: string)
    ensures Dispatch(s, nick, Line("PING", ["token123"])).session.sent == s.sent + ["PONG :token123\r\n"]
  {
    assert Framing.Wire(PongLine("token123")) == "PONG :token123\r\n";
  }

  /** The registration lines reach a server as exactly two lines, NICK then USER, when the identity has no CR LF. */
  lemma RegistrationFramesBack(nick: string, user: string, gecos: string)
    requires forall k :: 0 <= k < 2 ==> !Contains(Registration(nick, user, gecos)[k], Framing.CRLF)
    ensures Framing.Frame("", Framing.Flatten(Framing.WireAll(Registration(nick, user, gecos))))
            == Framing.Framed(Registration(nick, user, gecos), "")
  {
    Framing.SentLinesFrameBack(Registration(nick, user, gecos));
  }
}
