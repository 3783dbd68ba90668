/**
 * `IRCBot`: one connection's session. The socket is replaced by the `sent` sequence of
 * writes (outbound) and by the chunk given to `Process` (inbound); every method is proved
 * to do exactly what the matching function of module Protocol says.
 */
module Bot {
  import opened Wrappers
  import opened Separators
  import Whitespace
  import Framing
  import Isupport
  import opened Protocol

  class IRCBot {
    // identity, set once by the constructor
    const host: string
    const ssl: bool
    const nick: string
    const user: string
    const gecos: string
    const nickservpass: Option<string>
    const encoding: string
    const sasl: bool
    const snomask: string

    /** The unterminated tail of the stream received so far. */
    var buf: string

    var netname: string
    var servername: string
    var ircdver: string
    var umodes: seq<string>
    /** Never written by the engine; the member record type is left open. */
    var channels: map<string, seq<string>>
    var isupport: Isupport.IsupportMap
    /** Every write to the socket, in order. */
    var sent: seq<string>

    /** The fields the handlers may update, as a value. */
    function State(): Session
      reads this
    {
      Session(netname, servername, ircdver, umodes, channels, isupport, sent)
    }

    /** `__init__`: empty session state, then NICK and USER registration. */
    constructor(host: string, port: int, ssl: bool := false, nick: string := "AmayaTest1",
                user: string := "amaya", gecos: string := "Amaya 0.1", netname: string := "ExampleNet",
                nickservpass: Option<string> := None, encoding: string := "UTF-8", sasl: bool := false)
      ensures this.host == host && this.ssl == ssl && this.nick == nick && this.user == user
      ensures this.gecos == gecos && this.netname == netname && this.nickservpass == nickservpass
      ensures this.encoding == encoding && this.sasl == sasl
      ensures buf == "" && servername == "" && ircdver == "" && snomask == ""
      ensures umodes == [] && channels == map[] && isupport == map[]
      ensures sent == Framing.WireAll(Registration(nick, user, gecos))
      ensures State() == Startup(netname, nick, user, gecos, ssl).session
    {
      this.host := host;
      this.ssl := ssl;
      this.nick := nick;
      this.user := user;
      this.gecos := gecos;
      this.netname := netname;
      this.nickservpass := nickservpass;
      this.encoding := encoding;
      this.sasl := sasl;
      buf := "";
      servername := "";
      ircdver := "";
      snomask := "";
      umodes := [];
      channels := map[];
      isupport := map[];
      sent := [];
      new;
      SendLine("NICK " + nick);
      SendLine("USER " + user + " " + user + " " + user + " :" + gecos);
    }

    /** `send_line`: write the line and its CR LF terminator. */
    method SendLine(line: string)
      modifies this`sent
      ensures sent == old(sent) + [Framing.Wire(line)]
    {
      sent := sent + [line + Framing.CRLF];
    }

    /** `process`: take a received chunk, keep the new fragment, dispatch each complete line in order. */
    method Process(chunk: string, parse: string -> Line) returns (outcome: Outcome)
      modifies this`buf, this`netname, this`servername, this`ircdver, this`isupport, this`sent
      ensures var f := Feed(old(State()), nick, old(buf), chunk, parse);
              State() == f.session && buf == f.buffer && outcome == f.outcome
    {
      var tbuf := buf + chunk;
      var lines := Split(tbuf, Framing.CRLF);
      buf := lines[|lines| - 1];
      lines := lines[..|lines| - 1];
      ghost var start := old(State());
      ghost var parsed := ParseAll(parse, lines);
      assert lines == Framing.Frame(old(buf), chunk).lines;
      outcome := Done;
      var i := 0;
      while i < |lines|
        invariant 0 <= i <= |lines|
        invariant RunLines(start, nick, parsed[..i]) == Effect(State(), Done)
        invariant buf == Framing.Frame(old(buf), chunk).rest
        invariant outcome == Done
      {
        outcome := ProcessLine(parse(lines[i]));
        assert RunLines(start, nick, parsed[..i + 1]) == Effect(State(), outcome) by {
          assert parsed[..i + 1] == parsed[..i] + [parse(lines[i])];
          RunLinesStep(start, nick, parsed[..i], parse(lines[i]));
        }
        if outcome.Raised? {
          assert RunLines(start, nick, parsed) == Effect(State(), outcome) by {
            RunLinesAppend(start, nick, parsed[..i + 1], parsed[i + 1..]);
            assert parsed == parsed[..i + 1] + parsed[i + 1..];
          }
          return;
        }
        i := i + 1;
      }
      assert parsed[..i] == parsed;
    }

    /** `process_line`: PONG to a PING before anything else, then the verb's handler, if any. */
    method ProcessLine(line: Line) returns (outcome: Outcome)
      modifies this`netname, this`servername, this`ircdver, this`isupport, this`sent
      ensures Effect(State(), outcome) == Dispatch(old(State()), nick, line)
    {
      if line.verb == "PING" {
        if |line.args| == 0 {
          return Raised(IndexError);
        }
        SendLine(PongLine(Last(line.args)));
      }
      if line.verb == "001" {
        outcome := On001(line);
      } else if line.verb == "004" {
        outcome := On004(line);
      } else if line.verb == "005" {
        outcome := On005(line);
      } else if line.verb == "ERROR" {
        outcome := OnError(line);
      } else {
        outcome := Done;
      }
    }

    /** `on_001` (RPL_WELCOME). */
    method On001(line: Line) returns (outcome: Outcome)
      modifies this`netname
      ensures Effect(State(), outcome) == Welcome(old(State()), line)
    {
      if |line.args| == 0 {
        return Raised(IndexError);
      }
      var words := Whitespace.Words(Last(line.args));
      if |words| < 4 {
        return Raised(IndexError);
      }
      netname := words[3];
      outcome := Done;
    }

    /** `on_004` (RPL_MYINFO). */
    method On004(line: Line) returns (outcome: Outcome)
      modifies this`servername, this`ircdver, this`sent
      ensures Effect(State(), outcome) == MyInfo(old(State()), nick, line)
    {
      var args := line.args;
      if |args| == 0 {
        return Raised(IndexError);
      }
      servername := args[0];
      if |args| == 1 {
        return Raised(IndexError);
      }
      ircdver := args[1];
      if |args| < 4 {
        return Raised(IndexError);
      }
      if 'B' in args[3] {
        SendLine(ModeLine(nick));
      }
      outcome := Done;
    }

    /** `on_005` (RPL_ISUPPORT): write each token after the first argument into `isupport`, in order. */
    method On005(line: Line) returns (outcome: Outcome)
      modifies this`isupport
      ensures Effect(State(), outcome) == IsupportReply(old(State()), line)
    {
      var tokens := Tail(line.args);
      for i := 0 to |tokens|
        invariant isupport == Isupport.Fold(old(isupport), tokens[..i])
      {
        var parts := Split(tokens[i], Isupport.Eq);
        if |parts| == 1 {
          isupport := isupport[parts[0] := None];
        } else {
          isupport := isupport[parts[0] := Some(parts[1])];
        }
        assert tokens[..i + 1][..i] == tokens[..i];
      }
      assert tokens[..|tokens|] == tokens;
      outcome := Done;
    }

    /** `on_ERROR`: raise `ConnectionError` with the server's reason. */
    method OnError(line: Line) returns (outcome: Outcome)
      ensures Effect(State(), outcome) == ErrorReply(State(), line)
      ensures outcome.Raised? && (outcome.fault.ConnectionError? <==> |line.args| > 0)
    {
      if |line.args| == 0 {
        return Raised(IndexError);
      }
      outcome := Raised(ConnectionError(Last(line.args)));
    }
  }
}
