# amaya IRCBot session engine, in Dafny

This project models the client-side session engine of the `amaya` IRC bot library
(`amaya/base.py`, class `IRCBot`). It covers the client side of the IRC wire protocol
of RFC 2812:

- **Line framer** (`process`). Each received chunk is appended to the carried fragment.
  The text is split at CR LF (section 2.3 of RFC 2812). Every complete line is dispatched
  in order, and the last piece becomes the new fragment.
- **Dispatcher** (`process_line`). A `PING` is answered with `PONG :<last argument>` first
  (sections 3.7.2 and 3.7.3 of RFC 2812). Then `on_<verb>` runs if it exists; otherwise the line is dropped.
- **Built-in handlers**:
  - `on_001` (RPL_WELCOME) takes the network name from the welcome text.
  - `on_004` (RPL_MYINFO) stores the server name and version, and sends `MODE <nick> +B`
    when user mode `B` is offered (section 5.1 of RFC 2812).
  - `on_005` (RPL_ISUPPORT, from the IRC ISUPPORT draft draft-brocklesby-irc-isupport)
    folds `KEY` / `KEY=VALUE` tokens into the `isupport` map.
  - `on_ERROR` (section 3.7.4 of RFC 2812) raises `ConnectionError` with the server's reason.
- **Outbound encoder** (`send_line`). It appends CR LF. The constructor registers with
  `NICK` and then `USER`.

Layout, one module per file:

| file | module | what |
|---|---|---|
| wrappers.dfy | Wrappers | `Option`, for ISUPPORT flags (Python `None`) |
| separators.dfy | Separators | Python `str.split(sep)`, with its round trip and its inverse |
| whitespace.dfy | Whitespace | Python `str.split()`, runs of non-whitespace |
| framing.dfy | Framing | CR LF framing of the stream and of `send_line` |
| isupport.dfy | Isupport | the `on_005` token fold |
| protocol.dfy | Protocol | the session as a value; handlers, `Dispatch`, `RunLines` and `Feed` as functions |
| bot.dfy | Bot | class `IRCBot`; each method is proved equal to its Protocol function |

How the pieces fit:

- The socket is not modelled as a device. Outbound, the class keeps `sent`, the sequence
  of strings written to the socket, in order. Inbound, `Process` receives the chunk that
  `recv` would have returned.
- The external line parser (`ircmess.IRCLine`) is a parameter `parse: string -> Line`.
- Python exceptions become the `Outcome` `Raised(fault)`. `ERROR` gives
  `ConnectionError(reason)`. A missing argument that Python indexes gives `IndexError`:
  `args[-1]` of a `PING`, `ERROR` or 001 line, `split()[3]` of a short welcome text, and
  `args[0]`, `args[1]` or `args[3]` of a short 004 line.
- `process` overwrites the fragment before its loop. A line that raises therefore ends the
  call, and the complete lines after it in the same chunk are lost. `Feed` and
  `IRCBot.Process` model exactly that.
- `on_004` assigns `servername`, then `ircdver`, and only then reads `args[3]`. A short 004
  line therefore keeps the assignments made before the failing index. `MyInfo` models that.

Some things the code stores or describes, it never acts on:

- `sasl`, `nickservpass` and `encoding` are stored by the constructor (`amaya/base.py:43-45`) and never read. `send_line` and `process` always use "UTF-8" (`:63`, `:67`).
- The class docstring speaks of tracking channel members (`amaya/base.py:9-13`), but `channels`
  (`:52`) and `umodes` (`:51`) are never written after the constructor.
- The carried fragment grows without limit while no CR LF arrives.
- `on_ERROR` raises but marks nothing. A later `process` call runs as usual.
- The constructor's `ssl` parameter hides the `ssl` module. With `ssl` set, it raises before
  registering (see "## Findings").

One remark on `on_004`. `on_005` skips `args[0]`, the target nick, and treats the rest as
tokens. `on_004` instead stores `args[0]` as the server name and `args[1]` as the version.
Under the same argument convention, those are the client's own nick and the server name.
The model keeps the code's indices.

## Model

| member | source | states |
|---|---|---|
| Separators.FindSpec | amaya/base.py:69 | `Find` returns the first occurrence of the separator, and `None` exactly when it does not occur |
| Separators.Split | amaya/base.py:69 | `str.split(sep)` always yields at least one piece; which pieces is fixed by the lemmas below |
| Separators.SplitOnePiece | amaya/base.py:69 | the first piece is a prefix of the text, and there is a single piece, the whole text, exactly when `sep` does not occur |
| Separators.SplitPiecesFree | amaya/base.py:69 | no piece produced by `split(sep)` contains `sep` |
| Separators.SplitRoundTrip | amaya/base.py:69-72 | all pieces but the last, each followed by `sep`, then the last piece, give back the split text |
| Separators.SplitAfterPiece | amaya/base.py:69 | text that starts with a `sep`-free piece and `sep` splits into that piece followed by the split of the rest |
| Separators.SplitTerminated | amaya/base.py:69-72 | inverse of the round trip: `sep`-free lines, each terminated, followed by any text, split back into those lines followed by the split of the text |
| Separators.TerminatedAppend | amaya/base.py:69-72 | terminating two runs of lines is terminating their concatenation |
| Whitespace.Words | amaya/base.py:95 | `str.split()` yields only non-empty runs of non-whitespace characters |
| Whitespace.WordsOfWord | amaya/base.py:95 | a single word splits to itself |
| Whitespace.WordsOfBlank | amaya/base.py:95 | whitespace alone yields no word |
| Whitespace.WordsAcrossSpace | amaya/base.py:95 | a whitespace character separates: the words of `a + [c] + b` are the words of `a` then those of `b` |
| Whitespace.WordsOfJoined | amaya/base.py:95 | `" ".join(ws).split() == ws` for words `ws` |
| Framing.WireFramesBack | amaya/base.py:61-72 | one `send_line(x)` of a CR-LF-free line is framed by the receiver as exactly the line `x`, with nothing left over |
| Framing.CrlfNoSelfOverlap | amaya/base.py:69 | two CR LF terminators cannot overlap |
| Framing.Frame | amaya/base.py:65-72 | old fragment plus chunk equals the complete lines, each followed by CR LF, then the new fragment; no line and not the fragment contains CR LF |
| Framing.FrameUnique | amaya/base.py:65-72 | that decomposition is the only one with CR-LF-free lines and fragment |
| Framing.FrameInTwoChunks | amaya/base.py:65-75 | chunks `c1` then `c2` frame the same lines, in order, and leave the same fragment as `c1 + c2` at once, including a CR ending `c1` that pairs with an LF starting `c2` |
| Framing.FlattenWires | amaya/base.py:61-63 | the bytes of the writes of `send_line` over `xs` are the lines of `xs`, each followed by CR LF |
| Framing.SentLinesFrameBack | amaya/base.py:61-75 | framing what `send_line` wrote gives back each CR-LF-free line in order, with nothing left over |
| Isupport.TokenKey | amaya/base.py:124-130 | `supp.split("=")[0]` is a prefix of the token, and the whole token exactly when the token has no "=" |
| Isupport.TokenValue | amaya/base.py:124-130 | there is a value (`supp[1]`) exactly when the token has "=", otherwise `None` |
| Isupport.FlagToken | amaya/base.py:124-127 | a token without "=" is its own key and maps to `None` |
| Isupport.ValuedToken | amaya/base.py:124-130 | `KEY=VALUE` gives key `KEY` and value `VALUE` |
| Isupport.ValuedTokenWithMore | amaya/base.py:124-130 | `KEY=VALUE=MORE` gives key `KEY` and value `VALUE`, the text between the first and second "=" |
| Isupport.Fold | amaya/base.py:121-130 | the map's domain after the fold is the old domain plus exactly the keys of the tokens |
| Isupport.FoldLastWins | amaya/base.py:123-130 | a key maps to the value of its last token: later overwrites earlier |
| Isupport.FoldKeepsOthers | amaya/base.py:123-130 | a key that no token names keeps its old value |
| Isupport.FoldAppend | amaya/base.py:123-130 | folding two runs of tokens one after the other is folding their concatenation |
| Isupport.ExampleTokens | amaya/base.py:124-130 | keys and values of the tokens `A=1`, `B`, `A=2` |
| Isupport.OverwriteExample | amaya/base.py:121-130 | `A=1`, `B`, `A=2` yields `{A: "2", B: None}` |
| Protocol.Send | amaya/base.py:61-63 | `send_line` appends exactly one write, the line and CR LF, and changes nothing else |
| Protocol.Welcome | amaya/base.py:89-95 | `on_001` sets `netname` to the fourth word of the last argument and changes no other field; it raises `IndexError` without effect when there is no argument or fewer than four words |
| Protocol.MyInfo | amaya/base.py:97-110 | `on_004` sets `servername := args[0]` and `ircdver := args[1]`, sends `MODE <nick> +B` if and only if "B" occurs in `args[3]`, changes nothing else, and raises `IndexError` on fewer than four arguments after the assignments already made |
| Protocol.IsupportReply | amaya/base.py:112-130 | `on_005` folds `args[1:]` into `isupport`, never raises and changes no other field |
| Protocol.ErrorReply | amaya/base.py:132-138 | `on_ERROR` raises `ConnectionError` with the last argument, or `IndexError` when there is none, and changes no field |
| Protocol.Handle | amaya/base.py:83-85 | a verb with no `on_` method changes nothing and raises nothing |
| Protocol.Dispatch | amaya/base.py:77-85 | a `PING` first appends exactly one `PONG :<last arg>`; other verbs without a handler are dropped; only `ERROR` raises `ConnectionError`, changing nothing; the outgoing stream only grows, and `umodes` and `channels` never change |
| Protocol.RunLines | amaya/base.py:74-75 | the `for` loop of `process` only extends the outgoing stream and never changes `umodes` or `channels` |
| Protocol.RunLinesAppend | amaya/base.py:74-75 | dispatching `a + b` is dispatching `a` and, unless it raised, then `b` |
| Protocol.RunLinesStep | amaya/base.py:74-75 | after fault-free lines, one more line is one more dispatch |
| Protocol.Feed | amaya/base.py:65-75 | the new fragment is the text after the last CR LF, free of CR LF, and the outgoing stream only grows |
| Protocol.FeedConcat | amaya/base.py:65-75 | `process(c1 + c2)` dispatches the lines framed from `c1`, then those framed from the fragment and `c2`, and keeps the second fragment |
| Protocol.FeedInTwoChunks | amaya/base.py:65-75 | `process(c1)` then `process(c2)` ends in the same session, fragment and outcome as `process(c1 + c2)` when `c1` raised nothing |
| Protocol.FeedStopsAtFault | amaya/base.py:71-75 | once a chunk's line raises, more text in the same chunk changes neither the session nor the fault |
| Protocol.PingExample | amaya/base.py:80-81 | `PING :token123` is answered by exactly `PONG :token123` |
| Protocol.RegistrationFramesBack | amaya/base.py:58-59 | the registration writes reach a server as two lines, `NICK <nick>` then `USER u u u :<gecos>` |
| Protocol.Startup | amaya/base.py:15-59 | the intended start-up: every field empty except the network name, then exactly the NICK and USER writes, and no fault, whatever `ssl` is |
| Protocol.StartupAsWritten | amaya/base.py:15-59 | start-up as written: it completes if and only if `ssl` is false; with `ssl` set it raises `AttributeError` with nothing sent |
| Protocol.SslStartupSendsNothing | amaya/base.py:55-59 | with the default identity and `ssl` set, the code as written sends nothing, while the intended start-up sends two lines |
| Protocol.StartupRegisters | amaya/base.py:55-59 | the intended start-up reaches a server as NICK then USER, with or without TLS |
| Bot.IRCBot.constructor | amaya/base.py:15-59 | identity fields as given; the session is the intended `Startup`: empty fragment, server name, version, snomask, `umodes`, `channels` and `isupport`, and the only writes are `NICK <nick>` then `USER u u u :<gecos>` |
| Bot.IRCBot.SendLine | amaya/base.py:61-63 | `sent` grows by exactly `line + "\r\n"` |
| Bot.IRCBot.Process | amaya/base.py:65-75 | the new session, fragment and outcome are those of `Feed` on the old session, fragment and chunk |
| Bot.IRCBot.ProcessLine | amaya/base.py:77-85 | the new session and outcome are those of `Dispatch` |
| Bot.IRCBot.On001 | amaya/base.py:89-95 | the new session and outcome are those of `Welcome` |
| Bot.IRCBot.On004 | amaya/base.py:97-110 | the new session and outcome are those of `MyInfo` |
| Bot.IRCBot.On005 | amaya/base.py:112-130 | `isupport` ends as the fold of `args[1:]` into the old map, by a loop that writes one token at a time |
| Bot.IRCBot.OnError | amaya/base.py:132-138 | always raises, with `ConnectionError` exactly when there is a last argument, and changes no field |

## Left out

- Socket creation, `connect`, `recv` and the byte-level `send` are transport I/O. The socket is the `sent` sequence outbound and the chunk argument of `Process` inbound. `port` is accepted and not used, as in the code once the socket is gone.
- UTF-8 decoding of each received chunk and encoding of each sent line are a foreign codec. Chunks and lines are already-decoded strings.
  The code decodes each `recv(2048)` result separately. A multi-byte character split between two receives makes the decoding raise before the fragment is updated, and those bytes are lost. The model does not capture this.
- Framing.FrameInTwoChunks: the equivalence of two chunks with one covers splits at character boundaries only. A split inside a multi-byte UTF-8 character raises at `amaya/base.py:67`, which is not modelled.
- Protocol.FeedInTwoChunks: as for Framing.FrameInTwoChunks, it holds only for splits at character boundaries. The same applies to Protocol.FeedConcat and Protocol.FeedStopsAtFault.
- Bot.IRCBot.constructor: models the intended start-up, which registers for every `ssl`. As written, only `ssl == false` registers: a true `ssl` raises `AttributeError` at `amaya/base.py:56` before the NICK and USER lines. Protocol.StartupAsWritten models that behaviour. The TLS wrapping itself is transport and is not modelled.
- The `print` logging in `send_line` and `process_line` is debug output.
- `ircmess.IRCLine` is not part of this model. It is the parameter `parse`, which turns a line into a verb and its arguments.
- The `hasattr`/`getattr` lookup of `on_<verb>` is a fixed dispatch over the four built-in handlers. Handlers added by a subclass (such as `on_376` in `amaya/test.py`) are not modelled. The PING reply therefore has no `on_PING` handler to precede.
- `amaya/test.py`, the `select` loop over bots, is event-loop I/O.
- `ConnectionError.__repr__` in `amaya/exceptions.py` is display only. The exception is the `ConnectionError(reason)` fault.
- Separators.Split requires a non-empty separator. Python raises `ValueError` for an empty one, and the code only ever passes "\r\n" and "=".

## Findings

| source | as written | input that shows it | evidently intended | confidence | as-written member | corrected member |
|---|---|---|---|---|---|---|
| amaya/base.py:55-56 | the parameter `ssl` hides the imported module `ssl`, so `ssl.wrap_socket` is looked up on a bool and raises `AttributeError`; NICK and USER are never sent | `IRCBot(host, port, ssl=True)` | replace the socket by its TLS wrapper (`self.link = ssl.wrap_socket(self.link)`; as written the wrapper is also discarded, so even without the shadowing NICK and USER would not go over TLS), then register | high, not executed | Protocol.StartupAsWritten, Protocol.SslStartupSendsNothing | Protocol.Startup, Protocol.StartupRegisters, Bot.IRCBot.constructor |
