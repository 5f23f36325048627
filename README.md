# tcp_chat core, modelled in Dafny

`tcp_chat` is a peer-to-peer line chat over one TCP connection, written in Go
(`chat.go`). This project models its deterministic core and proves what that
core promises:

- the line split function `ScanLines` / `dropCR`, where the end-of-line marker
  is `\r?\n` and a final unterminated line is still delivered;
- the `for input.Scan()` loops of `HandleIncoming` and `HandleOutgoing`. These
  are modelled as a `LineScanner` class that reads the stream chunk by chunk
  and applies `ScanLines` to its buffer, as `bufio.Scanner` does;
- the user label `hostname@ip: ` (`User.String`) and the outbound wire line
  `label + text + "\n"`;
- the address choice in `ConfigureUser`. The results of `os.Hostname`,
  `net.Interfaces` and `Interface.Addrs` are given to it as inputs.

Files: `wrappers.dfy` (Option), `bytes.dfy` (bytes, stream concatenation),
`line_split.dfy` (split function and a reference definition of a stream's
lines), `scanner.dfy` (the scanner and its driver), `identity.dfy` (User,
label, ConfigureUser), `session.dfy` (the two directional loops and the round
trip across the connection).

Bytes are a `newtype byte` (0 to 255). Go strings and byte slices are both
`seq<byte>`. A nil token is `None` and an empty line is `Some([])`.

The reference for tokenising a whole stream is `LineSplit.Lines`. It splits
the stream on every newline (`Pieces`), drops the empty piece after a final
newline, and drops one trailing carriage return from each piece. It is
independent of `ScanLines`. `JoinPieces` shows that splitting loses nothing.
`SplitStep` connects the two definitions. `LineScanner.Scan` and `ScanAll` are
proved against `Lines`, so the tokens delivered do not depend on how the
stream was chunked into reads.

Three behaviours of the code that its defaults might not suggest; the model follows the code:

- The host name is set to the result of `os.Hostname` even when the lookup
  fails (chat.go:40-44). So the `"Anonymous"` default set at chat.go:34 never
  survives. `ConfigureUser` ensures `user.hostname == host.name` whatever
  `host.failed` is.
- An error from `Addrs()` on an interface that is up and not loopback ends
  the search with `"0.0.0.0"` (chat.go:59-62). The search does not skip to the
  next interface.
- `User.ip` holds the bytes of the address's text (`[]byte(ip.String())`), and
  `String()` turns them back into text. The model stores the text.

## Model

| member | source | states |
|---|---|---|
| LineSplit.IndexByte | chat.go:142 | index of the first occurrence of the byte, or -1 exactly when the byte is absent |
| LineSplit.DropCR | chat.go:154-159 | the result is a prefix of the input, at most one byte shorter, and shorter exactly when the last byte is `\r` |
| LineSplit.ScanLines | chat.go:138-152 | 0 <= advance <= len(data); a token is present iff advance > 0; at EOF with data a token is always returned |
| LineSplit.ScanLinesCases | chat.go:132-152 | a token holds no `\n`; at EOF with no data: (0, nil); first `\n` at i: (i+1, dropCR(data[:i])), empty but present when i == 0; at EOF with no `\n`: (len(data), dropCR(data)); not at EOF with no `\n`: (0, nil), i.e. request more data |
| LineSplit.JoinPieces | chat.go:132-135 | splitting a stream on `\n` and joining the pieces with `\n` gives the stream back |
| LineSplit.LinesNoNewline | chat.go:136-137 | a stream without `\n` holds exactly one line, dropCR of it, when non-empty, and none when empty |
| LineSplit.LinesLine | chat.go:142-145 | a `\n`-terminated first line is the first of the stream's lines; the rest are the lines after the `\n` |
| LineSplit.SplitStep | chat.go:138-152 | a token returned by ScanLines is the first line of the stream whatever bytes follow; at EOF no token means no lines remain |
| Scanner.LineScanner.constructor | chat.go:111-112 | a new scanner has the whole stream still to deliver |
| Scanner.LineScanner.Scan | chat.go:113 | returns true iff lines remain; the token is then the next line of the stream and it is consumed; false leaves no lines |
| Scanner.LineScanner.Split | chat.go:138-152 | the buffer loses exactly the `advance` bytes ScanLines reports; a token found by the split function is the next line; no token at end of file means no lines remain |
| Scanner.LineScanner.Read | chat.go:111-113 | a read appends the next chunk to the buffer and removes it from the chunks still to read; the bytes not yet consumed, and so the lines still to come, are unchanged |
| Scanner.Drain | chat.go:113-116 | the `for input.Scan()` loop receives every line still to come, in order, and leaves none |
| Scanner.ScanAll | chat.go:111-116 | the tokens delivered, in order, are exactly the lines of the stream, for any chunking of the stream into reads |
| Scanner.LinesHaveNoNewline | chat.go:142-149 | no delivered token contains `\n` |
| Scanner.ExampleMixedEndings | chat.go:132-148 | "a\r\nb\n\nc" yields "a", "b", "" and "c" |
| Scanner.ExampleTrailingNewline | chat.go:142-145 | "x\n" yields exactly "x", with no trailing empty token |
| Scanner.EmptyLinesPreserved | chat.go:133-134 | two consecutive newlines yield an empty token between the lines |
| Identity.Label | chat.go:25-28 | `User.String`, used as the outbound label and as the prompt: the label is hostname, `@`, ip, then `: `; it contains `\n` iff hostname or ip does |
| Identity.Usable | chat.go:64-78 | an address can be adopted iff it is non-nil, not loopback and IPv4; its text is that of To4() |
| Identity.Resolve | chat.go:47-51 | a failed interface enumeration is the only way to end with an InterfacesFailed outcome |
| Identity.ConfigureUser | chat.go:32-87 | the host name is the lookup's result even on error; the ip is the chosen address or "0.0.0.0"; server is false; the outcome is the reference scan's |
| Identity.FirstUsable | chat.go:64-82 | reference for the inner loop over one interface's addresses: it picks nothing iff no address of the list is usable, and what it picks is the text of a usable address of the list |
| Identity.ScanAddrs | chat.go:64-82 | the inner loop, with its `continue`s and early return, returns exactly what the reference picks |
| Identity.Select | chat.go:52-86 | reference for the outer loop over the interfaces, once `net.Interfaces` succeeded; `Candidate` is its filter of chat.go:53-58 (up and not loopback); it never reports a failed enumeration |
| Identity.FirstUsableAt | chat.go:64-81 | the usable address with no usable address before it is the one picked |
| Identity.SelectSkip | chat.go:52-63 | interfaces that are down or loopback, or whose addresses offer nothing, do not affect the outcome |
| Identity.ChosenIsFirst | chat.go:52-82 | the address adopted is the first usable address of the first candidate interface that has one, in enumeration order |
| Identity.AddrsErrorStops | chat.go:59-62 | an Addrs() error on a candidate interface ends the search with "0.0.0.0", even if a later interface has a usable address |
| Identity.NoNetworkIffNothingUsable | chat.go:52-86 | the search falls through to the end iff every candidate interface was listed and offered no usable address |
| Identity.ChosenComesFromCandidate | chat.go:52-81 | an adopted address is a usable address of an up, non-loopback interface |
| Identity.DefaultUnlessUsable | chat.go:33-37 | without a usable address on any candidate interface, the ip stays "0.0.0.0" |
| Session.OutboundLine | chat.go:126 | the wire line is label and text followed by one `\n`; nothing else is added, no `\r` in particular |
| Session.DisplayLine | chat.go:114-115 | one received line is shown as `\r`, the line, one `\n` (from `fmt.Println`), then the prompt, with nothing else added |
| Session.OutboundLineIsOneLine | chat.go:126 | when label and text hold no `\n`, the receiving scanner reads the wire line as one line |
| Session.SendLoop | chat.go:125-128 | for each line still to come, in order, writes label + line + `\n` and prints the prompt once |
| Session.HandleOutgoing | chat.go:120-130 | configures its own user as ConfigureUser does, then writes one labelled line per line of local input, in order, and prints the prompt once per line |
| Session.ShowLoop | chat.go:113-116 | for each line still to come, in order, prints `\r`, the line and a newline, then the prompt |
| Session.HandleIncoming | chat.go:105-118 | configures its own user as ConfigureUser does, then displays each received line after `\r`, ending with a newline, followed by the prompt, in order |
| Session.WireRoundTrip | chat.go:113-114 | the peer's scanner recovers the sent lines one for one, as dropCR of label + text |
| Session.LabelShieldsText | chat.go:25-28 | stripping `\r` from label + text touches only the text, because the label ends in a space |
| Session.Delivery | chat.go:111-127 | every typed line reaches the peer's scanner as `hostname@ip: ` + line, minus one trailing `\r` of the line |

## Left out

- TCP listen, dial and accept, the welcome line, `conn.Close` and the
  disconnect notices (chat.go:89-103, chat.go:169-191). These are network
  I/O. Each loop is given the whole stream it reads and returns what it
  writes.
  Each handler calls ConfigureUser itself (chat.go:110, chat.go:122), as in
  the source; the OS results it reads are that handler's own inputs, so the
  two handlers may see different ones, as two calls in the source can.
- The goroutines and the `done` channel, where the first loop to finish ends
  the session (chat.go:98-101, chat.go:117, chat.go:129). These are
  concurrency.
- `uname.server = true` in `HandleAsServer` (chat.go:91). It is part of the
  server-role session setup, which is left out with the network code.
- Flag parsing and the address check in `main` (chat.go:162-167). This is
  command-line plumbing. `net.ParseIP(...).String()` gives `"<nil>"` and not
  `""` on failure, so the check at chat.go:165 never fires.
- `log.Println` diagnostics. `ConfigureUser` reports which way it returned
  as an `Outcome` instead.
- `os.Hostname`, `net.Interfaces`, `Interface.Addrs`, `net.IP.IsLoopback`,
  `To4` and `String`. These are library calls. Their results are inputs:
  a host name with an error flag, an optional interface list, per interface
  the up/loopback flags and an optional address list, and per address an
  optional IP with a loopback flag and an optional IPv4 text.
- Scanner.LineScanner.Scan: the end of the stream is always a clean end of
  file. A read error also makes `bufio.Scanner` call the split function with
  atEOF set, so the tokens are the same, but `Scanner.Err` is not modelled.
  Buffer growth, the maximum token size, a misbehaving reader and the
  `io.ErrNoProgress` stop after 100 consecutive empty reads are not modelled.
- LineSplit.ScanLines: the error result is always nil in the source and is
  not modelled.
- Session.HandleOutgoing: the error of `io.WriteString` is ignored in the
  source. Writes after the connection closed are not modelled; the wire is
  everything written.
- Session.HandleIncoming: `HandleIncoming` calls `input.Split(bufio.ScanLines)`
  and `HandleOutgoing` uses the scanner's default split. Both are the
  library's `ScanLines`, of which chat.go:138-159 is a copy; the model uses
  that copy for both loops.
