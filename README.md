# A key-value server over TCP, modelled in Dafny

`server.c` is a one-file key-value store. It serves one client per
connection. Each client sends one line, `SET <key> <value>`, `GET <key>` or
`DEL <key>`. The server keeps every key as a file of that name in its
working directory and answers `OK\n`, `OK\n<value>\n`, `NOTFOUND\n` or
`ERROR\n`. This project models one pass of its accept loop:

- `bytes.dfy` (module `Bytes`): bytes, C strings (the bytes before the first
  NUL) and the C-locale `isspace` class. One Dafny `char` stands for one byte.
- `sendall.dfy` (module `Sending`): `sendall`, the loop that calls `send`
  until the whole buffer is out or a call returns 0 or less. It is an
  imperative method, proved against the recursive function `Transmit`. The
  kernel is a script of successive `send` results.
- `linereader.dfy` (module `LineReader`): the loop that receives the request
  one byte at a time into a `BUFSIZE + 1` array. `Framed` specifies the line
  it keeps. The client is the sequence of bytes it delivers before `recv`
  fails or the peer closes.
- `scanner.dfy` (module `Scanner`):
  `sscanf(buffer, "%7s %255s %255[^\n]", cmd, key, value)`, as pure
  functions on the C string in the buffer.
- `commands.dfy` (module `Commands`): the SET/GET/DEL dispatch on a store.
  The store is a map from file name to file contents. Whether
  `fopen(key, "w")` fails is a flag. `fopen(key, "r")` fails exactly when
  the key has no file.
- `server.dfy` (module `Server`): one whole request, as the function
  `Request` and the method `Serve`. Its lemmas state what a client sees for
  given request lines.

`SET K V` then `GET K` does not answer `OK\nV\n` for every key and value
within the 255-byte field widths. It does so only for some lines:

- The request line is cut at 512 bytes. The round trip therefore holds only
  when `5 + |K| + |V| <= 512`. At exactly 513 bytes only the line feed is
  lost.
- Longer lines store a truncated value (`SetTruncatesOnWire`).
- Blanks in front of the value are skipped (`LeadingBlankDropped`).
- A carriage return before the line feed is stored (`CarriageReturnKept`).
- An empty value makes the line a two-field SET, which is an error.

These are properties of the code, and the model follows the code.

## Model

| member | source | states |
|---|---|---|
| Bytes.CString | server.c:69 | The C string in a buffer is a NUL-free prefix of it, cut at the first NUL. |
| Bytes.CStringCut | server.c:73 | Nothing after the first NUL of a buffer is part of its C string. |
| Bytes.CStringTerminated | server.c:69 | Writing the terminator after the received bytes does not change the string `sscanf` reads. |
| Sending.Send | server.c:20-21 | One `send` never reports more than it was offered. It is positive exactly when the kernel accepted bytes, and an error result is passed on unchanged. |
| Sending.Transmit | server.c:19-24 | The loop from `total` bytes on never delivers more than the bytes left. |
| Sending.TransmitPrefix | server.c:19-23 | The peer receives a prefix of the bytes still to be sent. |
| Sending.TransmitSuccess | server.c:19-24 | `sendall` returns `len` only when every `send` was positive, and then every byte was delivered. |
| Sending.TransmitFailure | server.c:20-21 | Any other return is the result of the last `send`, which is 0 or less; every earlier call was positive. |
| Sending.TransmitRest | server.c:20 | Each `send` call uses exactly one kernel result. |
| Sending.TransmitContract | server.c:16-25 | The whole contract of `sendall`: prefix delivery, returns `len` iff every call was positive, otherwise the first non-positive result, one kernel result per call. |
| Sending.SendAll | server.c:16-25 | The loop returns, delivers and calls exactly what `Transmit` specifies for `buf[0..len)`. |
| Sending.TransmitComplete | server.c:19-24 | A kernel that accepts at least one byte per call, with enough calls, gets the whole buffer out and `len` is returned. |
| Sending.Deliver | server.c:105-107 | Consecutive `sendall` calls never put more on the wire than the buffers hold together. |
| Sending.DeliverComplete | server.c:105-107 | Several `sendall` calls in a row deliver the concatenation of their buffers when the kernel never refuses. |
| LineReader.Framed | server.c:59-68 | The line kept is a prefix of the input of 1 to 512 bytes. It has no line feed before its last byte and ends with a line feed or has 512 bytes. The connection is dropped exactly when fewer than 512 bytes arrive and none is a line feed. |
| LineReader.ReadLine | server.c:59-69 | The byte-by-byte receive loop fills the 513-byte array with the `Framed` line and writes the NUL inside the array. It yields nothing when the client stops early. |
| Scanner.SkipSpace | server.c:73 | A space in the format skips the leading white space and leaves a suffix that starts with a non-space byte. |
| Scanner.Token | server.c:73 | `%Ns` takes at most N non-space bytes; what follows starts with white space or the width is used up. |
| Scanner.LineField | server.c:73 | `%N[^\n]` takes at most N bytes without a line feed; what follows starts with a line feed or the width is used up. |
| Scanner.Scan | server.c:73 | `sscanf` reads the buffer as a C string: EOF exactly when that string is blank, and a NUL-free buffer is scanned whole. |
| Scanner.ScanStopsAtNul | server.c:73 | Bytes a client sends after a NUL never reach the fields. |
| Scanner.KeyEndsString | server.c:73 | A short key that ends the string still fills two fields. |
| Scanner.KeyBeforeNul | server.c:63-73 | `CMD KEY` followed by a NUL and anything else scans as two fields. |
| Scanner.Tokenise | server.c:72-73 | `sscanf` returns EOF, 1, 2 or 3, EOF exactly on a blank string. Fields are non-empty exactly when counted. Width bounds hold, with no white space in cmd and key, no line feed in value and no NUL anywhere. |
| Scanner.ScanThree | server.c:73 | A line of command, key and value separated by blanks scans back as exactly those three fields. |
| Scanner.ScanTwo | server.c:73 | A command and a key followed only by blanks, or by nothing, scan as two fields. |
| Scanner.ScanOne | server.c:73 | A lone command scans as one field. |
| Scanner.CmdSpillsIntoKey | server.c:72-73 | A command word longer than seven bytes spills into the key: `SETTINGS k v` scans as `SETTING`, `S`, `k v`. |
| Commands.Readback | server.c:101-106 | GET sends the file's bytes up to its first NUL or the 255-byte `fread` limit, whichever comes first. A file of at most 255 bytes without NUL comes back whole. |
| Commands.Messages | server.c:76-115 | A status answer is one `sendall` of 3, 6 or 9 bytes. A value answer is three: `OK\n`, the value, then a last buffer; the last buffer of every answer ends in a line feed. |
| Commands.TextEndsWithLineFeed | server.c:76-115 | The bytes of every answer end with a line feed. |
| Commands.Dispatch | server.c:74-116 | ERROR and NOTFOUND leave the store unchanged. NOTFOUND means the key has no file. No other key is touched. |
| Commands.ErrorExactly | server.c:74-79 | ERROR is answered iff the line is not a well-formed command or SET cannot open its file. ERROR changes nothing. |
| Commands.SetStores | server.c:82-93 | SET with three fields stores exactly the value and answers OK, or answers ERROR and changes nothing when the file cannot be opened. |
| Commands.GetAnswers | server.c:95-108 | GET with two fields answers NOTFOUND without a file, else the file as `Readback` gives it, and never changes the store. |
| Commands.DelRemoves | server.c:110-112 | DEL with two fields answers OK and removes the key, whether or not it existed. |
| Commands.FoundText | server.c:105-107 | The three buffers of a value answer are `OK\n`, the value and `\n`. |
| Commands.SetThenGet | server.c:82-108 | After SET K V, GET K answers V for every value a line can carry. |
| Commands.SetOverwrites | server.c:84-91 | A second SET of a key leaves the store the second SET alone would leave. |
| Commands.DelThenGet | server.c:95-112 | After DEL K, GET K answers NOTFOUND. |
| Commands.DelIdempotent | server.c:110-112 | DEL twice is DEL once. |
| Server.Request | server.c:59-68 | A connection is dropped, with no reply and no change to the store, exactly when fewer than 512 bytes arrive and none is a line feed. |
| Server.Serve | server.c:59-116 | One request end to end. A dropped read sends nothing and changes nothing. Otherwise the store becomes the reply's store, and the wire carries what `sendall` delivers of each response buffer in order. |
| Server.Respond | server.c:76-115 | One `sendall` per status answer and three for a value, each made whatever the previous one returned. |
| Server.LineFramed | server.c:62-66 | A line feed within the first 512 bytes ends the line there. |
| Server.FramedWhole | server.c:62-66 | Bytes sent after the line feed are never read. |
| Server.TwoFieldLine | server.c:59-73 | `CMD KEY\n` is read whole and scanned as two fields. |
| Server.ThreeFieldLine | server.c:59-73 | `CMD KEY VALUE\n` of at most 512 bytes is read whole and scanned as three fields. |
| Server.SetLineWhole | server.c:59-93 | A SET line of at most 512 bytes reaches dispatch as its three fields. |
| Server.SetLineCut | server.c:62-73 | A longer SET line loses its line feed, and its value is cut after 507 bytes less the key length. |
| Server.SetOnWire | server.c:59-93 | `SET K V\n` answers OK and stores V whenever the line without its line feed fits in 512 bytes (5 bytes plus key and value). |
| Server.SetTruncatesOnWire | server.c:62-93 | Beyond that bound SET still answers OK but stores only the first 507 bytes less the key length of V. |
| Server.GapLine | server.c:73 | Any run of blanks between key and value is skipped. |
| Server.LeadingBlankDropped | server.c:73-91 | `SET K <blanks>V` stores V without the blanks. |
| Server.CarriageReturnKept | server.c:73-108 | A CR LF line stores the carriage return as the value's last byte, and GET gives it back. |
| Server.GetOnWire | server.c:95-108 | `GET K\n` answers NOTFOUND without a file, else the file as `Readback` gives it. |
| Server.DelOnWire | server.c:110-112 | `DEL K\n` answers OK and removes K. |
| Server.SetThenGetOnWire | server.c:82-108 | Over the wire, SET K V then GET K answers `OK\nV\n` within the 512-byte bound. |
| Server.OverwriteOnWire | server.c:82-108 | Over the wire, a second SET replaces the first value and GET answers the second. |
| Server.DelThenGetOnWire | server.c:95-112 | Over the wire, DEL K then GET K answers NOTFOUND. |
| Server.BlankLineOnWire | server.c:73-78 | A blank line makes `sscanf` return EOF; the answer is ERROR and the store is unchanged. |
| Server.LoneCommandOnWire | server.c:73-78 | A command alone on its line fills one field; the answer is ERROR and the store is unchanged. |
| Server.WrongCommandOnWire | server.c:82-116 | A two-field line whose command is not `GET` or `DEL` is answered ERROR. This covers SET without a value, unknown words and lower case. |
| Server.ExtraFieldOnWire | server.c:95-116 | GET or DEL with a value after the key is answered ERROR. |
| Server.GreetingScenario | server.c:59-116 | SET, GET, DEL, GET of `greeting` gives OK, `hello world`, OK, NOTFOUND. |

## Left out

- Sockets: `socket`, `bind`, `listen`, `accept`, `close` and the endless accept loop (server.c:31-57, 118-122) are not modelled. Each connection is one call of `Serve`.
- `signal(SIGPIPE, SIG_IGN)` (server.c:29) is not modelled. A broken pipe shows up in the model as a `send` result of 0 or less, which is what ignoring the signal achieves.
- `printf` and `perror` logging are not modelled.
- The file system is a map from key to contents. Path semantics are not modelled: sub-directories, `..`, keys that name directories, and permissions.
- `fopen(key, "w")` failure is a flag. Failures of `fprintf`, `fclose`, `fread` and `remove`, and `fopen(key, "r")` failing on an existing file, are not modelled.
- Commands.DelRemoves: does not model `remove` failing, whose result the server ignores; the model always removes the key.
- Scanner.Tokenise: fields `sscanf` does not fill are the empty string here. In C they keep whatever the stack arrays held, and the server never reads them.
- Concurrency and several clients at once are not modelled: the server serves one connection at a time.
- Sending.Send: the kernel is a script of results. A positive result larger than the bytes offered is capped, because the kernel never takes more. Once the script is used up every call returns -1. Blocking and timeouts are not modelled.
- LineReader.ReadLine: `recv` is the client's byte sequence. A failure and an orderly close are not told apart, since the server treats both alike. A client that neither sends a line feed nor closes blocks `recv`, and with it the whole server, forever. A finite input sequence cannot express this, so the model does not capture it.
