# go-redis RESP core in Dafny

This project models the RESP2 wire protocol of go-redis. It covers three parts:

- the reply values and their encoder (`redis/reply/reply.go`, `redis/reply/consts.go`);
- the streaming decoder (`redis/parser/parser.go`);
- the nil-aware byte-slice equality `BytesEquals` (`lib/utils/utils.go`).

It then proves what the decoder makes of the encoder's output.

Layout:

- `bytes.dfy`: the byte type, `Option` (where `None` is a Go nil slice), and the pieces of Go's standard library that the code relies on. These are the delimiter search of `bufio.Reader.ReadBytes`, `strings.TrimSuffix` and `strings.Split`.
- `strconv.dfy`: `strconv.Itoa`, `FormatInt`, `ParseUint(s, 10, 32)` and `ParseInt(s, 10, 64)`, as functions over decimal digits with their sign rules and range limits.
- `replies.dfy`: the `Reply` datatype, with one variant per Go reply type. `Encode` is `ToBytes`. The buffer loops of `MultiBulkReply.ToBytes` and `MultiRawReply.ToBytes` are methods proved equal to `Encode`.
- `parser.dfy`: the decoder, in two forms.
  - As functions over a `State` value: `LineAt` (readLine), `MultiBulkHeader`, `BulkHeader`, `Body` (readBody), `ParseSingleLineReply`, `Dispatch` (one pass of the loop body) and `DecodeFrom` (the loop). `ParseStream` and `ParseOne` are defined on top of `DecodeFrom`.
  - As the class `ReadState`, whose methods update its fields in place as the Go helpers do through `*readState`. The method `Parse0` is the loop, and it is proved to send exactly `ParseStream(input)`.
- `runs.dfy`: runs of several loop iterations, and how they compose.
- `roundtrip.dfy`: one lemma per kind of line and per frame, leading up to the round trips. Every decodable reply, and every back-to-back sequence of them, decodes to itself and then to the EOF error.
- `quirks.dfy`: the replies the encoder writes that do not come back as themselves, and the malformed lines that the decoder reports and then reads past.
- `utils.dfy`: `BytesEquals`.
- `wire.dfy`: concrete wire bytes. These are the literal encodings of the reply types and two requests decoded end to end.

The channel of `ParseStream` becomes the sequence of payloads. That sequence comes with the way the stream ends:

- `Closed`: an I/O error was sent and the channel closed;
- `Fault`: a runtime panic was caught by the deferred recover, so nothing more is sent and the channel is never closed.

Every protocol error carries the offending line. In the Go code each such error message is "protocol error: " followed by that line.

Two behaviours of the code that are easy to get wrong:

- On an empty input, `ParseOne` returns the EOF error of the first read; it does not fail with "no reply" (`RoundTrip.ParseOneEmpty`). The "no reply" branch can never be taken, because the channel is only closed right after an I/O error has been sent (`Parser.ParseOne`).
- The encoder keeps a nil argument and an empty argument of a multi-bulk reply apart: `$-1\r\n` versus `$0\r\n\r\n`. It is the top-level empty bulk reply that is written as `$-1`, and with no CRLF (`Replies.EmptyVersusNil`). It is the decoder that makes both arguments empty (`Quirks.NilArgumentBecomesEmpty`).

## Model

| member | source | states |
|---|---|---|
| Bytes.FirstIndexAt | redis/parser/parser.go:162 | the delimiter search that ReadBytes uses finds exactly the first LF at or after the read position, or none |
| Bytes.TrimSuffix | redis/parser/parser.go:230-231 | the suffix is removed exactly when the string ends with it, and otherwise nothing changes |
| Bytes.Split | redis/parser/parser.go:246 | splitting at spaces gives at least one piece and no piece holds a space; joining the pieces with single spaces gives back the line |
| Bytes.FirstIndex | redis/parser/parser.go:162 | the search of ReadBytes: a found index is at or after the read position and holds the delimiter; Bytes.FirstIndexAt shows it is the first one |
| Strconv.Itoa | redis/reply/reply.go:33 | strconv.Itoa writes at least one byte, only decimal digits, and no leading zero for a positive number; its value is proved in Strconv.ItoaDigits |
| Strconv.FormatInt | redis/reply/reply.go:127 | strconv.FormatInt writes at least one byte and starts with '-' exactly for negative numbers; Strconv.ParseInt64FormatInt inverts it |
| Strconv.ParseUint32 | redis/parser/parser.go:189 | a value ParseUint(s, 10, 32) accepts is at most 2^32-1 and comes from a non-empty run of digits; a first byte that is not a digit, a sign included, is rejected |
| Strconv.ParseInt64 | redis/parser/parser.go:211 | a value ParseInt(s, 10, 64) accepts comes from a non-empty text of digits after at most one sign, and is negative only after '-' |
| Strconv.ItoaDigits | redis/reply/reply.go:33 | Itoa writes only decimal digits, with no leading zero, and their value is the number |
| Strconv.FormatIntDigits | redis/reply/reply.go:127 | FormatInt starts with '-' exactly for negative numbers, and its digits carry the magnitude |
| Strconv.ParseUint32Spec | redis/parser/parser.go:189 | ParseUint with base 10 and 32 bits gives n exactly when n is at most 2^32-1 and the text is Itoa(n) after some leading zeros, both directions; a sign is never accepted |
| Strconv.ParseUint32Itoa | redis/parser/parser.go:189 | ParseUint reads back what Itoa writes, up to the 32-bit limit |
| Strconv.ParseInt64Itoa | redis/parser/parser.go:211 | ParseInt reads back a length that Itoa wrote |
| Strconv.ParseInt64FormatInt | redis/parser/parser.go:239 | ParseInt inverts FormatInt on every int64 |
| Strconv.ParseInt64Signs | redis/parser/parser.go:262 | ParseInt ignores a '+', negates after a '-', and accepts a magnitude of 2^63 only when it is negative |
| Replies.Encode | redis/reply/reply.go:29-153 | the wire bytes of every ToBytes of reply.go and consts.go: only NoReply writes nothing, and the first byte is '-' exactly for an error reply; its round trip with the decoder is RoundTrip.ParseStreamEncode |
| Replies.Reply.Error | redis/reply/reply.go:155-157 | Error returns the message that the encoding carries between '-' and CRLF |
| Replies.WriteArg | redis/reply/reply.go:59-64 | one pass of the argument loop writes exactly `$-1\r\n` for a nil argument; otherwise `$`, a decimal count with no leading zero whose value is the argument's length, CRLF, the argument's bytes unchanged and CRLF |
| Replies.MultiBulkToBytes | redis/reply/reply.go:55-67 | the buffer loop writes exactly the encoding of the multi-bulk reply: the `*n` header, then one segment per argument in order |
| Replies.MultiRawToBytes | redis/reply/reply.go:82-90 | the buffer loop writes exactly the encoding of the array: the `*n` header, then the encoding of each nested reply in order |
| Replies.ToBytes | redis/reply/reply.go:29-153 | writing any reply, nested replies included, produces exactly its encoding |
| Replies.IsErrorReply | redis/reply/reply.go:165-167 | the first encoded byte is '-' exactly for the error reply; NoReply, whose encoding is empty, is excluded |
| Replies.EncodeNonEmpty | redis/reply/consts.go:59-67 | NoReply is the only reply with an empty encoding |
| Replies.FixedReplies | redis/reply/consts.go:3-77 | PONG, OK and QUEUED are written as the status lines of those words; the null bulk reply is the `$-1\r\n` segment of a nil argument; the empty array is written as a multi-bulk reply with no arguments |
| Replies.EmptyVersusNil | redis/reply/reply.go:29-34 | an empty bulk reply is the null bulk reply without its CRLF; inside an array a nil argument is `$-1\r\n` and an empty one is `$0\r\n\r\n` |
| Replies.MultiRawOfBulks | redis/reply/reply.go:82-90 | an array of non-empty bulk replies is byte for byte the multi-bulk reply of the same arguments |
| Parser.LineAt | redis/parser/parser.go:155-183 | a successful read is a non-empty piece of the input at the read position that ends in CRLF; a failed read reports the piece of input it consumed, which is not empty when bulkLen is not negative |
| Parser.State.Finished | redis/parser/parser.go:52-54 | a frame is finished only once a positive number of arguments has arrived, exactly as many as announced; RoundTrip.ArgumentLine shows when that happens |
| Parser.MultiBulkHeader | redis/parser/parser.go:186-206 | the `*n` header succeeds exactly when ParseUint accepts the count; the count is recorded, a positive one opens a `*` frame with no arguments, and 0 changes nothing else |
| Parser.BulkHeader | redis/parser/parser.go:209-226 | the `$n` header succeeds exactly when ParseInt gives -1 or a positive length; -1 only records the length, and a positive one opens a one-argument frame awaiting that many bytes |
| Parser.Body | redis/parser/parser.go:257-274 | a body line panics exactly when it is empty; a line not starting with `$` is appended without its CRLF; a `$` line either appends an empty argument and clears bulkLen, or announces a positive chunk length, or is an error; the frame fields stay the same |
| Parser.ParseSingleLineReply | redis/parser/parser.go:229-254 | `+s` is Status(s) and `-s` is the error s, with CRLF removed; `:d` is Int(d) when d is an int64 and otherwise the only protocol error; any other line is an array of non-nil words |
| Parser.TrimLineEnd | redis/parser/parser.go:230-231 | trimming "\n" and then "\r" removes exactly the CRLF that ends a line, and keeps a first byte that is neither CR nor LF |
| Parser.Dispatch | redis/parser/parser.go:87-150 | a line leaves the decoder in a state the loop can be in; it sends at most one payload, and the state is reset whenever one is sent |
| Parser.TopLevel | redis/parser/parser.go:87-125 | a line outside a frame always goes on, and a payload is sent only with a reset |
| Parser.InFrame | redis/parser/parser.go:126-150 | a body line either panics or goes on in a valid state; a payload is sent only with a reset |
| Parser.StepAt | redis/parser/parser.go:70-150 | an iteration that goes on moves forward and sends at most one payload, never an I/O error, with a reset when it sends one; an iteration that ends the loop closes the stream exactly when it sends something, and what it sends is an I/O error |
| Parser.DecodeFrom | redis/parser/parser.go:57-152 | the loop of parse0 from a position and state: the stream is closed exactly when its last payload is an I/O error |
| Parser.ParseStream | redis/parser/parser.go:25-29 | every payload of the channel and how it ends: closed exactly when the last payload is an I/O error; Parser.Parse0 computes it |
| Parser.DecodeShape | redis/parser/parser.go:73-84 | the stream is closed exactly when its last payload is an I/O error, and no earlier payload is one |
| Parser.StreamShape | redis/parser/parser.go:73-84 | the same, for a whole stream from the zero state |
| Parser.ParseOne | redis/parser/parser.go:32-41 | ParseOne returns exactly when the stream sends something, and otherwise blocks, which happens only when the stream ends in a panic; the "no reply" error never occurs |
| Parser.ReadState.constructor | redis/parser/parser.go:66 | a new read state is the zero value |
| Parser.ReadState.Reset | redis/parser/parser.go:82 | the read state after a reset is the zero value |
| Parser.ReadState.ReadLine | redis/parser/parser.go:155-183 | reading a line gives what LineAt says; a successful read clears bulkLen and changes nothing else, and a failed one changes nothing |
| Parser.ReadState.ParseMultiBulkHeader | redis/parser/parser.go:186-206 | the `*n` header succeeds exactly when MultiBulkHeader accepts it, and then sets the state that MultiBulkHeader gives; on failure nothing changes |
| Parser.ReadState.ParseBulkHeader | redis/parser/parser.go:209-226 | the `$n` header succeeds exactly when BulkHeader accepts it, and then sets the state that BulkHeader gives; on failure only bulkLen may have changed |
| Parser.ReadState.ReadBody | redis/parser/parser.go:257-274 | a body line appends one argument or records a chunk length, as Body says; only bulkLen may change on an error |
| Parser.HandleLine | redis/parser/parser.go:87-150 | the loop body after a successful read updates the read state in place to what Dispatch says, and sends what Dispatch sends |
| Parser.Parse0 | redis/parser/parser.go:57-152 | the loop sends exactly the payloads of ParseStream, and ends as it does |
| Parser.DecodeGoesOn | redis/parser/parser.go:70-150 | an iteration that goes on leaves what has been sent plus what is still to come unchanged |
| Parser.DecodeEnds | redis/parser/parser.go:74-79 | an iteration that ends the loop adds its last payload, and the stream ends as the iteration says |
| Runs.AtEnd | redis/parser/parser.go:73-78 | at the end of the input the next read reports EOF and the stream closes |
| RoundTrip.ReadsLine | redis/parser/parser.go:160-168 | with bulkLen 0 a line is read through its first LF |
| RoundTrip.ReadsChunk | redis/parser/parser.go:169-181 | an announced chunk is read binary-safe, whatever bytes it holds |
| RoundTrip.ChunkErrors | redis/parser/parser.go:169-179 | a chunk beyond the allocation limit panics, a short input is an I/O error, and a chunk not ending in CRLF is a protocol error |
| RoundTrip.LoneLineFeed | redis/parser/parser.go:166 | a line that is a lone LF makes readLine index position -1, so the stream stops in a panic with nothing sent |
| RoundTrip.ProtocolErrorRecovers | redis/parser/parser.go:80-83 | a protocol error sends one error payload, resets the state, and decoding goes on with the next byte |
| RoundTrip.ArrayHeader | redis/parser/parser.go:89-103 | a top-level `*n` line with count 0 is the empty array, a positive uint32 count starts an array, and anything else is a protocol error |
| RoundTrip.BulkHeaderLine | redis/parser/parser.go:104-115 | a top-level `$n` line with -1 is the null bulk string, a positive length starts a chunk, and 0, lengths below -1 and non-numbers are protocol errors |
| RoundTrip.SingleLine | redis/parser/parser.go:116-125 | any other top-level line is a status, an error, an integer or a protocol error, or else an inline command split at spaces |
| RoundTrip.ArgumentLine | redis/parser/parser.go:126-150 | inside a frame any other line is the next argument; the frame is sent and the state reset exactly when it was the last one |
| RoundTrip.LengthInFrame | redis/parser/parser.go:260-269 | inside a frame `$n` announces a chunk when n > 0, is an empty argument when n <= 0, and is a protocol error when it does not parse |
| RoundTrip.EmptyLineInFrame | redis/parser/parser.go:258-260 | an empty line inside a frame panics |
| RoundTrip.FrameRun | redis/parser/parser.go:70-150 | the encoding of a decodable reply takes as many iterations as it has lines; it sends exactly that reply and ends on the byte after it, in the zero state |
| RoundTrip.BulkFrame | redis/parser/parser.go:104-149 | a bulk string that is not empty, does not start with `$` and can be allocated is read back in two iterations |
| RoundTrip.MultiBulkFrame | redis/parser/parser.go:89-149 | an array of such arguments is read back in one iteration for its header and two for each argument |
| RoundTrip.OneLineRun | redis/parser/parser.go:89-125 | status, error, integer, null bulk and empty array replies are each read back in one iteration |
| RoundTrip.IntRun | redis/reply/reply.go:126-128 | every int64 is read back from its `:` line |
| RoundTrip.DecodeFrame | redis/parser/parser.go:70-150 | wherever a decodable reply's encoding sits in a stream, the stream sends that reply and then whatever follows it |
| RoundTrip.ParseStreamEncode | redis/reply/reply.go:55-67 | decoding the encoding of a decodable reply gives that reply, then the EOF error that closes the stream |
| RoundTrip.ParseStreamFrames | redis/parser/parser.go:57-152 | decoding decodable replies sent back to back gives them all, in order, then the EOF error |
| RoundTrip.ParseOneEncode | redis/parser/parser.go:32-41 | ParseOne of a decodable reply's encoding returns that reply |
| RoundTrip.ParseOneEmpty | redis/parser/parser.go:32-41 | ParseOne of no bytes returns the EOF error |
| RoundTrip.ParseOneBlocks | redis/parser/parser.go:32-41 | ParseOne of a stream that starts with a lone LF never returns, because the decoder panics before it sends anything |
| Quirks.EmptyBulkIsLost | redis/reply/reply.go:29-32 | an empty bulk reply alone on the stream is never a line: the stream sends only the EOF error |
| Quirks.EmptyBulkMerges | redis/reply/reply.go:12 | an empty bulk reply followed by a status reply is one bad `$` line, one protocol error for both |
| Quirks.FixedRepliesReadAsStatus | redis/reply/consts.go:3-77 | the encodings of PONG, OK and QUEUED are read back as status replies of those words, then the EOF error |
| Quirks.ZeroLengthBulk | redis/parser/parser.go:223-225 | `$0\r\n\r\n` at top level is a protocol error, then an inline command of one empty word |
| Quirks.NilArgumentBecomesEmpty | redis/parser/parser.go:266-269 | the array with one nil argument is read back with an empty argument instead |
| Quirks.EmptyArgumentIsReadTwice | redis/parser/parser.go:266-269 | an array whose only argument is empty is sent; its empty data line is then read at top level as an inline command of one empty word, so the same array is sent twice |
| Quirks.EmptyArgumentFaults | redis/parser/parser.go:258-260 | an empty argument before other arguments makes the decoder panic on its data line, with nothing sent |
| Quirks.EmptyArgumentBlocks | redis/parser/parser.go:32-41 | so ParseOne never returns on such an array |
| Quirks.DollarChunkIsHeader | redis/parser/parser.go:260-265 | a bulk string whose data starts with `$` and is not a number after it is one protocol error for its whole chunk |
| Quirks.NullArrayIsRejected | redis/parser/parser.go:189-191 | `*-1` is a protocol error, and decoding goes on after it |
| Quirks.BadLength | redis/parser/parser.go:211-225 | a top-level `$` line with a length of 0, below -1 or not an int64 is a protocol error, and decoding goes on after it |
| Quirks.BadInteger | redis/parser/parser.go:238-242 | a `:` line that is not an int64 is a protocol error, and decoding goes on after it |
| Quirks.InlineCommand | redis/parser/parser.go:244-251 | a line that starts with no type byte is sent as the array of its space-separated words |
| Quirks.Ping | redis/parser/parser.go:244-251 | `PING` typed as a line is an inline command of the single word PING |
| Wire.SimpleLiterals | redis/reply/reply.go:107-153 | Int(1) is `:1\r\n`, Int(-42) is `:-42\r\n`, the status OK is `+OK\r\n` and an error is `-` and its message and CRLF |
| Wire.FixedLiterals | redis/reply/consts.go:3-77 | the fixed replies are exactly `+PONG\r\n`, `+OK\r\n`, `+QUEUED\r\n`, `$-1\r\n` and `*0\r\n`, and NoReply is no bytes at all |
| Wire.BulkLiterals | redis/reply/reply.go:29-34 | a bulk string holding CRLF is written with its byte length and unchanged; the empty bulk string is `$-1` with no CRLF |
| Wire.ArgumentLiterals | redis/reply/reply.go:59-64 | the argument foo is `$3\r\nfoo\r\n`, a nil argument `$-1\r\n` and an empty one `$0\r\n\r\n` |
| Wire.ArrayLiteral | redis/reply/reply.go:55-67 | an array of foo, nil and an empty argument is `*3\r\n` followed by those three segments in order |
| Wire.PingBytes | redis/reply/reply.go:55-67 | the array of the one argument PING is written `*1\r\n$4\r\nPING\r\n` |
| Wire.PingRequest | redis/parser/parser.go:137-149 | decoding `*1\r\n$4\r\nPING\r\n` gives one array of the argument PING, then the EOF error that closes the stream |
| Wire.SetRoundTrip | redis/parser/parser.go:89-149 | the array SET k v is decoded from its encoding with the same three arguments in the same order, then the EOF error |
| Utils.BytesEquals | lib/utils/utils.go:4-17 | the answer is true exactly when both slices are nil, or both are non-nil with the same length and the same byte at every index; a nil slice never equals an empty one |

## Left out

- The goroutine and channel of `ParseStream` and `ParseOne` are replaced by the returned sequence of payloads and its outcome. Nothing models concurrency or the order in which the reader and the decoder run.
- After a panic the Go goroutine of `ParseOne` blocks forever, and after `ParseOne` returns its goroutine leaks. The model records the first case as `Blocked` and does not model the second.
- The logger call in the deferred recover, and the stack trace it prints, are not modelled. A panic is only the `Fault` outcome.
- `bufio.Reader` and `io.ReadFull` are indexing into a byte sequence. The only reader errors modelled are EOF and UnexpectedEOF; errors of other readers are not.
- `make` panics for more than 2^48 bytes, the 64-bit Linux allocation limit, and so does the model. Running out of memory below that limit is not modelled.
- Parser.ReadState.ParseBulkHeader: on a failed ParseInt, Go stores 0 or a clamped value into bulkLen before reporting the error. The contract leaves bulkLen unspecified, since the loop resets the state right after.
- Parser.ReadState.ReadBody: the same holds for a `$n` body line whose number fails to parse. Go stores 0 or the clamped value into bulkLen, and the contract leaves bulkLen unspecified, since the loop resets the state right after.
- The capacity hints given to `make` for `args` are not modelled; they cannot be observed.
- `MakeOkReply` and `MakeQueuedReply` return one shared instance, while `MakeNullBulkReply` and `MakeEmptyMultiBulkReply` allocate a fresh one. Replies are values here, so object identity is not modelled.
- A `MultiRaw` reply is encoded but never decoded as itself, because the decoder has no nested arrays. The only lemma about it is `Replies.MultiRawOfBulks`.
- The round trips cover the replies of `RoundTrip.Decodable`. Beyond those, `Quirks` works out only these cases:
  - the empty bulk string, alone and followed by a status line;
  - the array of one nil argument;
  - an empty first argument, as the only argument or before others;
  - a bulk string whose data starts with `$` and is not a number after it;
  - PONG, OK and QUEUED, read back as status replies.
- Not worked out: status and error replies whose text holds an LF; nil arguments in arrays of more than one argument; empty arguments after the first; data that starts with `$` followed by a number; bulk strings longer than 2^48 - 2 bytes and arrays of more than 2^32 - 1 arguments.
- The network server, the echo handler, the logger, the synchronisation helpers, `main.go` and the handler interface are not part of this model.
