/** The streaming RESP decoder of redis/parser/parser.go.

    The byte source is the whole input as a sequence with a read position;
    one call of `readLine` reads either up to the next LF or exactly
    `bulkLen + 2` bytes. The decoder is specified by functions over a State
    value (one function per helper of the Go file, and `DecodeFrom` for the
    loop of `parse0`), and implemented by the class ReadState whose methods
    update its fields as the Go helpers update `*readState`, driven by the
    loop of the method Parse0. */
module Parser {
  import opened Bytes
  import opened Strconv
  import opened Replies

  /** The largest allocation `make([]byte, n)` accepts on 64-bit Linux
      (runtime maxAlloc, 2^48); larger lengths, and negative ones, panic. */
  const MaxAlloc: int := 0x1_0000_0000_0000

  /** The two errors io.ReadFull and bufio.Reader.ReadBytes report on a
      finite byte source: nothing left (io.EOF) or less than requested
      (io.ErrUnexpectedEOF). */
  datatype IoKind = EOF | UnexpectedEOF

  /** Every protocol error of the Go code is "protocol error: " followed by
      the raw line, so the line is all an error carries. */
  datatype Error = ProtocolError(line: bytes) | IoError(kind: IoKind)

  /** A Payload: a decoded reply or an error. */
  datatype Payload = Data(reply: Reply) | Err(err: Error)

  predicate IsIoError(p: Payload) {
    p.Err? && p.err.IoError?
  }

  /** How the decoding goroutine ends: after an I/O error it sends that error
      and closes the channel; after a runtime panic, caught by the deferred
      recover, it sends nothing more and leaves the channel open. */
  datatype Outcome = Closed | Fault

  /** Everything the channel of ParseStream delivers, and how it ends. */
  datatype Decoded = Decoded(payloads: seq<Payload>, outcome: Outcome)

  function Prepend(out: seq<Payload>, d: Decoded): Decoded {
    Decoded(out + d.payloads, d.outcome)
  }

  /** The fields of readState. */
  datatype State = State(readingMultiLine: bool, expectedArgsCount: int, msgType: byte,
                         args: seq<bytes>, bulkLen: int64)
  {
    /** readState.finished: every expected argument has arrived. */
    predicate Finished()
      ensures Finished() ==> |args| >= 1
    {
      expectedArgsCount > 0 && |args| == expectedArgsCount
    }
  }

  /** The zero value `readState{}` the decoder starts from and resets to. */
  const Zero: State := State(false, 0, 0, [], 0)

  /** What holds of the state at the head of every iteration of parse0:
      either nothing is in progress, or a `*` or `$` frame is in progress with
      fewer arguments than announced (exactly one for `$`). */
  predicate Valid(st: State) {
    if !st.readingMultiLine then st == Zero
    else
      (st.msgType == STAR || (st.msgType == DOLLAR && st.expectedArgsCount == 1))
      && |st.args| < st.expectedArgsCount && st.bulkLen >= 0
  }

  /** What one call of readLine produces: a line with its terminator and the
      position after it, a protocol error on a line, an I/O error, or a
      runtime panic. */
  datatype LineRead =
    | Line(msg: bytes, next: nat)
    | LineError(msg: bytes, next: nat)
    | LineIoError(kind: IoKind)
    | LineFault

  /** A line as readLine returns it: at least two bytes, ending in CRLF. */
  predicate IsLine(msg: bytes) {
    |msg| >= 2 && msg[|msg| - 2] == CR && msg[|msg| - 1] == LF
  }

  /** readLine at `pos`. With bulkLen 0 it reads through the next LF
      (ReadBytes); the line must have a CR before its LF, and a lone LF makes
      the Go code index position -1. Otherwise it allocates and reads exactly
      bulkLen + 2 bytes (ReadFull), whatever they contain, which must end in
      CRLF. */
  function LineAt(input: bytes, pos: nat, bulkLen: int64): (r: LineRead)
    requires pos <= |input|
    ensures r.Line? ==> pos < r.next <= |input| && r.msg == input[pos..r.next] && IsLine(r.msg)
    ensures r.LineError? ==> pos <= r.next <= |input| && r.msg == input[pos..r.next]
    ensures r.LineError? && bulkLen >= 0 ==> pos < r.next
  {
    if bulkLen == 0 then
      var k := FirstIndex(input, pos, LF);
      if k.None? then LineIoError(EOF)
      else if k.value == pos then LineFault
      else if input[k.value - 1] != CR then LineError(input[pos..k.value + 1], k.value + 1)
      else Line(input[pos..k.value + 1], k.value + 1)
    else
      var n := bulkLen as int + 2;
      if n < 0 || n > MaxAlloc then LineFault
      else if |input| - pos < n then LineIoError(if |input| == pos then EOF else UnexpectedEOF)
      else if n == 0 then LineError([], pos)
      else if n == 1 then LineFault
      else if input[pos + n - 2] != CR || input[pos + n - 1] != LF then LineError(input[pos..pos + n], pos + n)
      else Line(input[pos..pos + n], pos + n)
  }

  /** parseMultiBulkHeader: the count between `*` and CRLF must be an
      unsigned 32-bit decimal; 0 only records the count, a positive count
      starts an array of that many arguments. None is a protocol error. */
  function MultiBulkHeader(st: State, msg: bytes): (r: Option<State>)
    requires |msg| >= 3
    ensures var count := ParseUint32(msg[1..|msg| - 2]);
      (r.Some? <==> count.Some?)
      && (r.Some? ==> r.value.expectedArgsCount == count.value <= MaxUint32 && r.value.bulkLen == st.bulkLen
                      && (r.value.readingMultiLine <==> count.value > 0 || st.readingMultiLine))
      && (r.Some? && count.value > 0 ==> r.value.msgType == msg[0] && r.value.args == [])
      && (r.Some? && count.value == 0 ==> r.value == st.(expectedArgsCount := 0))
  {
    var count := ParseUint32(msg[1..|msg| - 2]);
    if count.None? then None
    else if count.value == 0 then Some(st.(expectedArgsCount := 0))
    else Some(st.(msgType := msg[0], readingMultiLine := true, expectedArgsCount := count.value, args := []))
  }

  /** parseBulkHeader: the length between `$` and CRLF must be a signed
      64-bit decimal; -1 is the null bulk string, a positive length starts a
      one-argument frame whose body is read binary-safe. 0, values below -1
      and unparsable lengths are protocol errors (None). */
  function BulkHeader(st: State, msg: bytes): (r: Option<State>)
    requires |msg| >= 3
    ensures var len := ParseInt64(msg[1..|msg| - 2]);
      (r.Some? <==> len.Some? && (len.value == -1 || len.value > 0))
      && (r.Some? ==> r.value.bulkLen == len.value)
      && (r.Some? && len.value == -1 ==> r.value == st.(bulkLen := -1))
      && (r.Some? && len.value > 0 ==> r.value.readingMultiLine && r.value.expectedArgsCount == 1
                                       && r.value.msgType == msg[0] && r.value.args == [])
  {
    var len := ParseInt64(msg[1..|msg| - 2]);
    if len.None? then None
    else if len.value == -1 then Some(st.(bulkLen := -1))
    else if len.value > 0 then
      Some(st.(msgType := msg[0], readingMultiLine := true, expectedArgsCount := 1, args := [], bulkLen := len.value))
    else None
  }

  /** The result of readBody. */
  datatype BodyResult = BodyOk(st: State) | BodyError | BodyFault

  /** readBody: the line without its last two bytes. A line starting with `$`
      is a length header: a length of at most 0 appends an empty argument,
      a positive one announces a binary-safe chunk. Any other line is the
      next argument. An empty line makes the Go code index position 0 of an
      empty slice. */
  function Body(st: State, msg: bytes): (r: BodyResult)
    requires |msg| >= 2
    ensures r.BodyFault? <==> |msg| == 2
    ensures r.BodyError? ==> msg[0] == DOLLAR
    ensures |msg| > 2 && msg[0] != DOLLAR ==> r == BodyOk(st.(args := st.args + [msg[..|msg| - 2]]))
    ensures r.BodyOk? ==> r.st.readingMultiLine == st.readingMultiLine && r.st.msgType == st.msgType
                          && r.st.expectedArgsCount == st.expectedArgsCount
    ensures r.BodyOk? && msg[0] == DOLLAR ==>
      (r.st.args == st.args + [[]] && r.st.bulkLen == 0) || (r.st.args == st.args && r.st.bulkLen > 0)
  {
    var line := msg[..|msg| - 2];
    if line == [] then BodyFault
    else if line[0] == DOLLAR then
      var len := ParseInt64(line[1..]);
      if len.None? then BodyError
      else if len.value <= 0 then BodyOk(st.(args := st.args + [[]], bulkLen := 0))
      else BodyOk(st.(bulkLen := len.value))
    else BodyOk(st.(args := st.args + [line]))
  }

  /** Go `[][]byte` arguments are never nil once decoded. */
  function Somes(args: seq<bytes>): (r: seq<Option<bytes>>)
    ensures |r| == |args|
    ensures forall i :: 0 <= i < |args| ==> r[i] == Some(args[i])
  {
    seq(|args|, i requires 0 <= i < |args| => Some(args[i]))
  }

  /** The reply a finished frame makes: MakeMultiBulkReply of the arguments
      for `*`, MakeBulkReply of the only argument for `$`. */
  function Assemble(st: State): Reply
    requires st.msgType == STAR || (st.msgType == DOLLAR && |st.args| >= 1)
  {
    if st.msgType == STAR then MultiBulk(Somes(st.args)) else Bulk(st.args[0])
  }

  /** `strings.TrimSuffix` of "\n" and then of "\r": the line without its
      terminator. It keeps a first byte that is neither CR nor LF. */
  function TrimLineEnd(msg: bytes): (str: bytes)
    ensures |msg| >= 1 && msg[0] != CR && msg[0] != LF ==> |str| >= 1 && str[0] == msg[0]
    ensures IsLine(msg) ==> str == msg[..|msg| - 2]
  {
    var noLF := TrimSuffix(msg, [LF]);
    assert |msg| >= 1 && msg[0] != LF ==> |noLF| >= 1 && noLF[0] == msg[0];
    TrimSuffix(noLF, [CR])
  }

  /** parseSingleLineReply: with the terminator trimmed, `+` is a status,
      `-` an error, `:` an integer (a protocol error unless it is an
      int64), and anything else the space-separated words of an inline
      command. */
  function ParseSingleLineReply(msg: bytes): (r: Payload)
    requires |msg| >= 1
    ensures r.Err? ==> msg[0] == COLON && r.err == ProtocolError(msg)
    ensures IsLine(msg) && msg[0] == PLUS ==> r == Data(Status(msg[1..|msg| - 2]))
    ensures IsLine(msg) && msg[0] == MINUS ==> r == Data(StandardErr(msg[1..|msg| - 2]))
    ensures IsLine(msg) && msg[0] == COLON ==>
      r == (var n := ParseInt64(msg[1..|msg| - 2]); if n.Some? then Data(Int(n.value)) else Err(ProtocolError(msg)))
    ensures msg[0] != PLUS && msg[0] != MINUS && msg[0] != COLON ==>
      r.Data? && r.reply.MultiBulk? && |r.reply.args| >= 1 && forall i :: 0 <= i < |r.reply.args| ==> r.reply.args[i].Some?
  {
    var str := TrimLineEnd(msg);
    if msg[0] == PLUS || msg[0] == MINUS || msg[0] == COLON then
      assert IsLine(msg) ==> str[1..] == msg[1..|msg| - 2];
      if msg[0] == PLUS then Data(Status(str[1..]))
      else if msg[0] == MINUS then Data(StandardErr(str[1..]))
      else
        var n := ParseInt64(str[1..]);
        if n.None? then Err(ProtocolError(msg)) else Data(Int(n.value))
    else Data(MultiBulk(Somes(Split(str, SPACE))))
  }

  /** What one line does to the decoder: the payloads it emits (at most one)
      and the state after it, or a panic. */
  datatype Dispatched = Next(out: seq<Payload>, st: State) | DispatchFault

  /** The body of the loop of parse0 after a successful readLine: a header or
      a single-line reply when nothing is in progress, otherwise a body line;
      a frame that completes is emitted and the state reset. */
  function Dispatch(st: State, msg: bytes): (r: Dispatched)
    requires Valid(st) && IsLine(msg)
    ensures r.Next? ==> Valid(r.st) && |r.out| <= 1 && (r.out != [] ==> r.st == Zero)
  {
    if !st.readingMultiLine then TopLevel(st, msg) else InFrame(st, msg)
  }

  /** A line read while no frame is in progress. */
  function TopLevel(st: State, msg: bytes): (r: Dispatched)
    requires st == Zero && IsLine(msg)
    ensures r.Next? && Valid(r.st) && |r.out| <= 1 && (r.out != [] ==> r.st == Zero)
  {
    if msg[0] == STAR then
      var h := MultiBulkHeader(st, msg);
      if h.None? then Next([Err(ProtocolError(msg))], Zero)
      else if h.value.expectedArgsCount == 0 then Next([Data(EmptyMultiBulk)], Zero)
      else Next([], h.value)
    else if msg[0] == DOLLAR then
      var h := BulkHeader(st, msg);
      if h.None? then Next([Err(ProtocolError(msg))], Zero)
      else if h.value.bulkLen == -1 then Next([Data(NullBulk)], Zero)
      else Next([], h.value)
    else Next([ParseSingleLineReply(msg)], Zero)
  }

  /** A line read while a frame is in progress. */
  function InFrame(st: State, msg: bytes): (r: Dispatched)
    requires Valid(st) && st.readingMultiLine && IsLine(msg)
    ensures r.Next? ==> Valid(r.st) && |r.out| <= 1 && (r.out != [] ==> r.st == Zero)
  {
    var b := Body(st, msg);
    if b.BodyFault? then DispatchFault
    else if b.BodyError? then Next([Err(ProtocolError(msg))], Zero)
    else if b.st.Finished() then Next([Data(Assemble(b.st))], Zero)
    else Next([], b.st)
  }

  /** One iteration of the loop of parse0. */
  datatype Step = Continue(out: seq<Payload>, next: nat, st: State) | Stop(out: seq<Payload>, outcome: Outcome)

  function StepAt(input: bytes, pos: nat, st: State): (r: Step)
    requires pos <= |input| && Valid(st)
    ensures r.Continue? ==> pos < r.next <= |input| && Valid(r.st) && |r.out| <= 1
    ensures r.Continue? && r.out != [] ==> r.st == Zero && !IsIoError(r.out[0])
    ensures r.Stop? ==> (r.outcome.Closed? <==> r.out != []) && |r.out| <= 1
    ensures r.Stop? && r.out != [] ==> IsIoError(r.out[0])
  {
    var line := LineAt(input, pos, st.bulkLen);
    if line.LineIoError? then Stop([Err(IoError(line.kind))], Closed)
    else if line.LineFault? then Stop([], Fault)
    else if line.LineError? then Continue([Err(ProtocolError(line.msg))], line.next, Zero)
    else
      var d := Dispatch(st.(bulkLen := 0), line.msg);
      if d.DispatchFault? then Stop([], Fault)
      else Continue(d.out, line.next, d.st)
  }

  /** The loop of parse0 from `pos` in state `st`, to its end. */
  function DecodeFrom(input: bytes, pos: nat, st: State): (d: Decoded)
    requires pos <= |input| && Valid(st)
    ensures d.outcome.Closed? <==> d.payloads != [] && IsIoError(d.payloads[|d.payloads| - 1])
    decreases |input| - pos, 1
  {
    var s := StepAt(input, pos, st);
    if s.Stop? then Decoded(s.out, s.outcome)
    else Prepend(s.out, DecodeAfter(input, pos, s))
  }

  /** What the loop produces after an iteration from `pos` that goes on. */
  function DecodeAfter(input: bytes, pos: nat, s: Step): (d: Decoded)
    requires s.Continue? && pos < s.next <= |input| && Valid(s.st)
    ensures d.outcome.Closed? <==> d.payloads != [] && IsIoError(d.payloads[|d.payloads| - 1])
    decreases |input| - pos, 0
  {
    DecodeFrom(input, s.next, s.st)
  }

  /** ParseStream: every payload the channel delivers for a byte source, and
      whether it is closed at the end. */
  function ParseStream(input: bytes): (d: Decoded)
    ensures d.outcome.Closed? <==> d.payloads != [] && IsIoError(d.payloads[|d.payloads| - 1])
  {
    DecodeFrom(input, 0, Zero)
  }

  /** Every stream ends in exactly one of two ways: closed right after its
      only I/O error, or abandoned by a panic with no I/O error at all. */
  lemma {:induction false} DecodeShape(input: bytes, pos: nat, st: State)
    requires pos <= |input| && Valid(st)
    ensures var d := DecodeFrom(input, pos, st);
      (d.outcome.Closed? <==> d.payloads != [] && IsIoError(d.payloads[|d.payloads| - 1]))
      && forall i :: 0 <= i < |d.payloads| - 1 ==> !IsIoError(d.payloads[i])
    decreases |input| - pos
  {
    var s := StepAt(input, pos, st);
    if s.Continue? {
      DecodeShape(input, s.next, s.st);
      var rest := DecodeFrom(input, s.next, s.st);
      assert DecodeFrom(input, pos, st).payloads == s.out + rest.payloads;
    }
  }

  /** ParseStream ends closed after its only I/O error, or in a panic with no
      I/O error at all. */
  lemma {:induction false} StreamShape(input: bytes)
    ensures var d := ParseStream(input);
      (d.outcome.Closed? <==> d.payloads != [] && IsIoError(d.payloads[|d.payloads| - 1]))
      && forall i :: 0 <= i < |d.payloads| - 1 ==> !IsIoError(d.payloads[i])
  {
    DecodeShape(input, 0, Zero);
  }

  /** What ParseOne returns: the first payload; "no reply" when the channel
      is closed with nothing in it; or, when the decoder panics before
      sending anything, no return at all, since nobody closes the channel. */
  datatype OneResult = Returned(payload: Payload) | NoReplyError | Blocked

  /** ParseOne: the first payload of the stream. The "no reply" branch of the
      Go code cannot be taken, since the channel is only closed after an
      I/O error has been sent. */
  function ParseOne(data: bytes): (r: OneResult)
    ensures !r.NoReplyError?
    ensures r.Returned? <==> ParseStream(data).payloads != []
    ensures r.Blocked? <==> ParseStream(data).payloads == [] && ParseStream(data).outcome.Fault?
  {
    StreamShape(data);
    var d := ParseStream(data);
    if d.payloads != [] then Returned(d.payloads[0])
    else if d.outcome.Closed? then NoReplyError
    else Blocked
  }

  /** readState, updated in place by the helpers of parse0. */
  class ReadState {
    var readingMultiLine: bool
    var expectedArgsCount: int
    var msgType: byte
    var args: seq<bytes>
    var bulkLen: int64

    function Value(): State
      reads this
    {
      State(readingMultiLine, expectedArgsCount, msgType, args, bulkLen)
    }

    /** `var state readState`: the zero value. */
    constructor ()
      ensures Value() == Zero
    {
      readingMultiLine := false;
      expectedArgsCount := 0;
      msgType := 0;
      args := [];
      bulkLen := 0;
    }

    /** `state = readState{}`. */
    method Reset()
      modifies this
      ensures Value() == Zero
    {
      readingMultiLine := false;
      expectedArgsCount := 0;
      msgType := 0;
      args := [];
      bulkLen := 0;
    }

    /** readLine: reads the next line or binary-safe chunk from `pos`, and
        clears bulkLen after a chunk that ends in CRLF. */
    method ReadLine(input: bytes, pos: nat) returns (r: LineRead)
      requires pos <= |input|
      modifies this
      ensures r == LineAt(input, pos, old(bulkLen))
      ensures Value() == if r.Line? then old(Value()).(bulkLen := 0) else old(Value())
    {
      if bulkLen == 0 {
        // bufio.Reader.ReadBytes('\n')
        var k := pos;
        while k < |input| && input[k] != LF
          invariant pos <= k <= |input|
          invariant forall j :: pos <= j < k ==> input[j] != LF
        {
          k := k + 1;
        }
        FirstIndexAt(input, pos, LF, k);
        if k == |input| {
          r := LineIoError(EOF);
        } else if k == pos {
          r := LineFault;
        } else if input[k - 1] != CR {
          r := LineError(input[pos..k + 1], k + 1);
        } else {
          r := Line(input[pos..k + 1], k + 1);
        }
      } else {
        var n := bulkLen as int + 2;
        if n < 0 || n > MaxAlloc {
          r := LineFault;
        } else if |input| - pos < n {
          r := LineIoError(if |input| == pos then EOF else UnexpectedEOF);
        } else {
          var msg := input[pos..pos + n];
          if n == 0 {
            r := LineError(msg, pos);
          } else if n == 1 {
            r := LineFault;
          } else if msg[n - 2] != CR || msg[n - 1] != LF {
            r := LineError(msg, pos + n);
          } else {
            bulkLen := 0;
            r := Line(msg, pos + n);
          }
        }
      }
    }

    /** parseMultiBulkHeader: on success the state is the one the header
        announces; on a protocol error nothing changes. */
    method ParseMultiBulkHeader(msg: bytes) returns (ok: bool)
      requires |msg| >= 3
      modifies this
      ensures ok <==> MultiBulkHeader(old(Value()), msg).Some?
      ensures Value() == if ok then MultiBulkHeader(old(Value()), msg).value else old(Value())
    {
      var expectedLine := ParseUint32(msg[1..|msg| - 2]);
      if expectedLine.None? {
        return false;
      }
      if expectedLine.value == 0 {
        expectedArgsCount := 0;
      } else {
        msgType := msg[0];
        readingMultiLine := true;
        expectedArgsCount := expectedLine.value;
        args := [];
      }
      return true;
    }

    /** parseBulkHeader: on success the state is the one the header
        announces. The Go code stores the parsed length before checking it,
        so on a protocol error only bulkLen may have changed. */
    method ParseBulkHeader(msg: bytes) returns (ok: bool)
      requires |msg| >= 3
      modifies this
      ensures ok <==> BulkHeader(old(Value()), msg).Some?
      ensures ok ==> Value() == BulkHeader(old(Value()), msg).value
      ensures !ok ==> Value() == old(Value()).(bulkLen := bulkLen)
    {
      var len := ParseInt64(msg[1..|msg| - 2]);
      if len.None? {
        bulkLen := 0;
        return false;
      }
      bulkLen := len.value;
      if bulkLen == -1 {
        return true;
      } else if bulkLen > 0 {
        msgType := msg[0];
        readingMultiLine := true;
        expectedArgsCount := 1;
        args := [];
        return true;
      }
      return false;
    }

    /** readBody: appends the next argument or records a chunk length. */
    method ReadBody(msg: bytes) returns (r: BodyResult)
      requires |msg| >= 2
      modifies this
      ensures r == Body(old(Value()), msg)
      ensures r.BodyOk? ==> Value() == r.st
      ensures !r.BodyOk? ==> Value() == old(Value()).(bulkLen := bulkLen)
    {
      var line := msg[..|msg| - 2];
      if line == [] {
        return BodyFault;
      }
      if line[0] == DOLLAR {
        var len := ParseInt64(line[1..]);
        if len.None? {
          bulkLen := 0;
          return BodyError;
        }
        bulkLen := len.value;
        if bulkLen <= 0 {
          args := args + [[]];
          bulkLen := 0;
        }
      } else {
        args := args + [line];
      }
      r := BodyOk(Value());
    }
  }

  /** parse0: decodes the whole input, sending each payload as it is
      decoded, until an I/O error or a panic ends the loop. */
  method Parse0(input: bytes) returns (payloads: seq<Payload>, outcome: Outcome)
    ensures Decoded(payloads, outcome) == ParseStream(input)
  {
    var state := new ReadState();
    var pos := 0;
    payloads := [];
    while true
      invariant pos <= |input| && Valid(state.Value())
      invariant Prepend(payloads, DecodeFrom(input, pos, state.Value())) == ParseStream(input)
      decreases |input| - pos
    {
      ghost var before := state.Value();
      ghost var step := StepAt(input, pos, before);
      var line := state.ReadLine(input, pos);
      if line.LineIoError? {
        DecodeEnds(input, pos, before, payloads);
        payloads := payloads + [Err(IoError(line.kind))];
        return payloads, Closed;
      } else if line.LineFault? {
        DecodeEnds(input, pos, before, payloads);
        assert payloads + [] == payloads;
        return payloads, Fault;
      } else if line.LineError? {
        DecodeGoesOn(input, pos, before, payloads);
        payloads := payloads + [Err(ProtocolError(line.msg))];
        state.Reset();
        pos := line.next;
      } else {
        var msg := line.msg;
        ghost var d := Dispatch(before.(bulkLen := 0), msg);
        assert step == if d.DispatchFault? then Stop([], Fault) else Continue(d.out, line.next, d.st);
        var out := HandleLine(state, msg);
        if out.None? {
          DecodeEnds(input, pos, before, payloads);
          assert payloads + [] == payloads;
          return payloads, Fault;
        }
        DecodeGoesOn(input, pos, before, payloads);
        payloads := payloads + out.value;
        pos := line.next;
      }
    }
  }

  /** An iteration of parse0 that goes on: what has been sent and what is
      still to come are the same stream before and after it. */
  lemma {:induction false} DecodeGoesOn(input: bytes, pos: nat, st: State, sent: seq<Payload>)
    requires pos <= |input| && Valid(st) && StepAt(input, pos, st).Continue?
    ensures var s := StepAt(input, pos, st);
      Prepend(sent, DecodeFrom(input, pos, st)) == Prepend(sent + s.out, DecodeFrom(input, s.next, s.st))
  {
    var s := StepAt(input, pos, st);
    var rest := DecodeFrom(input, s.next, s.st);
    assert sent + (s.out + rest.payloads) == (sent + s.out) + rest.payloads;
  }

  /** An iteration of parse0 that ends the loop: the stream is what has been
      sent and what the last iteration sends. */
  lemma {:induction false} DecodeEnds(input: bytes, pos: nat, st: State, sent: seq<Payload>)
    requires pos <= |input| && Valid(st) && StepAt(input, pos, st).Stop?
    ensures var s := StepAt(input, pos, st);
      Prepend(sent, DecodeFrom(input, pos, st)) == Decoded(sent + s.out, s.outcome)
  {
  }

  /** The part of the loop body of parse0 after a successful readLine. It
      returns the payloads sent, or None for a panic. */
  method HandleLine(state: ReadState, msg: bytes) returns (out: Option<seq<Payload>>)
    requires Valid(state.Value()) && state.bulkLen == 0 && IsLine(msg)
    modifies state
    ensures var d := Dispatch(old(state.Value()), msg);
      if d.DispatchFault? then out.None? else out == Some(d.out) && state.Value() == d.st
  {
    if !state.readingMultiLine {
      if msg[0] == STAR {
        var ok := state.ParseMultiBulkHeader(msg);
        if !ok {
          state.Reset();
          return Some([Err(ProtocolError(msg))]);
        }
        if state.expectedArgsCount == 0 {
          state.Reset();
          return Some([Data(EmptyMultiBulk)]);
        }
        return Some([]);
      } else if msg[0] == DOLLAR {
        var ok := state.ParseBulkHeader(msg);
        if !ok {
          state.Reset();
          return Some([Err(ProtocolError(msg))]);
        }
        if state.bulkLen == -1 {
          state.Reset();
          return Some([Data(NullBulk)]);
        }
        return Some([]);
      } else {
        var result := ParseSingleLineReply(msg);
        state.Reset();
        return Some([result]);
      }
    } else {
      var r := state.ReadBody(msg);
      if r.BodyFault? {
        return None;
      } else if r.BodyError? {
        state.Reset();
        return Some([Err(ProtocolError(msg))]);
      }
      if state.expectedArgsCount > 0 && |state.args| == state.expectedArgsCount {
        var result;
        if state.msgType == STAR {
          result := MultiBulk(Somes(state.args));
        } else {
          result := Bulk(state.args[0]);
        }
        state.Reset();
        return Some([Data(result)]);
      }
      return Some([]);
    }
  }
}
