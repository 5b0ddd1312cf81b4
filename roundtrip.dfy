/** What the decoder of redis/parser/parser.go makes of the bytes the
    encoder of redis/reply writes, line by line and frame by frame, and the
    inputs on which the two disagree. */
module RoundTrip {
  import opened Bytes
  import opened Strconv
  import opened Replies
  import opened Parser
  import opened Runs

  // ----- readLine -----

  /** With bulkLen 0, readLine takes everything through the first LF. */
  lemma {:induction false} ReadsLine(input: bytes, p: nat, body: bytes)
    requires Occurs(input, p, body + CRLF)
    requires LF !in body
    ensures LineAt(input, p, 0) == Line(body + CRLF, p + |body| + 2)
  {
    OccursSlice(input, p, body + CRLF);
    var e := p + |body| + 1;
    assert input[e] == (body + CRLF)[|body| + 1];
    assert input[e - 1] == (body + CRLF)[|body|];
    forall j | p <= j < e
      ensures input[j] != LF
    {
      assert input[j] == (body + CRLF)[j - p];
    }
    FirstIndexAt(input, p, LF, e);
  }

  /** With bulkLen > 0, readLine takes exactly bulkLen + 2 bytes, whatever
      they hold: an LF inside the chunk does not end it. */
  lemma {:induction false} ReadsChunk(input: bytes, p: nat, data: bytes)
    requires 0 < |data| && |data| + 2 <= MaxAlloc
    requires Occurs(input, p, data + CRLF)
    ensures LineAt(input, p, |data|) == Line(data + CRLF, p + |data| + 2)
  {
    OccursSlice(input, p, data + CRLF);
    assert input[p + |data|] == (data + CRLF)[|data|];
    assert input[p + |data| + 1] == (data + CRLF)[|data| + 1];
  }

  /** A chunk read fails as an I/O error when the input is too short (EOF if
      nothing is left), as a protocol error when the chunk does not end in
      CRLF, and as a panic when bulkLen + 2 is more than make can allocate. */
  lemma {:induction false} ChunkErrors(input: bytes, p: nat, len: int64)
    requires 0 < len && p <= |input|
    ensures len + 2 > MaxAlloc ==> LineAt(input, p, len) == LineFault
    ensures len + 2 <= MaxAlloc && |input| < p + len + 2 ==>
      LineAt(input, p, len) == LineIoError(if |input| == p then EOF else UnexpectedEOF)
    ensures len + 2 <= MaxAlloc && p + len + 2 <= |input| && input[p + len..p + len + 2] != CRLF ==>
      LineAt(input, p, len) == LineError(input[p..p + len + 2], p + len + 2)
  {
    if len + 2 <= MaxAlloc && p + len + 2 <= |input| && input[p + len..p + len + 2] != CRLF {
      assert input[p + len] != CR || input[p + len + 1] != LF;
    }
  }

  /** A lone LF is read as a line of one byte, which makes readLine panic:
      the stream ends there, unclosed. */
  lemma {:induction false} LoneLineFeed(rest: bytes)
    ensures ParseStream([LF] + rest) == Decoded([], Fault)
  {
    assert FirstIndex([LF] + rest, 0, LF) == Some(0);
  }

  // ----- one iteration of parse0 -----

  /** An iteration of parse0 on a line when no chunk is announced. */
  lemma {:induction false} StepLine(input: bytes, p: nat, st: State, body: bytes)
    requires Valid(st) && st.bulkLen == 0
    requires Occurs(input, p, body + CRLF)
    requires LF !in body
    ensures var d := Dispatch(st, body + CRLF);
      StepAt(input, p, st)
        == if d.DispatchFault? then Stop([], Fault) else Continue(d.out, p + |body| + 2, d.st)
  {
    ReadsLine(input, p, body);
    assert st.(bulkLen := 0) == st;
  }

  /** A line read when no chunk is announced, as a run of one, given what
      the line does to the decoder. */
  lemma {:induction false} LineRun(input: bytes, p: nat, st: State, body: bytes, out: seq<Payload>, st': State)
    requires Valid(st) && st.bulkLen == 0
    requires Occurs(input, p, body + CRLF) && LF !in body
    requires Dispatch(st, body + CRLF) == Next(out, st')
    ensures p + |body| + 2 <= |input|
    ensures Run(Loop(input), p, st, 1) == Some(Progress(out, p + |body| + 2, st'))
  {
    var e := p + |body| + 2;
    assert LineAt(input, p, 0) == Line(body + CRLF, e) by {
      ReadsLine(input, p, body);
    }
    assert st.(bulkLen := 0) == st;
    StepRun(input, p, st, out, e, st');
  }

  /** An iteration of parse0 on an announced chunk. */
  lemma {:induction false} StepChunk(input: bytes, p: nat, st: State, data: bytes)
    requires Valid(st) && st.readingMultiLine && st.bulkLen as int == |data|
    requires 0 < |data| && |data| + 2 <= MaxAlloc
    requires Occurs(input, p, data + CRLF)
    ensures var d := Dispatch(st.(bulkLen := 0), data + CRLF);
      StepAt(input, p, st)
        == if d.DispatchFault? then Stop([], Fault) else Continue(d.out, p + |data| + 2, d.st)
  {
    ReadsChunk(input, p, data);
  }

  /** A protocol error on a line costs only that line: one error payload, the
      zero state, and decoding goes on with the next byte. */
  lemma {:induction false} ProtocolErrorRecovers(input: bytes, p: nat, st: State)
    requires p <= |input| && Valid(st)
    requires StepAt(input, p, st).out != [] && StepAt(input, p, st).out[0].Err?
    requires StepAt(input, p, st).out[0].err.ProtocolError?
    ensures var s := StepAt(input, p, st);
      s.Continue? && s.st == Zero
      && DecodeFrom(input, p, st) == Prepend([s.out[0]], DecodeFrom(input, s.next, Zero))
  {
    var s := StepAt(input, p, st);
    assert s.out == [s.out[0]];
  }

  // ----- single lines -----

  /** A top-level `*` line: a count of 0 is the empty array, a positive
      unsigned 32-bit count starts an array, and anything else (a sign,
      non-digits, more than 32 bits) is a protocol error. */
  lemma {:induction false} ArrayHeader(d: bytes)
    ensures var msg := [STAR] + d + CRLF; var n := ParseUint32(d);
      Dispatch(Zero, msg)
        == if n.None? then Next([Err(ProtocolError(msg))], Zero)
           else if n.value == 0 then Next([Data(EmptyMultiBulk)], Zero)
           else Next([], State(true, n.value, STAR, [], 0))
  {
    var msg := [STAR] + d + CRLF;
    assert msg[1..|msg| - 2] == d;
  }

  /** A top-level `$` line: -1 is the null bulk string, a positive int64
      announces a chunk, and 0, values below -1 and non-numbers are protocol
      errors. */
  lemma {:induction false} BulkHeaderLine(d: bytes)
    ensures var msg := [DOLLAR] + d + CRLF; var len := ParseInt64(d);
      Dispatch(Zero, msg)
        == if len == Some(-1) then Next([Data(NullBulk)], Zero)
           else if len.Some? && len.value > 0 then Next([], State(true, 1, DOLLAR, [], len.value))
           else Next([Err(ProtocolError(msg))], Zero)
  {
    var msg := [DOLLAR] + d + CRLF;
    assert msg[1..|msg| - 2] == d;
  }

  /** Any other top-level line is a single-line reply: `+` a status, `-` an
      error, `:` an integer or a protocol error, and anything else an inline
      command split at spaces, all with CRLF removed. */
  lemma {:induction false} SingleLine(c: byte, s: bytes)
    requires c != STAR && c != DOLLAR
    ensures var msg := [c] + s + CRLF;
      Dispatch(Zero, msg)
        == Next([if c == PLUS then Data(Status(s))
                 else if c == MINUS then Data(StandardErr(s))
                 else if c == COLON then
                   (if ParseInt64(s).None? then Err(ProtocolError(msg)) else Data(Int(ParseInt64(s).value)))
                 else Data(MultiBulk(Somes(Split([c] + s, SPACE))))], Zero)
  {
    var msg := [c] + s + CRLF;
    assert msg[..|msg| - 2] == [c] + s;
    assert ([c] + s)[1..] == s;
  }

  /** Inside a frame, a line that is not a length header is the next
      argument, byte for byte without its CRLF; the frame is emitted and the
      state reset exactly when that was the last expected argument. */
  lemma {:induction false} ArgumentLine(st: State, a: bytes)
    requires Valid(st) && st.readingMultiLine && st.bulkLen == 0
    requires a != [] && a[0] != DOLLAR
    ensures var st2 := st.(args := st.args + [a]);
      Dispatch(st, a + CRLF)
        == if st2.Finished() then Next([Data(Assemble(st2))], Zero) else Next([], st2)
  {
    assert (a + CRLF)[..|a + CRLF| - 2] == a;
  }

  /** Inside a frame, a line `$n` announces a chunk of n bytes when n > 0 and
      is an empty argument when n <= 0; a non-number is a protocol error. */
  lemma {:induction false} LengthInFrame(st: State, d: bytes)
    requires Valid(st) && st.readingMultiLine && st.bulkLen == 0
    ensures var msg := [DOLLAR] + d + CRLF; var len := ParseInt64(d);
      var st2 := st.(args := st.args + [[]]);
      Dispatch(st, msg)
        == if len.None? then Next([Err(ProtocolError(msg))], Zero)
           else if len.value > 0 then Next([], st.(bulkLen := len.value))
           else if st2.Finished() then Next([Data(Assemble(st2))], Zero)
           else Next([], st2)
  {
    var msg := [DOLLAR] + d + CRLF;
    assert msg[..|msg| - 2] == [DOLLAR] + d;
    assert ([DOLLAR] + d)[1..] == d;
  }

  /** An empty line inside a frame makes readBody panic. */
  lemma {:induction false} EmptyLineInFrame(st: State)
    requires Valid(st) && st.readingMultiLine && st.bulkLen == 0
    ensures Dispatch(st, CRLF) == DispatchFault
  {
  }

  // ----- frames -----

  /** An argument the decoder reads back unchanged: not empty (`$0` is
      followed by an empty line the decoder cannot take), not starting with
      `$` (such a chunk is read as a length header), and allocatable. */
  predicate GoodArg(a: bytes) {
    a != [] && a[0] != DOLLAR && |a| + 2 <= MaxAlloc
  }

  /** The replies whose encoding the decoder reads back as themselves. */
  predicate Decodable(r: Reply) {
    match r
    case Status(s) => LF !in s
    case StandardErr(s) => LF !in s
    case Int(_) => true
    case Bulk(a) => GoodArg(a)
    case MultiBulk(args) =>
      0 < |args| <= MaxUint32 && forall i :: 0 <= i < |args| ==> args[i].Some? && GoodArg(args[i].value)
    case NullBulk => true
    case EmptyMultiBulk => true
    case _ => false
  }

  /** The number of lines the encoding of a reply takes on the wire. */
  function Lines(r: Reply): nat {
    match r
    case Bulk(_) => 2
    case MultiBulk(args) => 1 + 2 * |args|
    case _ => 1
  }

  /** Decimal digits hold no LF. */
  lemma {:induction false} ItoaNoLF(n: nat)
    ensures LF !in Itoa(n)
  {
    ItoaDigits(n);
    forall i | 0 <= i < |Itoa(n)|
      ensures Itoa(n)[i] != LF
    {
      assert IsDigit(Itoa(n)[i]);
    }
  }

  /** The decimal form of an int64 holds no LF. */
  lemma {:induction false} FormatIntNoLF(n: int64)
    ensures LF !in FormatInt(n)
  {
    if n < 0 {
      ItoaNoLF(-(n as int));
      assert FormatInt(n) == [MINUS] + Itoa(-(n as int));
    } else {
      ItoaNoLF(n);
    }
  }

  /** One decimal digit, read as a count or a length. */
  lemma {:induction false} OneDigit(d: byte)
    requires IsDigit(d)
    ensures AllDigits([d]) && DigitsValue([d]) == d as int - 48
    ensures ParseUint32([d]) == Some(d as int - 48)
    ensures ParseInt64([d]) == Some(d as int - 48)
    ensures ParseInt64([MINUS, d]) == Some(48 - d as int)
  {
    assert [d][..0] == [];
    assert [MINUS, d][1..] == [d];
  }

  /** Where the chunk of one argument leaves the decoder: after the last
      expected argument the frame is sent and the state reset, before it
      the argument is kept. */
  function AfterArgument(st: State, a: bytes, next: nat): (r: Step)
    requires st.msgType == STAR || st.msgType == DOLLAR
    ensures r.Continue? && r.next == next
  {
    var st2 := st.(args := st.args + [a]);
    if st2.Finished() then Continue([Data(Assemble(st2))], next, Zero) else Continue([], next, st2)
  }

  /** A `$n` line inside a frame, n > 0, announces a chunk of n bytes. */
  lemma {:induction false} ChunkHeaderStep(input: bytes, p: nat, st: State, d: bytes, len: int64)
    requires Valid(st) && st.readingMultiLine && st.bulkLen == 0 && len > 0
    requires LF !in d && ParseInt64(d) == Some(len)
    requires Occurs(input, p, [DOLLAR] + d + CRLF)
    ensures StepAt(input, p, st) == Continue([], p + |d| + 3, st.(bulkLen := len))
  {
    StepLine(input, p, st, [DOLLAR] + d);
    LengthInFrame(st, d);
  }

  /** An announced chunk is the next argument. */
  lemma {:induction false} ChunkStep(input: bytes, p: nat, st: State, a: bytes)
    requires Valid(st) && st.readingMultiLine && st.bulkLen == 0 && GoodArg(a)
    requires Occurs(input, p, a + CRLF)
    ensures StepAt(input, p, st.(bulkLen := |a|)) == AfterArgument(st, a, p + |a| + 2)
  {
    StepChunk(input, p, st.(bulkLen := |a|), a);
    assert st.(bulkLen := |a|).(bulkLen := 0) == st;
    ArgumentLine(st, a);
  }

  /** A top-level `$n` line, n > 0, starts a bulk string of n bytes. */
  lemma {:induction false} BulkHeaderStep(input: bytes, p: nat, d: bytes, len: int64)
    requires len > 0 && LF !in d && ParseInt64(d) == Some(len)
    requires Occurs(input, p, [DOLLAR] + d + CRLF)
    ensures StepAt(input, p, Zero) == Continue([], p + |d| + 3, State(true, 1, DOLLAR, [], len))
  {
    StepLine(input, p, Zero, [DOLLAR] + d);
    BulkHeaderLine(d);
  }

  /** A top-level `*n` line, n > 0, starts an array of n arguments. */
  lemma {:induction false} ArrayHeaderStep(input: bytes, p: nat, d: bytes, n: nat)
    requires n > 0 && LF !in d && ParseUint32(d) == Some(n)
    requires Occurs(input, p, [STAR] + d + CRLF)
    ensures StepAt(input, p, Zero) == Continue([], p + |d| + 3, State(true, n, STAR, [], 0))
  {
    StepLine(input, p, Zero, [STAR] + d);
    ArrayHeader(d);
  }

  /** The `*n` line of an array of n > 0 arguments takes one iteration. */
  lemma {:induction false} ArrayHeaderRun(input: bytes, p: nat, n: nat)
    requires 0 < n <= MaxUint32
    requires Occurs(input, p, [STAR] + Itoa(n) + CRLF)
    ensures Run(Loop(input), p, Zero, 1) == Some(Progress([], p + |Itoa(n)| + 3, State(true, n, STAR, [], 0)))
  {
    ItoaNoLF(n);
    ParseUint32Itoa(n);
    ArrayHeaderStep(input, p, Itoa(n), n);
    IterateOnce(input, p, Zero, Continue([], p + |Itoa(n)| + 3, State(true, n, STAR, [], 0)));
  }

  /** The encoding of a bulk string or of an array argument: its `$n` line,
      then the chunk and CRLF. */
  lemma {:induction false} ChunkLayout(input: bytes, p: nat, a: bytes)
    requires Occurs(input, p, BulkSegment(Some(a)))
    ensures Occurs(input, p, [DOLLAR] + Itoa(|a|) + CRLF)
    ensures Occurs(input, p + |Itoa(|a|)| + 3, a + CRLF)
    ensures p + |Itoa(|a|)| + 3 + |a| + 2 == p + |BulkSegment(Some(a))|
  {
    var h := [DOLLAR] + Itoa(|a|) + CRLF;
    assert BulkSegment(Some(a)) == h + (a + CRLF);
    OccursAppend(input, p, h, a + CRLF);
  }

  /** The two iterations on one argument of an array, its `$n` line and its
      chunk. */
  lemma {:induction false} ArgumentSteps(input: bytes, p: nat, q: nat, st: State, d: bytes, a: bytes)
    requires Valid(st) && st.readingMultiLine && st.bulkLen == 0 && GoodArg(a)
    requires LF !in d && ParseInt64(d) == Some(|a|)
    requires Occurs(input, p, [DOLLAR] + d + CRLF)
    requires q == p + |d| + 3
    requires Occurs(input, q, a + CRLF)
    ensures StepAt(input, p, st) == Continue([], q, st.(bulkLen := |a|))
    ensures StepAt(input, q, st.(bulkLen := |a|)) == AfterArgument(st, a, q + |a| + 2)
  {
    ChunkHeaderStep(input, p, st, d, |a|);
    ChunkStep(input, q, st, a);
  }

  /** The two iterations on one argument of an array: the argument is kept,
      or the frame sent when it is the last. */
  lemma {:induction false} ArgumentRun(input: bytes, p: nat, st: State, a: bytes, end: nat)
    requires Valid(st) && st.readingMultiLine && st.bulkLen == 0 && GoodArg(a)
    requires Occurs(input, p, BulkSegment(Some(a)))
    requires end == p + |BulkSegment(Some(a))|
    ensures Run(Loop(input), p, st, 2)
      == Some(Progress(AfterArgument(st, a, end).out, end, AfterArgument(st, a, end).st))
  {
    ChunkLayout(input, p, a);
    ItoaNoLF(|a|);
    ParseInt64Itoa(|a|);
    var d := Itoa(|a|);
    var q := p + |d| + 3;
    ArgumentSteps(input, p, q, st, d, a);
    var s := Continue([], q, st.(bulkLen := |a|));
    var t := AfterArgument(st, a, end);
    assert q + |a| + 2 == end;
    IterateTwice(input, p, st, s, t);
    assert s.out + t.out == t.out;
  }

  /** Where argument i of an array starts, its arguments beginning at `q`. */
  function ArgPos(q: nat, vs: seq<bytes>, i: nat): nat
    requires i <= |vs|
  {
    q + |Concat(Segments(Somes(vs))[..i])|
  }

  /** The state before argument i of an array of the arguments `vs`: the
      arguments before it are kept; after the last the state is reset. */
  function ArgState(vs: seq<bytes>, i: nat): State
    requires i <= |vs|
  {
    if i < |vs| then State(true, |vs|, STAR, vs[..i], 0) else Zero
  }

  /** What reading argument i sends: nothing, or the array after the last. */
  function ArgOut(vs: seq<bytes>, i: nat): seq<Payload>
    requires i < |vs|
  {
    if i + 1 < |vs| then [] else [Data(MultiBulk(Somes(vs)))]
  }

  /** Before argument i the decoder is inside the array with that argument
      still to come; after it, it is before argument i + 1. */
  lemma {:induction false} AfterArgumentShape(vs: seq<bytes>, i: nat, next: nat)
    requires i < |vs|
    ensures var st := ArgState(vs, i); Valid(st) && st.readingMultiLine && st.bulkLen == 0
    ensures AfterArgument(ArgState(vs, i), vs[i], next) == Continue(ArgOut(vs, i), next, ArgState(vs, i + 1))
  {
    assert vs[..i] + [vs[i]] == vs[..i + 1];
    if i + 1 == |vs| {
      assert vs[..i + 1] == vs;
    }
  }

  /** Argument i of an array laid out from `q` sits where ArgPos says, and
      the next one right after it. */
  lemma {:induction false} ArgumentBytes(input: bytes, q: nat, vs: seq<bytes>, i: nat)
    requires i < |vs|
    requires Occurs(input, q, Concat(Segments(Somes(vs))))
    ensures Occurs(input, ArgPos(q, vs, i), BulkSegment(Some(vs[i])))
    ensures ArgPos(q, vs, i + 1) == ArgPos(q, vs, i) + |BulkSegment(Some(vs[i]))|
  {
    var ss := Segments(Somes(vs));
    OccursPiece(input, q, ss, i);
    assert ArgPos(q, vs, i) == q + |Concat(ss[..i])| && ArgPos(q, vs, i + 1) == q + |Concat(ss[..i + 1])|;
    assert ss[i] == BulkSegment(Some(vs[i]));
  }

  /** Argument i of an array whose arguments are laid out from `q`. */
  lemma {:induction false} ArgumentAt(input: bytes, q: nat, vs: seq<bytes>, i: nat)
    requires i < |vs| && forall j :: 0 <= j < |vs| ==> GoodArg(vs[j])
    requires Occurs(input, q, Concat(Segments(Somes(vs))))
    ensures Run(Loop(input), ArgPos(q, vs, i), ArgState(vs, i), 2)
      == Some(Progress(ArgOut(vs, i), ArgPos(q, vs, i + 1), ArgState(vs, i + 1)))
  {
    ArgumentBytes(input, q, vs, i);
    AfterArgumentShape(vs, i, ArgPos(q, vs, i + 1));
    ArgumentRun(input, ArgPos(q, vs, i), ArgState(vs, i), vs[i], ArgPos(q, vs, i + 1));
  }

  /** The positions, states, iteration counts and payloads of the runs on
      the arguments of an array laid out from `q`. */
  function ArgPositions(q: nat, vs: seq<bytes>): (r: seq<nat>)
    ensures |r| == |vs| + 1
  {
    seq(|vs| + 1, i requires 0 <= i <= |vs| => ArgPos(q, vs, i))
  }

  function ArgStates(vs: seq<bytes>): (r: seq<State>)
    ensures |r| == |vs| + 1
  {
    seq(|vs| + 1, i requires 0 <= i <= |vs| => ArgState(vs, i))
  }

  function Twos(n: nat): (r: seq<nat>)
    ensures |r| == n
  {
    seq(n, _ => 2)
  }

  function ArgOuts(vs: seq<bytes>): (r: seq<seq<Payload>>)
    ensures |r| == |vs|
  {
    seq(|vs|, i requires 0 <= i < |vs| => ArgOut(vs, i))
  }

  /** Entry i of the argument runs. */
  lemma {:induction false} ArgPoint(q: nat, vs: seq<bytes>, i: nat)
    requires i < |vs|
    ensures ArgPositions(q, vs)[i] == ArgPos(q, vs, i) && ArgPositions(q, vs)[i + 1] == ArgPos(q, vs, i + 1)
    ensures ArgStates(vs)[i] == ArgState(vs, i) && ArgStates(vs)[i + 1] == ArgState(vs, i + 1)
    ensures Twos(|vs|)[i] == 2 && ArgOuts(vs)[i] == ArgOut(vs, i)
  {
  }

  /** The decoder reads every argument of an array laid out from `q`, two
      iterations each. */
  lemma {:induction false} ArgumentsAll(input: bytes, q: nat, vs: seq<bytes>)
    requires forall j :: 0 <= j < |vs| ==> GoodArg(vs[j])
    requires Occurs(input, q, Concat(Segments(Somes(vs))))
    ensures Chained(Loop(input), ArgPositions(q, vs), ArgStates(vs), Twos(|vs|), ArgOuts(vs))
  {
    var pos, sts, ks, outs := ArgPositions(q, vs), ArgStates(vs), Twos(|vs|), ArgOuts(vs);
    forall i | 0 <= i < |ks|
      ensures Run(Loop(input), pos[i], sts[i], ks[i]) == Some(Progress(outs[i], pos[i + 1], sts[i + 1]))
    {
      ArgumentAt(input, q, vs, i);
      ArgPoint(q, vs, i);
    }
  }

  /** Two iterations per argument. */
  lemma {:induction false} SumTwos(n: nat)
    ensures Sum(Twos(n)) == 2 * n
    decreases n
  {
    if n > 0 {
      assert Twos(n)[1..] == Twos(n - 1);
      SumTwos(n - 1);
    }
  }

  /** Runs that send nothing but the last send what the last sends. */
  lemma {:induction false} FlattenLast(outs: seq<seq<Payload>>)
    requires |outs| > 0 && forall i :: 0 <= i < |outs| - 1 ==> outs[i] == []
    ensures Flatten(outs) == outs[|outs| - 1]
    decreases |outs|
  {
    if |outs| > 1 {
      assert outs[0] == [];
      FlattenLast(outs[1..]);
      assert outs[1..][|outs| - 2] == outs[|outs| - 1];
    }
  }

  /** The two ends of the argument runs, and what they add up to. */
  lemma {:induction false} ArgChainEnds(q: nat, vs: seq<bytes>)
    requires |vs| > 0
    ensures ArgPositions(q, vs)[0] == q && ArgPositions(q, vs)[|vs|] == q + |Concat(Segments(Somes(vs)))|
    ensures ArgStates(vs)[0] == State(true, |vs|, STAR, [], 0) && ArgStates(vs)[|vs|] == Zero
    ensures Sum(Twos(|vs|)[0..]) == 2 * |vs|
    ensures Flatten(ArgOuts(vs)[0..]) == [Data(MultiBulk(Somes(vs)))]
  {
    assert Segments(Somes(vs))[..0] == [];
    assert Segments(Somes(vs))[..|vs|] == Segments(Somes(vs));
    assert vs[..0] == [];
    assert Twos(|vs|)[0..] == Twos(|vs|);
    SumTwos(|vs|);
    var outs := ArgOuts(vs);
    assert outs[0..] == outs;
    assert forall i :: 0 <= i < |outs| - 1 ==> outs[i] == ArgOut(vs, i) == [];
    FlattenLast(outs);
    assert outs[|vs| - 1] == ArgOut(vs, |vs| - 1);
  }

  /** The arguments of an array laid out from `q` are read back as the array. */
  lemma {:induction false} ArgumentsRun(input: bytes, q: nat, args: seq<Option<bytes>>)
    requires |args| > 0 && forall j :: 0 <= j < |args| ==> args[j].Some? && GoodArg(args[j].value)
    requires Occurs(input, q, Concat(Segments(args)))
    ensures Run(Loop(input), q, State(true, |args|, STAR, [], 0), 2 * |args|)
      == Some(Progress([Data(MultiBulk(args))], q + |Concat(Segments(args))|, Zero))
  {
    var vs := Values(args);
    ArgumentsAll(input, q, vs);
    ArgChainEnds(q, vs);
    ChainWhole(Loop(input), ArgPositions(q, vs), ArgStates(vs), Twos(|vs|), ArgOuts(vs),
      q, State(true, |vs|, STAR, [], 0), 2 * |vs|, [Data(MultiBulk(Somes(vs)))], q + |Concat(Segments(Somes(vs)))|, Zero);
  }

  /** The values of arguments that are all present. */
  function Values(args: seq<Option<bytes>>): (vs: seq<bytes>)
    requires forall i :: 0 <= i < |args| ==> args[i].Some?
    ensures |vs| == |args| && Somes(vs) == args
    ensures forall i :: 0 <= i < |args| ==> vs[i] == args[i].value
  {
    var vs := seq(|args|, i requires 0 <= i < |args| => args[i].value);
    assert Somes(vs) == args;
    vs
  }

  /** The encoding of an array: its `*n` line, then the arguments. */
  lemma {:induction false} ArrayLayout(input: bytes, p: nat, args: seq<Option<bytes>>)
    requires Occurs(input, p, Encode(MultiBulk(args)))
    ensures Occurs(input, p, [STAR] + Itoa(|args|) + CRLF)
    ensures Occurs(input, p + |Itoa(|args|)| + 3, Concat(Segments(args)))
    ensures p + |Itoa(|args|)| + 3 + |Concat(Segments(args))| == p + |Encode(MultiBulk(args))|
  {
    var h := [STAR] + Itoa(|args|) + CRLF;
    assert Encode(MultiBulk(args)) == h + Concat(Segments(args));
    OccursAppend(input, p, h, Concat(Segments(args)));
  }

  /** A status or error line is read back as the same reply. */
  lemma {:induction false} StatusFrame(input: bytes, p: nat, c: byte, s: bytes)
    requires c == PLUS || c == MINUS
    requires LF !in s
    requires Occurs(input, p, [c] + s + CRLF)
    ensures StepAt(input, p, Zero)
      == Continue([Data(if c == PLUS then Status(s) else StandardErr(s))], p + |s| + 3, Zero)
  {
    StepLine(input, p, Zero, [c] + s);
    SingleLine(c, s);
  }

  /** `$-1` and `*0` are read back as the null bulk string and the empty array. */
  lemma {:induction false} FixedFrame(input: bytes, p: nat, r: Reply)
    requires r.NullBulk? || r.EmptyMultiBulk?
    requires Occurs(input, p, Encode(r))
    ensures StepAt(input, p, Zero) == Continue([Data(r)], p + |Encode(r)|, Zero)
  {
    if r.NullBulk? {
      var d := [MINUS, ZERO + 1];
      assert Encode(r) == [DOLLAR] + d + CRLF;
      OneDigit(ZERO + 1);
      StepLine(input, p, Zero, [DOLLAR] + d);
      BulkHeaderLine(d);
    } else {
      var d := [ZERO];
      assert Encode(r) == [STAR] + d + CRLF;
      OneDigit(ZERO);
      StepLine(input, p, Zero, [STAR] + d);
      ArrayHeader(d);
    }
  }

  /** A status or error line, as a run of one. */
  lemma {:induction false} StatusRun(input: bytes, p: nat, c: byte, s: bytes)
    requires c == PLUS || c == MINUS
    requires LF !in s
    requires Occurs(input, p, [c] + s + CRLF)
    ensures Run(Loop(input), p, Zero, 1)
      == Some(Progress([Data(if c == PLUS then Status(s) else StandardErr(s))], p + |s| + 3, Zero))
  {
    StatusFrame(input, p, c, s);
    StepRun(input, p, Zero, [Data(if c == PLUS then Status(s) else StandardErr(s))], p + |s| + 3, Zero);
  }

  /** An integer line, as a run of one. */
  lemma {:induction false} IntRun(input: bytes, p: nat, n: int64)
    requires Occurs(input, p, Encode(Int(n)))
    ensures Run(Loop(input), p, Zero, 1) == Some(Progress([Data(Int(n))], p + |Encode(Int(n))|, Zero))
  {
    FormatIntNoLF(n);
    ParseInt64FormatInt(n);
    IntLineRun(input, p, FormatInt(n), n);
  }

  /** The same for any digits that parse as the integer. */
  lemma {:induction false} IntLineRun(input: bytes, p: nat, d: bytes, n: int64)
    requires LF !in d && ParseInt64(d) == Some(n)
    requires Occurs(input, p, [COLON] + d + CRLF)
    ensures Run(Loop(input), p, Zero, 1) == Some(Progress([Data(Int(n))], p + |d| + 3, Zero))
  {
    var body := [COLON] + d;
    assert Dispatch(Zero, body + CRLF) == Next([Data(Int(n))], Zero) by {
      SingleLine(COLON, d);
    }
    LineRun(input, p, Zero, body, [Data(Int(n))], Zero);
  }

  /** `$-1` or `*0`, as a run of one. */
  lemma {:induction false} FixedRun(input: bytes, p: nat, r: Reply)
    requires r.NullBulk? || r.EmptyMultiBulk?
    requires Occurs(input, p, Encode(r))
    ensures Run(Loop(input), p, Zero, 1) == Some(Progress([Data(r)], p + |Encode(r)|, Zero))
  {
    var e := p + |Encode(r)|;
    assert StepAt(input, p, Zero) == Continue([Data(r)], e, Zero) by {
      FixedFrame(input, p, r);
    }
    StepRun(input, p, Zero, [Data(r)], e, Zero);
  }

  /** A reply that takes one line is read back in one iteration. */
  lemma {:induction false} OneLineRun(input: bytes, p: nat, r: Reply)
    requires Decodable(r) && Lines(r) == 1
    requires Occurs(input, p, Encode(r))
    ensures Run(Loop(input), p, Zero, 1) == Some(Progress([Data(r)], p + |Encode(r)|, Zero))
  {
    match r
    case Status(s) => StatusRun(input, p, PLUS, s);
    case StandardErr(s) => StatusRun(input, p, MINUS, s);
    case Int(n) => IntRun(input, p, n);
    case NullBulk => FixedRun(input, p, r);
    case EmptyMultiBulk => FixedRun(input, p, r);
  }

  /** A bulk string is read back in two iterations. */
  lemma {:induction false} BulkFrame(input: bytes, p: nat, a: bytes)
    requires GoodArg(a)
    requires Occurs(input, p, Encode(Bulk(a)))
    ensures Run(Loop(input), p, Zero, 2) == Some(Progress([Data(Bulk(a))], p + |Encode(Bulk(a))|, Zero))
  {
    assert Encode(Bulk(a)) == BulkSegment(Some(a));
    ChunkLayout(input, p, a);
    BulkRun(input, p, a);
  }

  /** The `$n` line, then the chunk laid out after it. */
  lemma {:induction false} BulkRun(input: bytes, p: nat, a: bytes)
    requires GoodArg(a)
    requires Occurs(input, p, [DOLLAR] + Itoa(|a|) + CRLF)
    requires Occurs(input, p + |Itoa(|a|)| + 3, a + CRLF)
    ensures Run(Loop(input), p, Zero, 2) == Some(Progress([Data(Bulk(a))], p + |Itoa(|a|)| + 3 + |a| + 2, Zero))
  {
    var q := p + |Itoa(|a|)| + 3;
    var st := State(true, 1, DOLLAR, [], |a|);
    BulkHeaderRun(input, p, a);
    BulkChunkRun(input, q, a);
    RunThen(Loop(input), p, Zero, 1, [], q, st, 1, [Data(Bulk(a))], q + |a| + 2, Zero);
    assert [] + [Data(Bulk(a))] == [Data(Bulk(a))];
  }

  /** The `$n` line of a bulk string takes one iteration. */
  lemma {:induction false} BulkHeaderRun(input: bytes, p: nat, a: bytes)
    requires GoodArg(a)
    requires Occurs(input, p, [DOLLAR] + Itoa(|a|) + CRLF)
    ensures Run(Loop(input), p, Zero, 1) == Some(Progress([], p + |Itoa(|a|)| + 3, State(true, 1, DOLLAR, [], |a|)))
  {
    ItoaNoLF(|a|);
    ParseInt64Itoa(|a|);
    BulkLengthRun(input, p, Itoa(|a|), |a|);
  }

  /** A top-level `$n` line, n > 0, as a run of one. */
  lemma {:induction false} BulkLengthRun(input: bytes, p: nat, d: bytes, len: int64)
    requires len > 0 && LF !in d && ParseInt64(d) == Some(len)
    requires Occurs(input, p, [DOLLAR] + d + CRLF)
    ensures Run(Loop(input), p, Zero, 1) == Some(Progress([], p + |d| + 3, State(true, 1, DOLLAR, [], len)))
  {
    BulkHeaderStep(input, p, d, len);
    StepRun(input, p, Zero, [], p + |d| + 3, State(true, 1, DOLLAR, [], len));
  }

  /** The chunk of a bulk string takes one iteration, which sends it. */
  lemma {:induction false} BulkChunkRun(input: bytes, q: nat, a: bytes)
    requires GoodArg(a)
    requires Occurs(input, q, a + CRLF)
    ensures Run(Loop(input), q, State(true, 1, DOLLAR, [], |a|), 1) == Some(Progress([Data(Bulk(a))], q + |a| + 2, Zero))
  {
    var st := State(true, 1, DOLLAR, [], 0);
    assert st.(bulkLen := |a|) == State(true, 1, DOLLAR, [], |a|);
    ChunkStep(input, q, st, a);
    assert st.(args := st.args + [a]) == State(true, 1, DOLLAR, [a], 0);
    StepRun(input, q, State(true, 1, DOLLAR, [], |a|), [Data(Bulk(a))], q + |a| + 2, Zero);
  }

  /** An array of present arguments is read back in one iteration for the
      header and two per argument. */
  lemma {:induction false} MultiBulkFrame(input: bytes, p: nat, args: seq<Option<bytes>>)
    requires Decodable(MultiBulk(args))
    requires Occurs(input, p, Encode(MultiBulk(args)))
    ensures Run(Loop(input), p, Zero, 1 + 2 * |args|)
      == Some(Progress([Data(MultiBulk(args))], p + |Encode(MultiBulk(args))|, Zero))
  {
    ArrayLayout(input, p, args);
    ArrayRun(input, p, args);
  }

  /** The `*n` line, then the n arguments laid out after it. */
  lemma {:induction false} ArrayRun(input: bytes, p: nat, args: seq<Option<bytes>>)
    requires 0 < |args| <= MaxUint32 && forall j :: 0 <= j < |args| ==> args[j].Some? && GoodArg(args[j].value)
    requires Occurs(input, p, [STAR] + Itoa(|args|) + CRLF)
    requires Occurs(input, p + |Itoa(|args|)| + 3, Concat(Segments(args)))
    ensures Run(Loop(input), p, Zero, 1 + 2 * |args|)
      == Some(Progress([Data(MultiBulk(args))], p + |Itoa(|args|)| + 3 + |Concat(Segments(args))|, Zero))
  {
    var q := p + |Itoa(|args|)| + 3;
    ArrayHeaderRun(input, p, |args|);
    ArgumentsRun(input, q, args);
    ArrayCompose(input, p, |args|, q, q + |Concat(Segments(args))|, [Data(MultiBulk(args))]);
  }

  /** The header run of an array followed by the run over its arguments. */
  lemma {:induction false} ArrayCompose(input: bytes, p: nat, n: nat, q: nat, e: nat, last: seq<Payload>)
    requires Run(Loop(input), p, Zero, 1) == Some(Progress([], q, State(true, n, STAR, [], 0)))
    requires Run(Loop(input), q, State(true, n, STAR, [], 0), 2 * n) == Some(Progress(last, e, Zero))
    ensures Run(Loop(input), p, Zero, 1 + 2 * n) == Some(Progress(last, e, Zero))
  {
    RunThen(Loop(input), p, Zero, 1, [], q, State(true, n, STAR, [], 0), 2 * n, last, e, Zero);
    assert [] + last == last;
  }


  /** A decodable reply encoded at `p` is decoded, line by line, as one
      payload holding that very reply, after which decoding goes on right
      after its last byte in the zero state. */
  lemma {:induction false} FrameRun(input: bytes, p: nat, r: Reply)
    requires Decodable(r)
    requires Occurs(input, p, Encode(r))
    ensures Run(Loop(input), p, Zero, Lines(r)) == Some(Progress([Data(r)], p + |Encode(r)|, Zero))
  {
    if r.Bulk? {
      BulkFrame(input, p, r.arg);
    } else if r.MultiBulk? {
      MultiBulkFrame(input, p, r.args);
    } else {
      OneLineRun(input, p, r);
    }
  }

  /** The same in terms of the whole stream: the reply is sent, then
      whatever follows its encoding. */
  lemma {:induction false} DecodeFrame(input: bytes, p: nat, r: Reply)
    requires Decodable(r)
    requires Occurs(input, p, Encode(r))
    ensures DecodeFrom(input, p, Zero) == Prepend([Data(r)], DecodeFrom(input, p + |Encode(r)|, Zero))
  {
    var next := p + |Encode(r)|;
    assert Run(Loop(input), p, Zero, Lines(r)) == Some(Progress([Data(r)], next, Zero)) by {
      FrameRun(input, p, r);
    }
    assert p <= next <= |input| && Valid(Zero);
    RunDecode(input, p, Zero, Lines(r));
  }

  /** Decoding the encoding of a decodable reply yields that reply, then the
      EOF error that closes the stream. */
  lemma {:induction false} ParseStreamEncode(r: Reply)
    requires Decodable(r)
    ensures ParseStream(Encode(r)) == Decoded([Data(r), Err(IoError(EOF))], Closed)
  {
    var e := Encode(r);
    OccursWhole(e);
    FrameRun(e, 0, r);
    RunToEnd(e, Lines(r));
  }

  /** Where frame i starts when the frames are sent back to back from `q`. */
  function FramePos(q: nat, rs: seq<Reply>, i: nat): nat
    requires i <= |rs|
  {
    q + |Concat(Encodings(rs)[..i])|
  }

  /** Frame i of frames laid out from `q`. */
  lemma {:induction false} FrameAt(input: bytes, q: nat, rs: seq<Reply>, i: nat)
    requires i < |rs| && forall j :: 0 <= j < |rs| ==> Decodable(rs[j])
    requires Occurs(input, q, Concat(Encodings(rs)))
    ensures Run(Loop(input), FramePos(q, rs, i), Zero, Lines(rs[i]))
      == Some(Progress([Data(rs[i])], FramePos(q, rs, i + 1), Zero))
  {
    FrameBytes(input, q, rs, i);
    FrameRun(input, FramePos(q, rs, i), rs[i]);
  }

  /** Frame i sits where FramePos says, and the next one right after it. */
  lemma {:induction false} FrameBytes(input: bytes, q: nat, rs: seq<Reply>, i: nat)
    requires i < |rs|
    requires Occurs(input, q, Concat(Encodings(rs)))
    ensures Occurs(input, FramePos(q, rs, i), Encode(rs[i]))
    ensures FramePos(q, rs, i + 1) == FramePos(q, rs, i) + |Encode(rs[i])|
  {
    var es := Encodings(rs);
    OccursPiece(input, q, es, i);
    assert es[i] == Encode(rs[i]);
  }

  /** The positions, states, iteration counts and payloads of the runs on
      frames laid out from `q`. */
  function FramePositions(q: nat, rs: seq<Reply>): (r: seq<nat>)
    ensures |r| == |rs| + 1
  {
    seq(|rs| + 1, i requires 0 <= i <= |rs| => FramePos(q, rs, i))
  }

  function Zeros(n: nat): (r: seq<State>)
    ensures |r| == n
  {
    seq(n, _ => Zero)
  }

  function LineCounts(rs: seq<Reply>): (r: seq<nat>)
    ensures |r| == |rs|
  {
    seq(|rs|, i requires 0 <= i < |rs| => Lines(rs[i]))
  }

  function FrameOuts(rs: seq<Reply>): (r: seq<seq<Payload>>)
    ensures |r| == |rs|
  {
    seq(|rs|, i requires 0 <= i < |rs| => [Data(rs[i])])
  }

  /** Entry i of the frame runs. */
  lemma {:induction false} FramePoint(q: nat, rs: seq<Reply>, i: nat)
    requires i < |rs|
    ensures FramePositions(q, rs)[i] == FramePos(q, rs, i) && FramePositions(q, rs)[i + 1] == FramePos(q, rs, i + 1)
    ensures Zeros(|rs| + 1)[i] == Zero && Zeros(|rs| + 1)[i + 1] == Zero
    ensures LineCounts(rs)[i] == Lines(rs[i]) && FrameOuts(rs)[i] == [Data(rs[i])]
  {
  }

  /** The decoder reads every frame laid out from `q`, in as many
      iterations as it has lines. */
  lemma {:induction false} FramesAll(input: bytes, q: nat, rs: seq<Reply>)
    requires forall j :: 0 <= j < |rs| ==> Decodable(rs[j])
    requires Occurs(input, q, Concat(Encodings(rs)))
    ensures Chained(Loop(input), FramePositions(q, rs), Zeros(|rs| + 1), LineCounts(rs), FrameOuts(rs))
  {
    var pos, sts, ks, outs := FramePositions(q, rs), Zeros(|rs| + 1), LineCounts(rs), FrameOuts(rs);
    forall i | 0 <= i < |ks|
      ensures Run(Loop(input), pos[i], sts[i], ks[i]) == Some(Progress(outs[i], pos[i + 1], sts[i + 1]))
    {
      FrameAt(input, q, rs, i);
      FramePoint(q, rs, i);
    }
  }

  /** The data payloads of a list of replies, in order. */
  function Datas(rs: seq<Reply>): (ps: seq<Payload>)
    ensures |ps| == |rs| && forall i :: 0 <= i < |rs| ==> ps[i] == Data(rs[i])
  {
    seq(|rs|, i requires 0 <= i < |rs| => Data(rs[i]))
  }

  /** One payload per frame. */
  lemma {:induction false} FlattenFrames(rs: seq<Reply>)
    ensures Flatten(FrameOuts(rs)) == Datas(rs)
    decreases |rs|
  {
    if rs != [] {
      assert FrameOuts(rs)[1..] == FrameOuts(rs[1..]);
      FlattenFrames(rs[1..]);
      assert Datas(rs) == [Data(rs[0])] + Datas(rs[1..]);
    }
  }

  /** The two ends of the frame runs, and what they send. */
  lemma {:induction false} FrameChainEnds(q: nat, rs: seq<Reply>)
    ensures FramePositions(q, rs)[0] == q && FramePositions(q, rs)[|rs|] == q + |Concat(Encodings(rs))|
    ensures Zeros(|rs| + 1)[0] == Zero && Zeros(|rs| + 1)[|rs|] == Zero
    ensures Flatten(FrameOuts(rs)[0..]) == Datas(rs)
  {
    assert Encodings(rs)[..0] == [];
    assert Encodings(rs)[..|rs|] == Encodings(rs);
    assert FrameOuts(rs)[0..] == FrameOuts(rs);
    FlattenFrames(rs);
  }

  /** Pipelined frames, sent back to back, decode to their replies in order
      and then the EOF error that closes the stream. */
  lemma {:induction false} ParseStreamFrames(rs: seq<Reply>)
    requires forall i :: 0 <= i < |rs| ==> Decodable(rs[i])
    ensures ParseStream(Concat(Encodings(rs))) == Decoded(Datas(rs) + [Err(IoError(EOF))], Closed)
  {
    var c := Concat(Encodings(rs));
    OccursWhole(c);
    FramesAll(c, 0, rs);
    ChainRun(Loop(c), FramePositions(0, rs), Zeros(|rs| + 1), LineCounts(rs), FrameOuts(rs), 0);
    FrameChainEnds(0, rs);
    RunToEnd(c, Sum(LineCounts(rs)[0..]));
  }

  // ----- ParseOne -----

  /** ParseOne of an encoded decodable reply returns that reply. */
  lemma {:induction false} ParseOneEncode(r: Reply)
    requires Decodable(r)
    ensures ParseOne(Encode(r)) == Returned(Data(r))
  {
    ParseStreamEncode(r);
  }

  /** ParseOne of no bytes returns the EOF error of the first read, not a
      "no reply" error. */
  lemma {:induction false} ParseOneEmpty()
    ensures ParseOne([]) == Returned(Err(IoError(EOF)))
  {
    AtEnd([]);
  }

  /** ParseOne never returns when the decoder panics before its first payload. */
  lemma {:induction false} ParseOneBlocks(rest: bytes)
    ensures ParseOne([LF] + rest) == Blocked
  {
    LoneLineFeed(rest);
  }
}
