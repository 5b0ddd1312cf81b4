/** Replies the encoder of redis/reply writes that the decoder of
    redis/parser/parser.go does not read back as themselves, and malformed
    lines the decoder reports and then reads past. */
module Quirks {
  import opened Bytes
  import opened Strconv
  import opened Replies
  import opened Parser
  import opened Runs
  import opened RoundTrip

  const ONE: byte := ZERO + 1

  /** Some iterations that end inside the input, in terms of the whole stream. */
  lemma {:induction false} GoesOn(input: bytes, p: nat, st: State, k: nat, out: seq<Payload>, e: nat, st': State)
    requires p <= |input| && Valid(st) && e <= |input| && Valid(st')
    requires Run(Loop(input), p, st, k) == Some(Progress(out, e, st'))
    ensures DecodeFrom(input, p, st) == Prepend(out, DecodeFrom(input, e, st'))
  {
    RunDecode(input, p, st, k);
  }

  /** Sending two batches is sending them one after the other. */
  lemma {:induction false} PrependTwice(x: seq<Payload>, y: seq<Payload>, d: Decoded)
    ensures Prepend(x, Prepend(y, d)) == Prepend(x + y, d)
  {
    assert x + (y + d.payloads) == (x + y) + d.payloads;
  }

  // ----- empty and nil bulk strings -----

  /** An empty line at top level is an inline command of one empty word. */
  lemma {:induction false} EmptyTopLine()
    ensures Dispatch(Zero, CRLF) == Next([Data(MultiBulk([Some([])]))], Zero)
  {
    assert Dispatch(Zero, CRLF) == TopLevel(Zero, CRLF) == Next([ParseSingleLineReply(CRLF)], Zero);
    EmptyReply();
  }

  /** The reply an empty line makes. */
  lemma {:induction false} EmptyReply()
    ensures ParseSingleLineReply(CRLF) == Data(MultiBulk([Some([])]))
  {
    assert TrimLineEnd(CRLF) == [];
    assert Split([], SPACE) == [[]];
    assert Somes([[]]) == [Some([])];
  }

  /** The iteration of parse0 on an empty line at top level. */
  lemma {:induction false} EmptyLine(input: bytes, p: nat)
    requires Occurs(input, p, CRLF)
    ensures Run(Loop(input), p, Zero, 1) == Some(Progress([Data(MultiBulk([Some([])]))], p + 2, Zero))
  {
    EmptyStep(input, p);
    StepRun(input, p, Zero, [Data(MultiBulk([Some([])]))], p + 2, Zero);
  }

  /** The same iteration, as the step parse0 takes. */
  lemma {:induction false} EmptyStep(input: bytes, p: nat)
    requires Occurs(input, p, CRLF)
    ensures p + 2 <= |input|
    ensures StepAt(input, p, Zero) == Continue([Data(MultiBulk([Some([])]))], p + 2, Zero)
  {
    var body: bytes := [];
    assert body + CRLF == CRLF;
    EmptyTopLine();
    StepLine(input, p, Zero, body);
  }

  /** An empty BulkReply is written as `$-1` with no CRLF: alone on the
      stream it is never a line, and the stream only ends with EOF. */
  lemma {:induction false} EmptyBulkIsLost()
    ensures ParseStream(Encode(Bulk([]))) == Decoded([Err(IoError(EOF))], Closed)
  {
    var e := Encode(Bulk([]));
    assert e == [DOLLAR, MINUS, ONE];
    FirstIndexAt(e, 0, LF, 3);
  }

  /** A top-level `$` line whose length is not -1 and not positive (0,
      below -1, or not an int64) is a protocol error. */
  lemma {:induction false} BadLengthLine(input: bytes, p: nat, d: bytes)
    requires LF !in d && ParseInt64(d) != Some(-1) && !(ParseInt64(d).Some? && ParseInt64(d).value > 0)
    requires Occurs(input, p, [DOLLAR] + d + CRLF)
    ensures p + |d| + 3 <= |input|
    ensures Run(Loop(input), p, Zero, 1) == Some(Progress([Err(ProtocolError([DOLLAR] + d + CRLF))], p + |d| + 3, Zero))
  {
    BulkHeaderLine(d);
    LineRun(input, p, Zero, [DOLLAR] + d, [Err(ProtocolError([DOLLAR] + d + CRLF))], Zero);
  }

  /** The bytes of an empty BulkReply followed by a status reply. */
  lemma {:induction false} MergedBytes(s: bytes)
    requires LF !in s
    ensures var d := [MINUS, ONE, PLUS] + s;
      Encode(Bulk([])) + Encode(Status(s)) == [DOLLAR] + d + CRLF && LF !in d && ParseInt64(d).None?
  {
    var d := [MINUS, ONE, PLUS] + s;
    assert LF !in d by {
      forall i | 0 <= i < |d| ensures d[i] != LF {
        if i >= 3 { assert d[i] == s[i - 3]; }
      }
    }
    assert d[1..][1] == PLUS && !IsDigit(PLUS);
  }

  /** Followed by a status reply, an empty BulkReply runs into its line:
      `$-1+s` is a length line that does not parse, so both replies are lost
      to one protocol error. */
  lemma {:induction false} EmptyBulkMerges(s: bytes)
    requires LF !in s
    ensures var e := Encode(Bulk([])) + Encode(Status(s));
      ParseStream(e) == Decoded([Err(ProtocolError(e)), Err(IoError(EOF))], Closed)
  {
    var e := Encode(Bulk([])) + Encode(Status(s));
    var d := [MINUS, ONE, PLUS] + s;
    MergedBytes(s);
    OccursWhole(e);
    BadLengthLine(e, 0, d);
    RunToEnd(e, 1);
  }

  /** The zero length `$0` is refused at top level, so the standard
      encoding of an empty bulk string `$0\r\n\r\n` reads as a protocol
      error followed by an inline command of one empty word. */
  lemma {:induction false} ZeroLengthBulk(input: bytes, p: nat)
    requires Occurs(input, p, BulkSegment(Some([])))
    ensures DecodeFrom(input, p, Zero)
      == Prepend([Err(ProtocolError([DOLLAR, ZERO, CR, LF])), Data(MultiBulk([Some([])]))], DecodeFrom(input, p + 6, Zero))
  {
    EmptyVersusNil();
    assert BulkSegment(Some([])) == [DOLLAR] + [ZERO] + CRLF + CRLF;
    OccursAppend(input, p, [DOLLAR] + [ZERO] + CRLF, CRLF);
    assert [DOLLAR] + [ZERO] + CRLF == [DOLLAR, ZERO, CR, LF];
    OneDigit(ZERO);
    BadLengthLine(input, p, [ZERO]);
    EmptyLine(input, p + 4);
    RunThen(Loop(input), p, Zero, 1, [Err(ProtocolError([DOLLAR, ZERO, CR, LF]))], p + 4, Zero,
      1, [Data(MultiBulk([Some([])]))], p + 6, Zero);
    assert [Err(ProtocolError([DOLLAR, ZERO, CR, LF]))] + [Data(MultiBulk([Some([])]))]
      == [Err(ProtocolError([DOLLAR, ZERO, CR, LF])), Data(MultiBulk([Some([])]))];
    GoesOn(input, p, Zero, 2, [Err(ProtocolError([DOLLAR, ZERO, CR, LF])), Data(MultiBulk([Some([])]))], p + 6, Zero);
  }

  // ----- the fixed status replies -----

  /** A reply written as the status line of `s` is read back as that status. */
  lemma {:induction false} ReadAsStatus(r: Reply, s: bytes)
    requires Encode(r) == Encode(Status(s)) && LF !in s
    ensures ParseStream(Encode(r)) == Decoded([Data(Status(s)), Err(IoError(EOF))], Closed)
  {
    assert Decodable(Status(s));
    ParseStreamEncode(Status(s));
  }

  /** PONG, OK and QUEUED are read back as plain status replies of those
      words: the decoder has no variant of its own for them. */
  lemma {:induction false} FixedRepliesReadAsStatus()
    ensures ParseStream(Encode(Pong)) == Decoded([Data(Status([80, 79, 78, 71])), Err(IoError(EOF))], Closed)   // "PONG"
    ensures ParseStream(Encode(Ok)) == Decoded([Data(Status([79, 75])), Err(IoError(EOF))], Closed)             // "OK"
    ensures ParseStream(Encode(Queued))
         == Decoded([Data(Status([81, 85, 69, 85, 69, 68])), Err(IoError(EOF))], Closed)                         // "QUEUED"
  {
    FixedReplies();
    ReadAsStatus(Pong, [80, 79, 78, 71]);
    ReadAsStatus(Ok, [79, 75]);
    ReadAsStatus(Queued, [81, 85, 69, 85, 69, 68]);
  }

  // ----- arrays of one argument -----

  /** The wire form of an array of one argument: `*1\r\n`, then the segment. */
  lemma {:induction false} SingletonBytes(arg: Option<bytes>)
    ensures Encode(MultiBulk([arg])) == [STAR, ONE] + CRLF + BulkSegment(arg)
  {
    assert Itoa(1) == [ONE];
    var ss := Segments([arg]);
    assert ss[..0] == [];
    assert Concat(ss) == Concat(ss[..0]) + ss[0];
  }

  /** The only state an array of one argument is read in. */
  const Single: State := State(true, 1, STAR, [], 0)

  /** The `*1` line. */
  lemma {:induction false} SingleHeader(input: bytes, p: nat)
    requires Occurs(input, p, [STAR, ONE] + CRLF)
    ensures Run(Loop(input), p, Zero, 1) == Some(Progress([], p + 4, Single))
  {
    OneDigit(ONE);
    assert [STAR, ONE] == [STAR] + [ONE];
    ArrayHeader([ONE]);
    LineRun(input, p, Zero, [STAR, ONE], [], Single);
  }

  /** In a frame, `$-1` and `$0` are the last argument when one is missing,
      and that argument is empty. */
  lemma {:induction false} NoLengthArgument(input: bytes, p: nat, d: bytes)
    requires d == [MINUS, ONE] || d == [ZERO]
    requires Occurs(input, p, [DOLLAR] + d + CRLF)
    ensures p + |d| + 3 <= |input|
    ensures Run(Loop(input), p, Single, 1) == Some(Progress([Data(MultiBulk([Some([])]))], p + |d| + 3, Zero))
  {
    OneDigit(ONE);
    OneDigit(ZERO);
    LengthInFrame(Single, d);
    var st2 := Single.(args := Single.args + [[]]);
    assert st2.args == [[]] && st2.Finished();
    assert Assemble(st2) == MultiBulk(Somes([[]]));
    assert Somes([[]]) == [Some([])];
    LineRun(input, p, Single, [DOLLAR] + d, [Data(MultiBulk([Some([])]))], Zero);
  }

  /** Where the lines of `*1\r\n$-1\r\n` are. */
  lemma {:induction false} NilArrayLayout(input: bytes, p: nat)
    requires Occurs(input, p, Encode(MultiBulk([None])))
    ensures |Encode(MultiBulk([None]))| == 9
    ensures Occurs(input, p, [STAR, ONE] + CRLF) && Occurs(input, p + 4, [DOLLAR] + [MINUS, ONE] + CRLF)
  {
    SingletonBytes(None);
    EmptyVersusNil();
    assert [DOLLAR] + [MINUS, ONE] + CRLF == [DOLLAR, MINUS, ONE, CR, LF] by {
      assert [DOLLAR] + [MINUS, ONE] == [DOLLAR, MINUS, ONE];
    }
    OccursAppend(input, p, [STAR, ONE] + CRLF, BulkSegment(None));
  }

  /** The two lines of `*1\r\n$-1\r\n`. */
  lemma {:induction false} NilArgumentRun(input: bytes, p: nat)
    requires Occurs(input, p, [STAR, ONE] + CRLF) && Occurs(input, p + 4, [DOLLAR] + [MINUS, ONE] + CRLF)
    ensures p + 9 <= |input|
    ensures Run(Loop(input), p, Zero, 2) == Some(Progress([Data(MultiBulk([Some([])]))], p + 9, Zero))
  {
    SingleHeader(input, p);
    NoLengthArgument(input, p + 4, [MINUS, ONE]);
    RunThen(Loop(input), p, Zero, 1, [], p + 4, Single, 1, [Data(MultiBulk([Some([])]))], p + 9, Zero);
    assert [] + [Data(MultiBulk([Some([])]))] == [Data(MultiBulk([Some([])]))];
  }

  /** A nil argument comes back as an empty one: the decoder cannot tell
      `$-1` from `$0` inside an array. */
  lemma {:induction false} NilArgumentBecomesEmpty(input: bytes, p: nat)
    requires Occurs(input, p, Encode(MultiBulk([None])))
    ensures DecodeFrom(input, p, Zero)
      == Prepend([Data(MultiBulk([Some([])]))], DecodeFrom(input, p + |Encode(MultiBulk([None]))|, Zero))
  {
    NilArrayLayout(input, p);
    NilArgumentRun(input, p);
    GoesOn(input, p, Zero, 2, [Data(MultiBulk([Some([])]))], p + 9, Zero);
  }

  /** Where the lines of `*1\r\n$0\r\n\r\n` are. */
  lemma {:induction false} EmptyArrayLayout(input: bytes, p: nat)
    requires Occurs(input, p, Encode(MultiBulk([Some([])])))
    ensures |Encode(MultiBulk([Some([])]))| == 10
    ensures Occurs(input, p, [STAR, ONE] + CRLF) && Occurs(input, p + 4, [DOLLAR] + [ZERO] + CRLF)
    ensures Occurs(input, p + 8, CRLF)
  {
    SingletonBytes(Some([]));
    EmptyVersusNil();
    assert BulkSegment(Some([])) == [DOLLAR] + [ZERO] + CRLF + CRLF;
    OccursAppend(input, p, [STAR, ONE] + CRLF, BulkSegment(Some([])));
    OccursAppend(input, p + 4, [DOLLAR] + [ZERO] + CRLF, CRLF);
  }

  /** The three lines of `*1\r\n$0\r\n\r\n`. */
  lemma {:induction false} EmptyArgumentRun(input: bytes, p: nat)
    requires Occurs(input, p, [STAR, ONE] + CRLF) && Occurs(input, p + 4, [DOLLAR] + [ZERO] + CRLF)
    requires Occurs(input, p + 8, CRLF)
    ensures p + 10 <= |input|
    ensures Run(Loop(input), p, Zero, 3)
      == Some(Progress([Data(MultiBulk([Some([])])), Data(MultiBulk([Some([])]))], p + 10, Zero))
  {
    var x := Data(MultiBulk([Some([])]));
    SingleHeader(input, p);
    NoLengthArgument(input, p + 4, [ZERO]);
    EmptyLine(input, p + 8);
    RunThen(Loop(input), p, Zero, 1, [], p + 4, Single, 1, [x], p + 8, Zero);
    assert [] + [x] == [x];
    RunThen(Loop(input), p, Zero, 2, [x], p + 8, Zero, 1, [x], p + 10, Zero);
    assert [x] + [x] == [x, x];
  }

  /** An empty argument arrives twice: `$0` completes the array, and the
      empty line meant as its data is read at top level as an inline
      command of one empty word. */
  lemma {:induction false} EmptyArgumentIsReadTwice(input: bytes, p: nat)
    requires Occurs(input, p, Encode(MultiBulk([Some([])])))
    ensures DecodeFrom(input, p, Zero)
      == Prepend([Data(MultiBulk([Some([])])), Data(MultiBulk([Some([])]))],
                 DecodeFrom(input, p + |Encode(MultiBulk([Some([])]))|, Zero))
  {
    EmptyArrayLayout(input, p);
    EmptyArgumentRun(input, p);
    GoesOn(input, p, Zero, 3, [Data(MultiBulk([Some([])])), Data(MultiBulk([Some([])]))], p + 10, Zero);
  }

  // ----- an empty argument before others -----

  /** The header of an array of at least two arguments whose first is empty,
      and that argument's `$0` line. */
  lemma {:induction false} LeadingEmptyRun(input: bytes, p: nat, n: nat)
    requires 1 < n <= MaxUint32
    requires Occurs(input, p, [STAR] + Itoa(n) + CRLF)
    requires Occurs(input, p + |Itoa(n)| + 3, [DOLLAR] + [ZERO] + CRLF)
    ensures p + |Itoa(n)| + 7 <= |input|
    ensures Run(Loop(input), p, Zero, 2) == Some(Progress([], p + |Itoa(n)| + 7, State(true, n, STAR, [[]], 0)))
  {
    var q := p + |Itoa(n)| + 3;
    var st := State(true, n, STAR, [], 0);
    ArrayHeaderRun(input, p, n);
    OneDigit(ZERO);
    LengthInFrame(st, [ZERO]);
    assert st.(args := st.args + [[]]) == State(true, n, STAR, [[]], 0);
    LineRun(input, q, st, [DOLLAR] + [ZERO], [], State(true, n, STAR, [[]], 0));
    RunThen(Loop(input), p, Zero, 1, [], q, st, 1, [], q + 4, State(true, n, STAR, [[]], 0));
    var none: seq<Payload> := [];
    assert none + none == none;
  }

  /** The empty line after it, read as a body line. */
  lemma {:induction false} EmptyBodyLine(input: bytes, p: nat, n: nat)
    requires 1 < n && Occurs(input, p, CRLF)
    ensures DecodeFrom(input, p, State(true, n, STAR, [[]], 0)) == Decoded([], Fault)
  {
    var body: bytes := [];
    assert body + CRLF == CRLF;
    StepLine(input, p, State(true, n, STAR, [[]], 0), body);
    EmptyLineInFrame(State(true, n, STAR, [[]], 0));
  }

  /** Where the first lines of an array whose first argument is empty are. */
  lemma {:induction false} LeadingEmptyLayout(input: bytes, p: nat, more: seq<Option<bytes>>, n: nat)
    requires n == 1 + |more|
    requires Occurs(input, p, Encode(MultiBulk([Some([])] + more)))
    ensures Occurs(input, p, [STAR] + Itoa(n) + CRLF)
    ensures Occurs(input, p + |Itoa(n)| + 3, [DOLLAR] + [ZERO] + CRLF)
    ensures Occurs(input, p + |Itoa(n)| + 7, CRLF)
  {
    var args := [Some([])] + more;
    ArrayLayout(input, p, args);
    FirstSegment(input, p + |Itoa(|args|)| + 3, Segments(args));
  }

  /** Where the segments of an array whose first argument is empty start. */
  lemma {:induction false} FirstSegment(input: bytes, q: nat, ss: seq<bytes>)
    requires |ss| > 0 && ss[0] == BulkSegment(Some([]))
    requires Occurs(input, q, Concat(ss))
    ensures Occurs(input, q, [DOLLAR] + [ZERO] + CRLF) && Occurs(input, q + 4, CRLF)
  {
    OccursPiece(input, q, ss, 0);
    assert ss[..0] == [];
    EmptyVersusNil();
    assert BulkSegment(Some([])) == [DOLLAR] + [ZERO] + CRLF + CRLF;
    OccursAppend(input, q, [DOLLAR] + [ZERO] + CRLF, CRLF);
  }

  /** An empty argument that is not the last one makes the decoder panic:
      its empty data line is read as a body line, and decoding stops there
      without closing the stream. */
  lemma {:induction false} EmptyArgumentFaults(input: bytes, p: nat, more: seq<Option<bytes>>)
    requires 0 < |more| < MaxUint32
    requires Occurs(input, p, Encode(MultiBulk([Some([])] + more)))
    ensures DecodeFrom(input, p, Zero) == Decoded([], Fault)
  {
    var n := 1 + |more|;
    LeadingEmptyLayout(input, p, more, n);
    LeadingEmptyFaults(input, p, n);
  }

  /** The same, given where the header, the empty argument and the empty
      line sit. */
  lemma {:induction false} LeadingEmptyFaults(input: bytes, p: nat, n: nat)
    requires 1 < n <= MaxUint32
    requires Occurs(input, p, [STAR] + Itoa(n) + CRLF)
    requires Occurs(input, p + |Itoa(n)| + 3, [DOLLAR] + [ZERO] + CRLF)
    requires Occurs(input, p + |Itoa(n)| + 7, CRLF)
    ensures DecodeFrom(input, p, Zero) == Decoded([], Fault)
  {
    var e := p + |Itoa(n)| + 7;
    var st := State(true, n, STAR, [[]], 0);
    LeadingEmptyRun(input, p, n);
    EmptyBodyLine(input, e, n);
    GoesOn(input, p, Zero, 2, [], e, st);
  }

  /** So ParseOne never returns on such an array. */
  lemma {:induction false} EmptyArgumentBlocks(more: seq<Option<bytes>>)
    requires 0 < |more| < MaxUint32
    ensures ParseOne(Encode(MultiBulk([Some([])] + more))) == Blocked
  {
    OccursWhole(Encode(MultiBulk([Some([])] + more)));
    EmptyArgumentFaults(Encode(MultiBulk([Some([])] + more)), 0, more);
  }

  // ----- chunks that start with `$` -----

  /** The chunk of a bulk string that starts with `$` and is not a number
      after it: the chunk is read, then parsed as a length line. */
  lemma {:induction false} DollarChunk(input: bytes, q: nat, a: bytes)
    requires a != [] && a[0] == DOLLAR && |a| + 2 <= MaxAlloc && ParseInt64(a[1..]).None?
    requires Occurs(input, q, a + CRLF)
    ensures q + |a| + 2 <= |input|
    ensures Run(Loop(input), q, State(true, 1, DOLLAR, [], |a|), 1)
      == Some(Progress([Err(ProtocolError(a + CRLF))], q + |a| + 2, Zero))
  {
    var st := State(true, 1, DOLLAR, [], 0);
    StepChunk(input, q, st.(bulkLen := |a|), a);
    assert st.(bulkLen := |a|).(bulkLen := 0) == st;
    assert a == [DOLLAR] + a[1..];
    LengthInFrame(st, a[1..]);
    StepRun(input, q, st.(bulkLen := |a|), [Err(ProtocolError(a + CRLF))], q + |a| + 2, Zero);
  }

  /** The two lines of such a bulk string. */
  lemma {:induction false} DollarBulkRun(input: bytes, p: nat, a: bytes)
    requires a != [] && a[0] == DOLLAR && |a| + 2 <= MaxAlloc && ParseInt64(a[1..]).None?
    requires Occurs(input, p, [DOLLAR] + Itoa(|a|) + CRLF)
    requires Occurs(input, p + |Itoa(|a|)| + 3, a + CRLF)
    ensures p + |Itoa(|a|)| + 3 + |a| + 2 <= |input|
    ensures Run(Loop(input), p, Zero, 2)
      == Some(Progress([Err(ProtocolError(a + CRLF))], p + |Itoa(|a|)| + 3 + |a| + 2, Zero))
  {
    var q := p + |Itoa(|a|)| + 3;
    ItoaNoLF(|a|);
    ParseInt64Itoa(|a|);
    BulkLengthRun(input, p, Itoa(|a|), |a|);
    DollarChunk(input, q, a);
    RunThen(Loop(input), p, Zero, 1, [], q, State(true, 1, DOLLAR, [], |a|),
      1, [Err(ProtocolError(a + CRLF))], q + |a| + 2, Zero);
    assert [] + [Err(ProtocolError(a + CRLF))] == [Err(ProtocolError(a + CRLF))];
  }

  /** A bulk string whose data starts with `$` is not read as data: its
      chunk is parsed as another length line, and when the rest is not a
      number the whole chunk is a protocol error. */
  lemma {:induction false} DollarChunkIsHeader(input: bytes, p: nat, a: bytes)
    requires a != [] && a[0] == DOLLAR && |a| + 2 <= MaxAlloc && ParseInt64(a[1..]).None?
    requires Occurs(input, p, Encode(Bulk(a)))
    ensures |Encode(Bulk(a))| == |Itoa(|a|)| + |a| + 5
    ensures DecodeFrom(input, p, Zero)
      == Prepend([Err(ProtocolError(a + CRLF))], DecodeFrom(input, p + |Itoa(|a|)| + |a| + 5, Zero))
  {
    assert Occurs(input, p, [DOLLAR] + Itoa(|a|) + CRLF) && Occurs(input, p + |Itoa(|a|)| + 3, a + CRLF)
        && |Encode(Bulk(a))| == |Itoa(|a|)| + |a| + 5 by {
      assert Encode(Bulk(a)) == BulkSegment(Some(a));
      ChunkLayout(input, p, a);
    }
    DollarChunkDecode(input, p, a);
  }

  /** The same, given where the header and the chunk sit. */
  lemma {:induction false} DollarChunkDecode(input: bytes, p: nat, a: bytes)
    requires a != [] && a[0] == DOLLAR && |a| + 2 <= MaxAlloc && ParseInt64(a[1..]).None?
    requires Occurs(input, p, [DOLLAR] + Itoa(|a|) + CRLF)
    requires Occurs(input, p + |Itoa(|a|)| + 3, a + CRLF)
    ensures p + |Itoa(|a|)| + |a| + 5 <= |input|
    ensures DecodeFrom(input, p, Zero)
      == Prepend([Err(ProtocolError(a + CRLF))], DecodeFrom(input, p + |Itoa(|a|)| + |a| + 5, Zero))
  {
    var e := p + |Itoa(|a|)| + |a| + 5;
    DollarBulkRun(input, p, a);
    GoesOn(input, p, Zero, 2, [Err(ProtocolError(a + CRLF))], e, Zero);
  }

  // ----- other top-level lines -----

  /** A `*-1` null array is not understood: the count must be unsigned. */
  lemma {:induction false} NullArrayIsRejected(input: bytes, p: nat)
    requires Occurs(input, p, [STAR, MINUS, ONE, CR, LF])
    ensures DecodeFrom(input, p, Zero)
      == Prepend([Err(ProtocolError([STAR, MINUS, ONE, CR, LF]))], DecodeFrom(input, p + 5, Zero))
  {
    var d := [MINUS, ONE];
    assert [STAR, MINUS, ONE, CR, LF] == [STAR] + d + CRLF;
    ArrayHeader(d);
    LineRun(input, p, Zero, [STAR] + d, [Err(ProtocolError([STAR, MINUS, ONE, CR, LF]))], Zero);
    GoesOn(input, p, Zero, 1, [Err(ProtocolError([STAR, MINUS, ONE, CR, LF]))], p + 5, Zero);
  }

  /** A top-level `$` length of 0, below -1 or not an int64 is a protocol
      error, and decoding goes on with the next line. */
  lemma {:induction false} BadLength(input: bytes, p: nat, d: bytes)
    requires LF !in d && ParseInt64(d) != Some(-1) && !(ParseInt64(d).Some? && ParseInt64(d).value > 0)
    requires Occurs(input, p, [DOLLAR] + d + CRLF)
    ensures DecodeFrom(input, p, Zero)
      == Prepend([Err(ProtocolError([DOLLAR] + d + CRLF))], DecodeFrom(input, p + |d| + 3, Zero))
  {
    BadLengthLine(input, p, d);
    GoesOn(input, p, Zero, 1, [Err(ProtocolError([DOLLAR] + d + CRLF))], p + |d| + 3, Zero);
  }

  /** An integer line whose number does not parse. */
  lemma {:induction false} BadIntegerLine(input: bytes, p: nat, s: bytes)
    requires LF !in s && ParseInt64(s).None?
    requires Occurs(input, p, [COLON] + s + CRLF)
    ensures Run(Loop(input), p, Zero, 1) == Some(Progress([Err(ProtocolError([COLON] + s + CRLF))], p + |s| + 3, Zero))
  {
    SingleLine(COLON, s);
    LineRun(input, p, Zero, [COLON] + s, [Err(ProtocolError([COLON] + s + CRLF))], Zero);
  }

  /** An integer line whose number does not parse is a protocol error, and
      decoding goes on with the next line. */
  lemma {:induction false} BadInteger(input: bytes, p: nat, s: bytes)
    requires LF !in s && ParseInt64(s).None?
    requires Occurs(input, p, [COLON] + s + CRLF)
    ensures DecodeFrom(input, p, Zero)
      == Prepend([Err(ProtocolError([COLON] + s + CRLF))], DecodeFrom(input, p + |s| + 3, Zero))
  {
    BadIntegerLine(input, p, s);
    GoesOn(input, p, Zero, 1, [Err(ProtocolError([COLON] + s + CRLF))], p + |s| + 3, Zero);
  }

  /** What a line that starts with none of the type bytes does. */
  lemma {:induction false} InlineDispatch(s: bytes)
    requires s != [] && s[0] !in {STAR, DOLLAR, PLUS, MINUS, COLON}
    ensures Dispatch(Zero, s + CRLF) == Next([Data(MultiBulk(Somes(Split(s, SPACE))))], Zero)
  {
    assert s == [s[0]] + s[1..];
    SingleLine(s[0], s[1..]);
  }

  /** A line that starts with none of the type bytes. */
  lemma {:induction false} InlineLine(input: bytes, p: nat, s: bytes)
    requires s != [] && s[0] !in {STAR, DOLLAR, PLUS, MINUS, COLON} && LF !in s
    requires Occurs(input, p, s + CRLF)
    ensures Run(Loop(input), p, Zero, 1) == Some(Progress([Data(MultiBulk(Somes(Split(s, SPACE))))], p + |s| + 2, Zero))
  {
    InlineDispatch(s);
    LineRun(input, p, Zero, s, [Data(MultiBulk(Somes(Split(s, SPACE))))], Zero);
  }

  /** A line that starts with none of the type bytes is an inline command:
      its words, split at single spaces, become the arguments of an array. */
  lemma {:induction false} InlineCommand(input: bytes, p: nat, s: bytes)
    requires s != [] && s[0] !in {STAR, DOLLAR, PLUS, MINUS, COLON} && LF !in s
    requires Occurs(input, p, s + CRLF)
    ensures DecodeFrom(input, p, Zero)
      == Prepend([Data(MultiBulk(Somes(Split(s, SPACE))))], DecodeFrom(input, p + |s| + 2, Zero))
  {
    InlineLine(input, p, s);
    GoesOn(input, p, Zero, 1, [Data(MultiBulk(Somes(Split(s, SPACE))))], p + |s| + 2, Zero);
  }

  /** The words of `PING`. */
  lemma {:induction false} PingWords()
    ensures Split(Ascii("PING"), SPACE) == [Ascii("PING")]
  {
    var s := Ascii("PING");
    assert Split(s[3..], SPACE) == [s[3..]];
    assert Split(s[2..], SPACE) == [s[2..]];
    assert Split(s[1..], SPACE) == [s[1..]];
  }

  /** `PING` typed at a terminal is the command PING with no arguments. */
  lemma {:induction false} Ping(input: bytes, p: nat)
    requires Occurs(input, p, Ascii("PING\r\n"))
    ensures DecodeFrom(input, p, Zero)
      == Prepend([Data(MultiBulk([Some(Ascii("PING"))]))], DecodeFrom(input, p + 6, Zero))
  {
    var s := Ascii("PING");
    assert Occurs(input, p, s + CRLF) by {
      assert Ascii("PING\r\n") == s + CRLF;
    }
    assert Run(Loop(input), p, Zero, 1) == Some(Progress([Data(MultiBulk([Some(s)]))], p + 6, Zero)) by {
      PingWords();
      assert Somes([s]) == [Some(s)];
      InlineLine(input, p, s);
    }
    GoesOn(input, p, Zero, 1, [Data(MultiBulk([Some(s)]))], p + 6, Zero);
  }
}
