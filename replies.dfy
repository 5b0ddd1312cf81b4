/** The reply values of the RESP2 protocol and their exact wire encoding
    (redis/reply/reply.go and redis/reply/consts.go). Each Go reply type is
    one variant; the Make* constructors of the Go package are the datatype's
    constructors. */
module Replies {
  import opened Bytes
  import opened Strconv

  datatype Reply =
    | Status(status: bytes)                 // StatusReply
    | StandardErr(status: bytes)            // StandardErrReply
    | Int(code: int64)                      // IntReply
    | Bulk(arg: bytes)                      // BulkReply
    | MultiBulk(args: seq<Option<bytes>>)   // MultiBulkReply; None is a nil argument
    | MultiRaw(replies: seq<Reply>)         // MultiRawReply
    | Pong                                  // PongReply
    | Ok                                    // OkReply
    | NullBulk                              // NullBulkReply
    | EmptyMultiBulk                        // EmptyMultiBulkReply
    | NoReply                               // NoReply
    | Queued                                // QueuedReply
  {
    /** StandardErrReply.Error: the message the reply was made with, which is
        what its encoding carries between '-' and CRLF. */
    function Error(): (msg: bytes)
      requires StandardErr?
      ensures Encode(this) == [MINUS] + msg + CRLF
    {
      status
    }
  }

  /** What an empty BulkReply encodes to: the null form without its CRLF. */
  const NullBulkReplyBytes: bytes := [DOLLAR, MINUS, ZERO + 1]   // "$-1"

  /** A length line: the type byte, the decimal count, CRLF (`$5\r\n`, `*2\r\n`). */
  function LengthLine(kind: byte, n: nat): bytes {
    [kind] + Itoa(n) + CRLF
  }

  /** The encoding of one MultiBulkReply argument. */
  function BulkSegment(arg: Option<bytes>): bytes {
    if arg.None? then NullBulkReplyBytes + CRLF else LengthLine(DOLLAR, |arg.value|) + arg.value + CRLF
  }

  /** One segment per MultiBulkReply argument, in order. */
  function Segments(args: seq<Option<bytes>>): (ss: seq<bytes>)
    ensures |ss| == |args|
    ensures forall i :: 0 <= i < |args| ==> ss[i] == BulkSegment(args[i])
  {
    seq(|args|, i requires 0 <= i < |args| => BulkSegment(args[i]))
  }

  /** redis.Reply.ToBytes: the wire bytes of a reply. */
  function Encode(r: Reply): (b: bytes)
    ensures b == [] <==> r.NoReply?
    ensures b != [] ==> (b[0] == MINUS <==> r.StandardErr?)
    decreases r, 1
  {
    match r
    case Status(s) => [PLUS] + s + CRLF
    case StandardErr(s) => [MINUS] + s + CRLF
    case Int(n) => [COLON] + FormatInt(n) + CRLF
    case Bulk(a) => if |a| == 0 then NullBulkReplyBytes else LengthLine(DOLLAR, |a|) + a + CRLF
    case MultiBulk(args) => LengthLine(STAR, |args|) + Concat(Segments(args))
    case MultiRaw(rs) => LengthLine(STAR, |rs|) + Concat(Encodings(rs))
    case Pong => [PLUS, 80, 79, 78, 71, CR, LF]       // "+PONG\r\n"
    case Ok => [PLUS, 79, 75, CR, LF]               // "+OK\r\n"
    case NullBulk => [DOLLAR, MINUS, ZERO + 1, CR, LF]    // "$-1\r\n"
    case EmptyMultiBulk => [STAR, ZERO, CR, LF]                 // "*0\r\n"
    case NoReply => []
    case Queued => [PLUS, 81, 85, 69, 85, 69, 68, CR, LF]  // "+QUEUED\r\n"
  }

  /** The encodings of the nested replies of a MultiRawReply, in order. */
  function Encodings(rs: seq<Reply>): (es: seq<bytes>)
    ensures |es| == |rs|
    ensures forall i :: 0 <= i < |rs| ==> es[i] == Encode(rs[i])
    decreases rs, 0
  {
    seq(|rs|, i requires 0 <= i < |rs| => Encode(rs[i]))
  }

  /** One iteration of the loop in MultiBulkReply.ToBytes: `$-1` for a nil
      argument, otherwise the length line and the bytes. */
  method WriteArg(arg: Option<bytes>) returns (segment: bytes)
    ensures arg.None? ==> segment == [DOLLAR, MINUS, ZERO + 1, CR, LF]
    ensures arg.Some? ==> |segment| >= |arg.value| + 5
    ensures arg.Some? ==>
      var v := arg.value;
      var k := segment[1..|segment| - |v| - 4];
      segment == [DOLLAR] + k + CRLF + v + CRLF
      && |k| >= 1 && AllDigits(k) && DigitsValue(k) == |v| && (|k| > 1 ==> k[0] != ZERO)
    ensures segment == BulkSegment(arg)
  {
    if arg.None? {
      segment := NullBulkReplyBytes + CRLF;
    } else {
      var v := arg.value;
      var k := Itoa(|v|);
      segment := [DOLLAR] + k + CRLF + v + CRLF;
      ItoaDigits(|v|);
      assert segment[1..|segment| - |v| - 4] == k;
    }
  }

  /** MultiBulkReply.ToBytes: writes the header, then one segment per
      argument, into a buffer. */
  method MultiBulkToBytes(args: seq<Option<bytes>>) returns (buf: bytes)
    ensures buf == Encode(MultiBulk(args))
  {
    var header := LengthLine(STAR, |args|);
    ghost var segments := Segments(args);
    buf := header;
    var i := 0;
    while i < |args|
      invariant 0 <= i <= |args|
      invariant buf == header + Concat(segments[..i])
    {
      var segment := WriteArg(args[i]);
      ConcatStep(header, segments, i);
      buf := buf + segment;
      i := i + 1;
    }
    ConcatAll(segments);
  }

  /** Reply.ToBytes, dispatched on the variant. */
  method ToBytes(r: Reply) returns (buf: bytes)
    ensures buf == Encode(r)
    decreases r, 1
  {
    match r {
      case MultiBulk(args) =>
        buf := MultiBulkToBytes(args);
      case MultiRaw(rs) =>
        buf := MultiRawToBytes(rs);
      case _ =>
        buf := Encode(r);
    }
  }

  /** MultiRawReply.ToBytes: writes the header, then the encoding of each
      nested reply, into a buffer. */
  method MultiRawToBytes(rs: seq<Reply>) returns (buf: bytes)
    ensures buf == Encode(MultiRaw(rs))
    decreases rs, 0
  {
    var header := LengthLine(STAR, |rs|);
    ghost var parts := Encodings(rs);
    buf := header;
    var i := 0;
    while i < |rs|
      invariant 0 <= i <= |rs|
      invariant buf == header + Concat(parts[..i])
    {
      assert rs[i] in rs;
      var part := ToBytes(rs[i]);
      ConcatStep(header, parts, i);
      buf := buf + part;
      i := i + 1;
    }
    ConcatAll(parts);
  }

  /** IsErrorReply: the first encoded byte is '-', which holds exactly for the
      error variant. The Go code indexes byte 0, so NoReply is excluded. */
  function IsErrorReply(r: Reply): (b: bool)
    requires !r.NoReply?
    ensures b <==> r.StandardErr?
  {
    EncodeNonEmpty(r);
    Encode(r)[0] == MINUS
  }

  /** Every reply but NoReply puts at least one byte on the wire. */
  lemma {:induction false} EncodeNonEmpty(r: Reply)
    ensures Encode(r) == [] <==> r.NoReply?
  {
  }

  /** The fixed replies are the general forms written out: Pong, Ok and Queued
      are status replies, NullBulk is the nil argument segment, and
      EmptyMultiBulk is the header of an array of no elements. */
  lemma {:induction false} FixedReplies()
    ensures Encode(Pong) == Encode(Status([80, 79, 78, 71]))
    ensures Encode(Ok) == Encode(Status([79, 75]))
    ensures Encode(Queued) == Encode(Status([81, 85, 69, 85, 69, 68]))
    ensures Encode(NullBulk) == BulkSegment(None)
    ensures Encode(EmptyMultiBulk) == Encode(MultiBulk([])) == Encode(MultiRaw([]))
  {
    assert Itoa(0) == [ZERO];
    assert Segments([]) == [];
    assert Encodings([]) == [];
  }

  /** An empty BulkReply is written as the null form minus its CRLF, and an
      argument of a MultiBulkReply that is nil (`$-1`) differs from one that
      is empty (`$0` and an empty line). */
  lemma {:induction false} EmptyVersusNil()
    ensures Encode(Bulk([])) + CRLF == Encode(NullBulk)
    ensures BulkSegment(None) == [DOLLAR, MINUS, ZERO + 1, CR, LF]
    ensures BulkSegment(Some([])) == [DOLLAR, ZERO, CR, LF, CR, LF]
  {
    assert Itoa(0) == [ZERO];
  }

  /** A MultiRawReply of non-empty bulk replies is byte-for-byte the
      MultiBulkReply of the same arguments. */
  lemma {:induction false} MultiRawOfBulks(args: seq<bytes>)
    requires forall i :: 0 <= i < |args| ==> args[i] != []
    ensures Encode(MultiRaw(seq(|args|, i requires 0 <= i < |args| => Bulk(args[i]))))
         == Encode(MultiBulk(seq(|args|, i requires 0 <= i < |args| => Some(args[i]))))
  {
    var rs := seq(|args|, i requires 0 <= i < |args| => Bulk(args[i]));
    var os := seq(|args|, i requires 0 <= i < |args| => Some(args[i]));
    assert Encodings(rs) == Segments(os);
  }
}
