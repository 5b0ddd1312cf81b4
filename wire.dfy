/** Concrete wire bytes: the literal encodings the reply package documents,
    and the requests a client sends, decoded end to end. */
module Wire {
  import opened Bytes
  import opened Strconv
  import opened Replies
  import opened Parser
  import opened RoundTrip

  /** MakeIntReply(1) and MakeStatusReply("OK") on the wire. */
  lemma {:induction false} SimpleLiterals()
    ensures Encode(Int(1)) == Ascii(":1\r\n")
    ensures Encode(Int(-42)) == Ascii(":-42\r\n")
    ensures Encode(Status(Ascii("OK"))) == Ascii("+OK\r\n")
    ensures Encode(StandardErr(Ascii("ERR x"))) == Ascii("-ERR x\r\n")
  {
    IntLiterals();
  }

  /** The two integers of SimpleLiterals. */
  lemma {:induction false} IntLiterals()
    ensures Encode(Int(1)) == Ascii(":1\r\n")
    ensures Encode(Int(-42)) == Ascii(":-42\r\n")
  {
    assert FormatInt(1) == Ascii("1");
    assert Itoa(42) == Itoa(4) + [(48 + 2) as byte];
    assert FormatInt(-42) == Ascii("-42");
  }

  /** The fixed replies of consts.go, byte for byte. */
  lemma {:induction false} FixedLiterals()
    ensures Encode(Pong) == Ascii("+PONG\r\n")
    ensures Encode(Ok) == Ascii("+OK\r\n")
    ensures Encode(Queued) == Ascii("+QUEUED\r\n")
    ensures Encode(NullBulk) == Ascii("$-1\r\n")
    ensures Encode(EmptyMultiBulk) == Ascii("*0\r\n")
    ensures Encode(NoReply) == []
  {
  }

  /** A bulk string holding CRLF, and the empty bulk string. */
  lemma {:induction false} BulkLiterals()
    ensures Encode(Bulk(Ascii("a\r\nb"))) == Ascii("$4\r\na\r\nb\r\n")
    ensures Encode(Bulk([])) == Ascii("$-1")
  {
    assert Itoa(4) == Ascii("4");
  }

  /** The three segments of an array with a nil and an empty argument. */
  lemma {:induction false} ArgumentLiterals()
    ensures BulkSegment(Some(Ascii("foo"))) == Ascii("$3\r\nfoo\r\n")
    ensures BulkSegment(None) == Ascii("$-1\r\n")
    ensures BulkSegment(Some([])) == Ascii("$0\r\n\r\n")
  {
    assert Itoa(3) == Ascii("3");
    assert Itoa(0) == Ascii("0");
  }

  /** Ascii text laid end to end is the bytes laid end to end. */
  lemma {:induction false} AsciiAppend(s: string, t: string)
    requires forall i :: 0 <= i < |s| ==> s[i] as int < 128
    requires forall i :: 0 <= i < |t| ==> t[i] as int < 128
    ensures Ascii(s + t) == Ascii(s) + Ascii(t)
  {
    assert forall i :: 0 <= i < |s + t| ==> Ascii(s + t)[i] == (Ascii(s) + Ascii(t))[i];
  }

  /** The wire form of an array: the `*n` line, then the segments. */
  lemma {:induction false} ArrayBytes(args: seq<Option<bytes>>)
    ensures Encode(MultiBulk(args)) == LengthLine(STAR, |args|) + Concat(Segments(args))
  {
  }

  /** The pieces of one, or of three, laid end to end. */
  lemma {:induction false} ConcatSmall(ss: seq<bytes>)
    requires |ss| == 1 || |ss| == 3
    ensures |ss| == 1 ==> Concat(ss) == ss[0]
    ensures |ss| == 3 ==> Concat(ss) == ss[0] + ss[1] + ss[2]
  {
    assert ss[..0] == [];
    if |ss| == 3 {
      assert ss[..2][..1] == ss[..1] && ss[..1][..0] == [];
      assert Concat(ss[..1]) == ss[0];
      assert Concat(ss[..2]) == ss[0] + ss[1];
    }
  }

  /** An array of three arguments is its `*3` line, then its segments. */
  lemma {:induction false} ArrayOfThree(a: Option<bytes>, b: Option<bytes>, c: Option<bytes>)
    ensures Encode(MultiBulk([a, b, c])) == LengthLine(STAR, 3) + BulkSegment(a) + BulkSegment(b) + BulkSegment(c)
  {
    var args := [a, b, c];
    var ss := Segments(args);
    assert Concat(ss) == BulkSegment(a) + BulkSegment(b) + BulkSegment(c) by {
      assert ss[0] == BulkSegment(a) && ss[1] == BulkSegment(b) && ss[2] == BulkSegment(c);
      ConcatSmall(ss);
    }
    assert |args| == 3;
    ArrayBytes(args);
  }

  /** A nil argument is `$-1`, an empty one `$0` and an empty line. */
  lemma {:induction false} ArrayLiteral()
    ensures Encode(MultiBulk([Some(Ascii("foo")), None, Some([])]))
         == Ascii("*3\r\n") + Ascii("$3\r\nfoo\r\n") + Ascii("$-1\r\n") + Ascii("$0\r\n\r\n")
  {
    var foo := Ascii("foo");
    assert Encode(MultiBulk([Some(foo), None, Some([])]))
        == LengthLine(STAR, 3) + BulkSegment(Some(foo)) + BulkSegment(None) + BulkSegment(Some([])) by {
      ArrayOfThree(Some(foo), None, Some([]));
    }
    assert LengthLine(STAR, 3) == Ascii("*3\r\n");
    ArgumentLiterals();
  }

  /** The two lines of the request PING, written by the encoder. */
  lemma {:induction false} PingPieces()
    ensures Encode(MultiBulk([Some(Ascii("PING"))])) == Ascii("*1\r\n") + Ascii("$4\r\nPING\r\n")
  {
    assert Encode(MultiBulk([Some(Ascii("PING"))])) == LengthLine(STAR, 1) + BulkSegment(Some(Ascii("PING"))) by {
      ArrayBytes([Some(Ascii("PING"))]);
      ConcatSmall(Segments([Some(Ascii("PING"))]));
    }
    assert LengthLine(STAR, 1) == Ascii("*1\r\n");
    PingSegment();
  }

  /** The segment of the argument PING. */
  lemma {:induction false} PingSegment()
    ensures BulkSegment(Some(Ascii("PING"))) == Ascii("$4\r\nPING\r\n")
  {
    assert Itoa(4) == Ascii("4");
  }

  /** The bytes of the request PING. */
  lemma {:induction false} PingBytes()
    ensures Encode(MultiBulk([Some(Ascii("PING"))])) == Ascii("*1\r\n$4\r\nPING\r\n")
  {
    PingPieces();
    AsciiAppend("*1\r\n", "$4\r\nPING\r\n");
    assert "*1\r\n" + "$4\r\nPING\r\n" == "*1\r\n$4\r\nPING\r\n";
  }

  /** The request `*1\r\n$4\r\nPING\r\n`, as `b`, is one array of the
      argument PING, after which the stream ends with the EOF error. */
  lemma {:induction false} PingRequest(b: bytes)
    requires b == Ascii("*1\r\n$4\r\nPING\r\n")
    ensures ParseStream(b) == Decoded([Data(MultiBulk([Some(Ascii("PING"))])), Err(IoError(EOF))], Closed)
  {
    var r := MultiBulk([Some(Ascii("PING"))]);
    assert ParseStream(Encode(r)) == Decoded([Data(r), Err(IoError(EOF))], Closed) by {
      assert Decodable(r);
      ParseStreamEncode(r);
    }
    PingBytes();
  }

  /** SET k v sent as an array comes back as the same three arguments, in
      order. */
  lemma {:induction false} SetRoundTrip()
    ensures var r := MultiBulk([Some(Ascii("SET")), Some(Ascii("k")), Some(Ascii("v"))]);
      ParseStream(Encode(r)) == Decoded([Data(r), Err(IoError(EOF))], Closed)
  {
    var r := MultiBulk([Some(Ascii("SET")), Some(Ascii("k")), Some(Ascii("v"))]);
    assert Decodable(r);
    ParseStreamEncode(r);
  }
}
