/** Octets, the Option wrapper and the few byte-slice routines of Go's
    standard library that the protocol code relies on (bytes.IndexByte as
    used by bufio.Reader.ReadBytes, strings.TrimSuffix, strings.Split). */
module Bytes {

  /** One Go `byte`. */
  newtype byte = b: int | 0 <= b < 256

  /** A Go `[]byte` or `string` (Go strings are byte strings). */
  type bytes = seq<byte>

  /** A value that may be absent; `None` stands for a Go nil slice. */
  datatype Option<+T> = None | Some(value: T)

  const CR: byte := 13
  const LF: byte := 10
  const SPACE: byte := 32
  const DOLLAR: byte := 36   // '$'
  const STAR: byte := 42     // '*'
  const PLUS: byte := 43     // '+'
  const MINUS: byte := 45    // '-'
  const ZERO: byte := 48     // '0'
  const COLON: byte := 58    // ':'
  const CRLF: bytes := [CR, LF]

  /** The bytes of an ASCII string literal. */
  function Ascii(s: string): (r: bytes)
    requires forall i :: 0 <= i < |s| ==> s[i] as int < 128
    ensures |r| == |s|
    ensures forall i :: 0 <= i < |s| ==> r[i] as int == s[i] as int
  {
    seq(|s|, i requires 0 <= i < |s| => s[i] as int as byte)
  }

  /** The first index at or after `from` that holds `b`, as the delimiter
      search of bufio.Reader.ReadBytes finds it. */
  function FirstIndex(s: bytes, from: nat, b: byte): (r: Option<nat>)
    requires from <= |s|
    ensures r.Some? ==> from <= r.value < |s| && s[r.value] == b
    decreases |s| - from
  {
    if from == |s| then None
    else if s[from] == b then Some(from)
    else FirstIndex(s, from + 1, b)
  }

  /** FirstIndex finds exactly the first `b` at or after `from`: `k` when
      the bytes before it are not `b` and `k` is a `b` or the end. */
  lemma {:induction false} FirstIndexAt(s: bytes, from: nat, b: byte, k: nat)
    requires from <= k <= |s|
    requires forall j :: from <= j < k ==> s[j] != b
    requires k == |s| || s[k] == b
    ensures FirstIndex(s, from, b) == if k == |s| then None else Some(k)
    decreases k - from
  {
    if from < k {
      FirstIndexAt(s, from + 1, b, k);
    }
  }

  /** strings.TrimSuffix: `s` without `suffix` if it ends with it, else `s`. */
  function TrimSuffix(s: bytes, suffix: bytes): (r: bytes)
    ensures r == s || r + suffix == s
    ensures |suffix| <= |s| && s[|s| - |suffix|..] == suffix ==> r + suffix == s
    ensures !(|suffix| <= |s| && s[|s| - |suffix|..] == suffix) ==> r == s
  {
    if |suffix| <= |s| && s[|s| - |suffix|..] == suffix then s[..|s| - |suffix|] else s
  }

  /** The pieces laid end to end, in order. */
  function Concat(ss: seq<bytes>): bytes
    decreases |ss|
  {
    if ss == [] then [] else Concat(ss[..|ss| - 1]) + ss[|ss| - 1]
  }

  /** Extending a prefix of the pieces by one piece extends its concatenation. */
  lemma {:induction false} ConcatSnoc(ss: seq<bytes>, i: nat)
    requires i < |ss|
    ensures Concat(ss[..i + 1]) == Concat(ss[..i]) + ss[i]
  {
    assert ss[..i + 1][..i] == ss[..i];
  }

  /** The prefix of all the pieces is all the pieces. */
  lemma {:induction false} ConcatAll(ss: seq<bytes>)
    ensures Concat(ss[..|ss|]) == Concat(ss)
  {
    assert ss[..|ss|] == ss;
  }

  /** Writing the next piece after a prefix of the pieces. */
  lemma {:induction false} ConcatStep(prefix: bytes, ss: seq<bytes>, i: nat)
    requires i < |ss|
    ensures prefix + Concat(ss[..i]) + ss[i] == prefix + Concat(ss[..i + 1])
  {
    ConcatSnoc(ss, i);
  }

  /** Where `x + y` occurs, `x` occurs and `y` right after it. */
  lemma {:induction false} SplitAt(s: bytes, p: nat, x: bytes, y: bytes)
    requires p + |x + y| <= |s| && s[p..p + |x + y|] == x + y
    ensures s[p..p + |x|] == x && s[p + |x|..p + |x| + |y|] == y
  {
    assert s[p..p + |x|] == s[p..p + |x + y|][..|x|];
    assert s[p + |x|..p + |x| + |y|] == s[p..p + |x + y|][|x|..];
  }

  /** An occurrence inside an occurrence. */
  lemma {:induction false} Within(s: bytes, p: nat, t: bytes, q: nat, u: bytes)
    requires p + |t| <= |s| && s[p..p + |t|] == t
    requires q + |u| <= |t| && t[q..q + |u|] == u
    ensures s[p + q..p + q + |u|] == u
  {
    forall i | 0 <= i < |u|
      ensures s[p + q + i] == u[i]
    {
      assert s[p + q + i] == s[p..p + |t|][q + i];
    }
  }

  /** Concatenation of pieces distributes over joining the lists of pieces. */
  lemma {:induction false} ConcatAppend(a: seq<bytes>, b: seq<bytes>)
    ensures Concat(a + b) == Concat(a) + Concat(b)
    decreases |b|
  {
    if b == [] {
      assert a + b == a;
    } else {
      var b' := b[..|b| - 1];
      var ab := a + b;
      assert ab[..|ab| - 1] == a + b';
      ConcatAppend(a, b');
    }
  }

  /** Piece `i` sits in the concatenation right after the pieces before it. */
  lemma {:induction false} ConcatPiece(ss: seq<bytes>, i: nat)
    requires i < |ss|
    ensures |Concat(ss[..i])| + |ss[i]| <= |Concat(ss)|
    ensures Concat(ss)[|Concat(ss[..i])|..|Concat(ss[..i])| + |ss[i]|] == ss[i]
    ensures Concat(ss[..i + 1]) == Concat(ss[..i]) + ss[i]
  {
    assert ss == ss[..i + 1] + ss[i + 1..];
    ConcatAppend(ss[..i + 1], ss[i + 1..]);
    ConcatSnoc(ss, i);
  }

  /** `e` occurs in `s` from index `p` on: it fits, and the bytes agree.
      (Occurs, Matches and Agrees are kept apart so that an occurrence is
      unfolded one byte at a time.) */
  predicate Occurs(s: bytes, p: nat, e: bytes)
    decreases |e|, 2
  {
    p + |e| <= |s| && Matches(s, p, e)
  }

  /** Only an extra step of unfolding between Occurs and Agrees, so that the
      solver does not expand a long occurrence all at once. */
  predicate Matches(s: bytes, p: nat, e: bytes)
    decreases |e|, 1
  {
    Agrees(s, p, e)
  }

  /** The bytes of `s` from `p` on are those of `e`, one by one. */
  predicate Agrees(s: bytes, p: nat, e: bytes)
    decreases |e|, 0
  {
    e == [] || (p < |s| && s[p] == e[0] && Occurs(s, p + 1, e[1..]))
  }

  /** An occurrence is a slice equal to the bytes that occur. */
  lemma {:induction false} OccursSlice(s: bytes, p: nat, e: bytes)
    ensures Occurs(s, p, e) <==> p + |e| <= |s| && s[p..p + |e|] == e
    decreases |e|
  {
    assert Occurs(s, p, e) == (p + |e| <= |s| && Agrees(s, p, e));
    if e != [] {
      OccursSlice(s, p + 1, e[1..]);
      if p + |e| <= |s| && s[p..p + |e|] == e {
        assert s[p + 1..p + |e|] == s[p..p + |e|][1..];
      }
      if Occurs(s, p, e) {
        assert s[p..p + |e|] == [s[p]] + s[p + 1..p + |e|];
      }
    }
  }

  /** `x + y` occurs exactly where `x` occurs with `y` right after it. */
  lemma {:induction false} OccursAppend(s: bytes, p: nat, x: bytes, y: bytes)
    ensures Occurs(s, p, x + y) <==> Occurs(s, p, x) && Occurs(s, p + |x|, y)
    decreases |x|
  {
    assert Occurs(s, p, x + y) == (p + |x + y| <= |s| && Agrees(s, p, x + y));
    assert Occurs(s, p, x) == (p + |x| <= |s| && Agrees(s, p, x));
    if x == [] {
      assert x + y == y;
    } else {
      assert (x + y)[0] == x[0] && (x + y)[1..] == x[1..] + y;
      OccursAppend(s, p + 1, x[1..], y);
    }
  }

  /** Every sequence occurs in itself at index 0. */
  lemma {:induction false} OccursWhole(s: bytes)
    ensures Occurs(s, 0, s)
  {
    OccursSlice(s, 0, s);
    assert s[0..|s|] == s;
  }

  /** Where the concatenation of pieces occurs, piece `i` occurs right after
      the pieces before it. */
  lemma {:induction false} OccursPiece(s: bytes, q: nat, ss: seq<bytes>, i: nat)
    requires i < |ss| && Occurs(s, q, Concat(ss))
    ensures Occurs(s, q + |Concat(ss[..i])|, ss[i])
    ensures Concat(ss[..i + 1]) == Concat(ss[..i]) + ss[i]
  {
    assert ss == ss[..i + 1] + ss[i + 1..];
    ConcatAppend(ss[..i + 1], ss[i + 1..]);
    ConcatSnoc(ss, i);
    OccursAppend(s, q, Concat(ss[..i + 1]), Concat(ss[i + 1..]));
    OccursAppend(s, q, Concat(ss[..i]), ss[i]);
  }

  /** The pieces joined back together with one separator between each two. */
  function Join(pieces: seq<bytes>, sep: byte): bytes
    requires |pieces| >= 1
    decreases |pieces|
  {
    if |pieces| == 1 then pieces[0] else pieces[0] + [sep] + Join(pieces[1..], sep)
  }

  /** strings.Split with a one-byte separator: the maximal separator-free
      runs of `s`, in order; an empty `s` gives one empty piece. */
  function Split(s: bytes, sep: byte): (pieces: seq<bytes>)
    ensures |pieces| >= 1
    ensures forall k :: 0 <= k < |pieces| ==> sep !in pieces[k]
    ensures Join(pieces, sep) == s
    decreases |s|
  {
    if s == [] then [[]]
    else
      var rest := Split(s[1..], sep);
      if s[0] == sep then [[]] + rest
      else
        var first := [s[0]] + rest[0];
        assert Join(rest, sep) == rest[0] + (if |rest| == 1 then [] else [sep] + Join(rest[1..], sep));
        [first] + rest[1..]
  }
}
