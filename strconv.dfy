/** The decimal conversions of Go's strconv package that the protocol code
    uses: Itoa and FormatInt for encoding, ParseUint(s, 10, 32) and
    ParseInt(s, 10, 64) for decoding. */
module Strconv {
  import opened Bytes

  const MaxUint32: int := 0xFFFF_FFFF
  const MaxInt64: int := 0x7FFF_FFFF_FFFF_FFFF

  /** Go's `int64`. */
  type int64 = x: int | -0x8000_0000_0000_0000 <= x <= 0x7FFF_FFFF_FFFF_FFFF

  predicate IsDigit(c: byte) {
    ZERO <= c <= ZERO + 9
  }

  predicate AllDigits(s: bytes) {
    forall i :: 0 <= i < |s| ==> IsDigit(s[i])
  }

  /** The value of a run of decimal digits, most significant first. */
  function DigitsValue(s: bytes): nat
    requires AllDigits(s)
    decreases |s|
  {
    if s == [] then 0 else DigitsValue(s[..|s| - 1]) * 10 + (s[|s| - 1] as int - 48)
  }

  /** strconv.Itoa for a non-negative value: the shortest decimal form. */
  function Itoa(n: nat): (r: bytes)
    ensures |r| >= 1 && AllDigits(r)
    ensures n > 0 ==> r[0] != ZERO
    decreases n
  {
    if n < 10 then [(48 + n) as byte] else Itoa(n / 10) + [(48 + n % 10) as byte]
  }

  /** Itoa writes digits only, their value is `n`, and no leading zero. */
  lemma {:induction false} ItoaDigits(n: nat)
    ensures AllDigits(Itoa(n)) && DigitsValue(Itoa(n)) == n
    ensures n > 0 ==> Itoa(n)[0] != ZERO
    decreases n
  {
    if n >= 10 {
      ItoaDigits(n / 10);
      var r := Itoa(n);
      assert r[..|r| - 1] == Itoa(n / 10);
    }
  }

  /** strconv.FormatInt(n, 10): a minus sign for negative values, then the digits. */
  function FormatInt(n: int64): (r: bytes)
    ensures |r| >= 1
    ensures r[0] == MINUS <==> n < 0
  {
    if n < 0 then [MINUS] + Itoa(-(n as int)) else Itoa(n)
  }

  /** FormatInt starts with '-' exactly for negative values, and the digits
      that follow carry the magnitude. */
  lemma {:induction false} FormatIntDigits(n: int64)
    ensures FormatInt(n)[0] == MINUS <==> n < 0
    ensures n >= 0 ==> AllDigits(FormatInt(n)) && DigitsValue(FormatInt(n)) == n
    ensures n < 0 ==> AllDigits(FormatInt(n)[1..]) && DigitsValue(FormatInt(n)[1..]) == -(n as int)
  {
    var r := FormatInt(n);
    if n < 0 {
      var d := Itoa(-(n as int));
      ItoaDigits(-(n as int));
      assert r == [MINUS] + d;
      assert r[1..] == d;
    } else {
      ItoaDigits(n);
      assert r == Itoa(n);
      assert IsDigit(r[0]);
    }
  }

  /** strconv.ParseUint(s, 10, 32): a non-empty run of digits (no sign) whose
      value fits in 32 bits; anything else is a syntax or range error. */
  function ParseUint32(s: bytes): (r: Option<nat>)
    ensures r.Some? ==> r.value <= MaxUint32 && |s| > 0 && AllDigits(s)
    ensures |s| > 0 && !IsDigit(s[0]) ==> r.None?
  {
    if |s| > 0 && AllDigits(s) && DigitsValue(s) <= MaxUint32 then Some(DigitsValue(s)) else None
  }

  /** strconv.ParseInt(s, 10, 64): an optional '+' or '-', then a non-empty
      run of digits, whose signed value must lie in the int64 range. */
  function ParseInt64(s: bytes): (r: Option<int64>)
    ensures r.Some? ==> |s| > 0 && (r.value < 0 ==> s[0] == MINUS)
    ensures r.Some? && (s[0] == PLUS || s[0] == MINUS) ==> |s| > 1 && AllDigits(s[1..])
    ensures r.Some? && s[0] != PLUS && s[0] != MINUS ==> AllDigits(s)
  {
    if s == [] then None
    else
      var neg := s[0] == MINUS;
      var digits := if s[0] == PLUS || s[0] == MINUS then s[1..] else s;
      if digits == [] || !AllDigits(digits) then None
      else
        var un: int := DigitsValue(digits);
        if !neg && un > MaxInt64 then None
        else if neg && un > MaxInt64 + 1 then None
        else Some(if neg then -un else un)
  }

  /** `k` zero digits. */
  function ZeroDigits(k: nat): (z: bytes)
    ensures |z| == k && forall i :: 0 <= i < k ==> z[i] == ZERO
  {
    seq(k, i => ZERO)
  }

  /** Leading zeros do not change the value of a run of digits. */
  lemma {:induction false} ZerosValue(z: nat, t: bytes)
    requires AllDigits(t)
    ensures AllDigits(ZeroDigits(z) + t) && DigitsValue(ZeroDigits(z) + t) == DigitsValue(t)
    decreases |t|, z
  {
    var s := ZeroDigits(z) + t;
    assert AllDigits(s) by {
      forall i | 0 <= i < |s| ensures IsDigit(s[i]) {
        if i >= z { assert s[i] == t[i - z]; }
      }
    }
    if t == [] {
      assert s == ZeroDigits(z);
      if z > 0 {
        assert s[..|s| - 1] == ZeroDigits(z - 1) + [];
        ZerosValue(z - 1, []);
      }
    } else {
      var t' := t[..|t| - 1];
      assert s[..|s| - 1] == ZeroDigits(z) + t';
      assert s[|s| - 1] == t[|t| - 1];
      ZerosValue(z, t');
    }
  }

  /** Every run of digits is the shortest decimal form of its value, after
      some leading zeros. */
  lemma {:induction false} DigitsCanonical(s: bytes)
    requires |s| > 0 && AllDigits(s)
    ensures |Itoa(DigitsValue(s))| <= |s|
    ensures s == ZeroDigits(|s| - |Itoa(DigitsValue(s))|) + Itoa(DigitsValue(s))
    decreases |s|
  {
    var p, d := s[..|s| - 1], s[|s| - 1];
    var v := DigitsValue(s);
    assert v == DigitsValue(p) * 10 + (d as int - 48);
    if p == [] {
      assert Itoa(v) == [d];
      assert s == [d];
    } else {
      DigitsCanonical(p);
      var m := DigitsValue(p);
      if m == 0 {
        assert Itoa(v) == [d];
        assert Itoa(0) == [ZERO];
        assert s == ZeroDigits(|s| - 1) + [d];
      } else {
        assert v / 10 == m && v % 10 == d as int - 48;
        assert Itoa(v) == Itoa(m) + [d];
        assert s == p + [d];
      }
    }
  }

  /** ParseUint(s, 10, 32) gives `n` exactly when `s` is the decimal form of
      `n`, possibly after leading zeros, and `n` fits in 32 bits. A sign
      is never accepted. */
  lemma {:induction false} ParseUint32Spec(s: bytes, n: nat)
    ensures ParseUint32(s) == Some(n)
        <==> n <= MaxUint32 && |Itoa(n)| <= |s| && s == ZeroDigits(|s| - |Itoa(n)|) + Itoa(n)
    ensures |s| > 0 && (s[0] == PLUS || s[0] == MINUS) ==> ParseUint32(s).None?
  {
    if ParseUint32(s) == Some(n) {
      DigitsCanonical(s);
    }
    if n <= MaxUint32 && |Itoa(n)| <= |s| && s == ZeroDigits(|s| - |Itoa(n)|) + Itoa(n) {
      ItoaDigits(n);
      ZerosValue(|s| - |Itoa(n)|, Itoa(n));
    }
  }

  /** ParseUint reads back what Itoa writes, up to the 32-bit limit. */
  lemma {:induction false} ParseUint32Itoa(n: nat)
    ensures ParseUint32(Itoa(n)) == (if n <= MaxUint32 then Some(n) else None)
  {
    ItoaDigits(n);
  }

  /** ParseInt reads back what Itoa writes, up to the int64 limit. */
  lemma {:induction false} ParseInt64Itoa(n: nat)
    requires n <= MaxInt64
    ensures ParseInt64(Itoa(n)) == Some(n)
  {
    ItoaDigits(n);
    assert IsDigit(Itoa(n)[0]);
  }

  /** ParseInt inverts FormatInt on every int64. */
  lemma {:induction false} ParseInt64FormatInt(n: int64)
    ensures ParseInt64(FormatInt(n)) == Some(n)
  {
    FormatIntDigits(n);
    var s := FormatInt(n);
    if n < 0 {
      assert s[0] == MINUS && s[1..] == Itoa(-(n as int));
    } else {
      assert IsDigit(s[0]);
    }
  }

  /** The sign handling and range limits of ParseInt: an explicit '+' is
      ignored, '-' negates, and the magnitude may reach 2^63 only when negative. */
  lemma {:induction false} ParseInt64Signs(d: bytes)
    requires |d| > 0 && AllDigits(d)
    ensures ParseInt64(d) == (if DigitsValue(d) <= MaxInt64 then Some(DigitsValue(d)) else None)
    ensures ParseInt64([PLUS] + d) == ParseInt64(d)
    ensures ParseInt64([MINUS] + d) == (if DigitsValue(d) <= MaxInt64 + 1 then Some(-(DigitsValue(d) as int)) else None)
  {
    assert IsDigit(d[0]);
    assert ([PLUS] + d)[1..] == d;
    assert ([MINUS] + d)[1..] == d;
  }
}
