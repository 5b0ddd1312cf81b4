/** lib/utils: nil-aware equality of byte slices. */
module Utils {
  import opened Bytes

  /** BytesEquals: two slices are equal when both are nil, or both are
      non-nil with the same bytes in the same order. A nil slice is not
      equal to an empty one. */
  method BytesEquals(a: Option<bytes>, b: Option<bytes>) returns (eq: bool)
    ensures eq <==> a == b
    ensures a.None? != b.None? ==> !eq
    ensures a.Some? && b.Some? ==> (eq <==> |a.value| == |b.value| && forall i :: 0 <= i < |a.value| ==> a.value[i] == b.value[i])
  {
    var x := if a.None? then [] else a.value;
    var y := if b.None? then [] else b.value;
    if (a.None? && b.Some?) || (a.Some? && b.None?) || |x| != |y| {
      return false;
    }
    var size := |x|;
    for i := 0 to size
      invariant forall j :: 0 <= j < i ==> x[j] == y[j]
    {
      var av := x[i];
      var bv := y[i];
      if av != bv {
        return false;
      }
    }
    assert x == y;
    return true;
  }
}
