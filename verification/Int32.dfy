/** Go's conversions between the spec's int64 fields and the service's int32 fields. */
module Int32 {
  import opened Common

  const MIN_INT32 := -0x8000_0000
  const MAX_INT32 := 0x7FFF_FFFF
  const INT32_SPAN := 0x1_0000_0000

  predicate Fits(v: int) {
    MIN_INT32 <= v <= MAX_INT32
  }

  predicate FitsOption(v: Option<int>) {
    v.Some? ==> Fits(v.value)
  }

  /** Go's unchecked int32(v): the low 32 bits read as a signed number. */
  function Narrow(v: int): int {
    var low := v % INT32_SPAN;
    if low > MAX_INT32 then low - INT32_SPAN else low
  }

  /** int32OrNil; int64OrNil widens without changing the number. */
  function NarrowOption(v: Option<int>): Option<int> {
    if v.Some? then Some(Narrow(v.value)) else None
  }

  /** Narrowing yields the one int32 that agrees with the number modulo 2^32. */
  lemma NarrowUnique(v: int, w: int)
    requires Fits(w)
    ensures w == Narrow(v) <==> exists turns: int :: v == w + turns * INT32_SPAN
  {
    var turns := (v - Narrow(v)) / INT32_SPAN;
    assert v == v % INT32_SPAN + v / INT32_SPAN * INT32_SPAN;
    assert v == Narrow(v) + (if v % INT32_SPAN > MAX_INT32 then v / INT32_SPAN + 1 else v / INT32_SPAN) * INT32_SPAN;
    if t: int :| v == w + t * INT32_SPAN {
      var s := if v % INT32_SPAN > MAX_INT32 then v / INT32_SPAN + 1 else v / INT32_SPAN;
      assert (s - t) * INT32_SPAN == w - Narrow(v);
    }
  }

  /** Narrowing and widening back is the identity exactly on the int32 range. */
  lemma RoundTrip(v: Option<int>)
    ensures NarrowOption(v) == v <==> FitsOption(v)
    ensures FitsOption(NarrowOption(v))
  {
  }
}
