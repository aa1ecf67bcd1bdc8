/** 64-bit and 32-bit machine integers as Rust's release builds compute with them. */
module MachineInts {
  const TWO_32 := 0x1_0000_0000
  const TWO_63 := 0x8000_0000_0000_0000
  const TWO_64 := 0x1_0000_0000_0000_0000

  type U32 = x: int | 0 <= x < TWO_32
  type U64 = x: int | 0 <= x < TWO_64
  type I64 = x: int | -TWO_63 <= x < TWO_63

  /** Conversion to `u64` (`as u64`), and the result of `u64` arithmetic. */
  function WrapU64(x: int): U64 { x % TWO_64 }

  /** Conversion to `i64` (`as i64`), and the result of `i64` arithmetic. */
  function WrapI64(x: int): I64 {
    var r := x % TWO_64;
    if r < TWO_63 then r else r - TWO_64
  }

  /** Both casts change a value by a multiple of 2^64 into their own range. */
  lemma {:induction false} WrapsMean(x: int)
    ensures 0 <= WrapU64(x) <= 18446744073709551615
    ensures exists k :: x == WrapU64(x) + k * 18446744073709551616
    ensures -9223372036854775808 <= WrapI64(x) <= 9223372036854775807
    ensures exists k :: x == WrapI64(x) + k * 18446744073709551616
  {
    var q := x / TWO_64;
    assert x == WrapU64(x) + q * 18446744073709551616;
    assert x == WrapI64(x) + (if WrapI64(x) < 0 then q + 1 else q) * 18446744073709551616;
  }

  predicate InI64(x: int) { -TWO_63 <= x < TWO_63 }

  lemma {:induction false} WrapI64Exact(x: int)
    requires InI64(x)
    ensures WrapI64(x) == x
  {
  }

  lemma {:induction false} WrapU64Left(x: int, y: int)
    ensures WrapU64(WrapU64(x) + y) == WrapU64(x + y)
  {
  }

  lemma {:induction false} WrapU64Add(x: int, y: int)
    ensures WrapU64(WrapU64(x) + WrapU64(y)) == WrapU64(x + y)
  {
    hide WrapU64;
    WrapU64Left(x, WrapU64(y));
    WrapU64Left(y, x);
  }

  /** The two casts lose nothing when they follow each other. */
  lemma {:induction false} CastRoundTrip(x: int)
    ensures WrapU64(WrapI64(x)) == WrapU64(x)
    ensures WrapI64(WrapU64(x)) == WrapI64(x)
  {
  }

  /** An unsigned wrap sees through a signed one. */
  lemma {:induction false} WrapU64OfI64(x: int, y: int)
    ensures WrapU64(WrapI64(x) + y) == WrapU64(x + y)
  {
    hide WrapU64, WrapI64;
    WrapU64Left(WrapI64(x), y);
    CastRoundTrip(x);
    WrapU64Left(x, y);
  }

  lemma {:induction false} SameResidue(x: int, y: int)
    requires WrapU64(x) == WrapU64(y)
    ensures WrapI64(x) == WrapI64(y)
  {
  }

  /** Wrapping at every step gives the same value as wrapping the exact sum once. */
  lemma {:induction false} WrapI64Add(x: int, y: int)
    ensures WrapI64(WrapI64(x) + WrapI64(y)) == WrapI64(x + y)
  {
    hide WrapU64, WrapI64;
    WrapU64OfI64(x, WrapI64(y));
    WrapU64OfI64(y, x);
    SameResidue(WrapI64(x) + WrapI64(y), x + y);
  }

  /** A signed value reads the same unsigned exactly when it is not negative. */
  lemma {:induction false} SameWhenNonNegative(x: I64)
    ensures WrapI64(WrapU64(x)) == x
    ensures WrapU64(x) == x <==> x >= 0
  {
  }
}
