/**
 * Unsigned 64-bit arithmetic as C performs it on `uint64_t`: every sum and
 * difference is reduced modulo 2^64.
 */
module UInt64 {

  const MOD: int := 0x1_0000_0000_0000_0000

  newtype u64 = x: int | 0 <= x < 0x1_0000_0000_0000_0000

  /** The value a mathematical integer has once stored in a `uint64_t`. */
  function Wrap(x: int): (r: u64)
    ensures 0 <= x < MOD ==> r as int == x
  {
    (x % MOD) as u64
  }

  /** `a + b` on `uint64_t`. */
  function Add(a: u64, b: u64): u64
  {
    Wrap(a as int + b as int)
  }

  /** `a - b` on `uint64_t`. */
  function Sub(a: u64, b: u64): (r: u64)
    ensures b <= a ==> r as int == a as int - b as int
    ensures a < b ==> r as int == a as int - b as int + MOD
  {
    Wrap(a as int - b as int)
  }

  /** Storing an intermediate sum in a `uint64_t` does not change the final stored sum. */
  lemma WrapOfSum(x: int, y: int)
    ensures Wrap(Wrap(x) as int + y) == Wrap(x + y)
  {
    var q := x / MOD;
    assert x == q * MOD + Wrap(x) as int;
    assert x + y == q * MOD + (Wrap(x) as int + y);
    ModShift(Wrap(x) as int + y, q);
  }

  /** Adding to a stored sum is adding to the mathematical sum, then storing. */
  lemma AddWrapped(x: int, b: u64)
    ensures Add(Wrap(x), b) == Wrap(x + b as int)
  {
    WrapOfSum(x, b as int);
  }

  /** Storing after every addition of a chain gives the stored mathematical sum. */
  lemma AddChain(a: u64, b: u64, c: u64, d: u64, e: u64, g: u64)
    ensures Add(Add(Add(Add(Add(a, b), c), d), e), g)
            == Wrap(a as int + b as int + c as int + d as int + e as int + g as int)
  {
    var x2 := a as int + b as int;
    var x3 := x2 + c as int;
    var x4 := x3 + d as int;
    var x5 := x4 + e as int;
    var s2 := Add(a, b);
    assert s2 == Wrap(x2);
    var s3 := Add(s2, c);
    assert s3 == Wrap(x3) by { AddWrapped(x2, c); }
    var s4 := Add(s3, d);
    assert s4 == Wrap(x4) by { AddWrapped(x3, d); }
    var s5 := Add(s4, e);
    assert s5 == Wrap(x5) by { AddWrapped(x4, e); }
    assert Add(s5, g) == Wrap(x5 + g as int) by { AddWrapped(x5, g); }
  }

  lemma ModShift(z: int, q: int)
    ensures (q * MOD + z) % MOD == z % MOD
  {
  }

  /** Adding back a wrapped difference restores the minuend. */
  lemma AddSubCancel(a: u64, b: u64)
    ensures Add(b, Sub(a, b)) == a
  {
  }

  /**
   * A wrapped difference of two readings of a counter that only counts up is
   * the true number of increments, provided fewer than 2^64 happened.
   */
  lemma SubOfWrapped(before: int, after: int)
    requires 0 <= before <= after
    requires after - before < MOD
    ensures Sub(Wrap(after), Wrap(before)) as int == after - before
  {
    var q := before / MOD;
    var rb := before % MOD;
    assert before == q * MOD + rb;
    if after - q * MOD < MOD {
      assert Wrap(after) as int == rb + (after - before);
    } else {
      assert (q + 1) * MOD == q * MOD + MOD;
      assert after == (q + 1) * MOD + (after - (q + 1) * MOD);
      assert Wrap(after) as int == after - (q + 1) * MOD;
    }
  }
}
