/** The machine integer ranges the chain code works in, and powers of 2 and 256. */
module Bounded {
  const U32_MAX: int := 0xFFFF_FFFF
  const U64_MAX: int := 0xFFFF_FFFF_FFFF_FFFF
  const U256_LIMIT: int := 0x1_0000000000000000_0000000000000000_0000000000000000_0000000000000000

  type u32 = x: int | 0 <= x <= 0xFFFF_FFFF
  type u64 = x: int | 0 <= x <= 0xFFFF_FFFF_FFFF_FFFF
  type u256 = x: int |
    0 <= x < 0x1_0000000000000000_0000000000000000_0000000000000000_0000000000000000

  function Min(x: int, y: int): int { if x <= y then x else y }

  function Max(x: int, y: int): int { if x <= y then y else x }

  function SaturatingAdd32(x: u32, y: u32): u32 { Min(x + y, U32_MAX) }

  function SaturatingSub32(x: u32, y: u32): u32 { Max(x - y, 0) }

  function SaturatingMul32(x: u32, y: u32): u32 {
    assert 0 <= x * y;
    Min(x * y, U32_MAX)
  }

  function Pow2(k: nat): (p: nat)
    ensures p >= 1
  {
    if k == 0 then 1 else 2 * Pow2(k - 1)
  }

  lemma {:induction false} Pow2Reflects(j: nat, k: nat)
    ensures Pow2(j) < Pow2(k) ==> j < k
  {
    if j > 0 && k > 0 { Pow2Reflects(j - 1, k - 1); }
  }

  function Pow256(k: nat): (p: nat)
    ensures p >= 1
  {
    if k == 0 then 1 else 256 * Pow256(k - 1)
  }

  lemma Pow256At32()
    ensures Pow256(32) == U256_LIMIT
  {
    assert Pow256(8) == 0x1_0000000000000000;
    Pow256Add(8, 8);
    Pow256Add(16, 16);
  }

  lemma {:induction false} Pow256Add(j: nat, k: nat)
    ensures Pow256(j + k) == Pow256(j) * Pow256(k)
  {
    if k > 0 {
      Pow256Add(j, k - 1);
      assert Pow256(j) * (256 * Pow256(k - 1)) == 256 * (Pow256(j) * Pow256(k - 1));
    }
  }

  lemma {:induction false} Pow256Monotone(j: nat, k: nat)
    requires j <= k
    ensures Pow256(j) <= Pow256(k)
  {
    if j < k {
      Pow256Monotone(j, k - 1);
    }
  }

  lemma DivUnique(a: int, d: int, q: int, r: int)
    requires d > 0 && a == q * d + r && 0 <= r < d
    ensures a / d == q && a % d == r
  {
    assert (a / d - q) * d == r - a % d;
    if a / d > q {
      MulMonotone(1, a / d - q, d);
    } else if a / d < q {
      MulMonotone(1, q - a / d, d);
    }
  }

  lemma MulMonotone(x: int, y: int, d: int)
    requires x <= y && 0 <= d
    ensures x * d <= y * d
  {
  }

  lemma MulThreshold(m: int, top: int, d: int)
    requires 0 < d
    ensures m * d >= top * d <==> m >= top
  {
    if m >= top {
      MulMonotone(top, m, d);
    } else {
      MulMonotone(m + 1, top, d);
    }
  }

  lemma DivMul(x: nat, d: nat)
    requires 0 < d
    ensures (x / d) * d == x - x % d
  {
  }

  lemma MulDiv(x: nat, d: nat)
    requires 0 < d
    ensures (x * d) / d == x
  {
    DivUnique(x * d, d, x, 0);
  }

  lemma DivMonotone(x: int, y: int, d: int)
    requires x <= y && 0 < d
    ensures x / d <= y / d
  {
    if x / d > y / d {
      MulMonotone(y / d + 1, x / d, d);
    }
  }

  lemma RoundDownOrdered(x: nat, y: nat, d: nat)
    requires x <= y && 0 < d
    ensures x - x % d <= y - y % d
  {
    DivMonotone(x, y, d);
    MulMonotone(x / d, y / d, d);
    DivMul(x, d);
    DivMul(y, d);
  }

  /** `x / d` is the greatest `q` with `q * d <= x`. */
  lemma DivGreatest(q: int, x: int, d: int)
    requires 0 < d
    ensures q * d <= x <==> q <= x / d
  {
    if q <= x / d {
      MulMonotone(q, x / d, d);
    } else {
      MulMonotone(x / d + 1, q, d);
    }
  }

  lemma DivDiv(x: nat, c: nat, d: nat)
    requires 0 < c && 0 < d
    ensures c * d > 0 && (x / c) / d == x / (c * d)
  {
    assert c * d > 0;
    var q := (x / c) / d;
    var r := (x / c) % d;
    assert x == (q * d + r) * c + x % c;
    assert (q * d + r) * c == q * (c * d) + r * c;
    MulMonotone(r, d - 1, c);
    assert (d - 1) * c == c * d - c;
    assert 0 <= r * c;
    DivUnique(x, c * d, q, r * c + x % c);
  }
}
