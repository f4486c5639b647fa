/** Retry delay: crates/nostr-q/src/lib.rs, `backoff_secs`. */
module Backoff {

  const U64_MAX: int := 0xFFFF_FFFF_FFFF_FFFF
  const MAX_BACKOFF: int := 3600

  type u64 = n: int | 0 <= n <= U64_MAX

  function SaturatingMul(a: u64, b: u64): u64 {
    if a * b > U64_MAX then U64_MAX else a * b
  }

  function SaturatingDec(a: nat): nat {
    if a == 0 then 0 else a - 1
  }

  function Pow2(n: nat): (r: int)
    ensures r >= 1
  {
    if n == 0 then 1 else 2 * Pow2(n - 1)
  }

  /** `1u64 << n`, defined for the shift amounts the code can reach. */
  function Shl1(n: nat): u64
    requires n <= 20
  {
    Pow2Monotone(n, 20);
    Pow2Twenty();
    Pow2(n)
  }

  /** Attempts are unbounded here, which covers every 32-bit value. */
  function BackoffSecs(base: u64, attempt: nat): u64 {
    var shift := if SaturatingDec(attempt) < 20 then SaturatingDec(attempt) else 20;
    var product := SaturatingMul(base, Shl1(shift));
    if product < MAX_BACKOFF then product else MAX_BACKOFF
  }

  lemma {:induction false} Pow2Monotone(m: nat, n: nat)
    requires m <= n
    ensures Pow2(m) <= Pow2(n)
    decreases n - m
  {
    if m < n {
      Pow2Monotone(m + 1, n);
    }
  }

  lemma Pow2Twenty()
    ensures Pow2(20) == 0x10_0000
  {
    assert Pow2(5) == 32;
    assert Pow2(10) == 1024;
    assert Pow2(15) == 32768;
  }

  /** The documented delay over unbounded integers: base * 2^(attempt - 1), capped at one hour. */
  function IdealBackoff(base: nat, attempt: nat): int
    requires attempt >= 1
  {
    var d := base * Pow2(attempt - 1);
    if d < MAX_BACKOFF then d else MAX_BACKOFF
  }

  /** Neither the shift cap at 20 nor the 64-bit saturation ever changes the delay. */
  lemma BackoffIsIdeal(base: u64, attempt: nat)
    requires attempt >= 1
    ensures BackoffSecs(base, attempt) == IdealBackoff(base, attempt)
  {
    var n := attempt - 1;
    if n <= 20 {
      assert Shl1(n) == Pow2(n);
    } else if base > 0 {
      Pow2Monotone(20, n);
      Pow2Twenty();
      ScaleAtLeast(base, Pow2(20));
      ScaleAtLeast(base, Pow2(n));
    }
  }

  /** The first delay is the base, every further attempt doubles it, and it never passes an hour. */
  lemma BackoffDoubles(base: u64, attempt: nat)
    requires attempt >= 1
    ensures BackoffSecs(base, 1) == if base < 3600 then base else 3600
    ensures var doubled := 2 * BackoffSecs(base, attempt);
            BackoffSecs(base, attempt + 1) == if doubled < 3600 then doubled else 3600
  {
    BackoffIsIdeal(base, 1);
    BackoffIsIdeal(base, attempt);
    BackoffIsIdeal(base, attempt + 1);
    ScaleDoubles(base, Pow2(attempt - 1));
    assert Pow2(0) == 1 && Pow2(attempt) == 2 * Pow2(attempt - 1);
  }

  lemma ScaleDoubles(base: int, k: int)
    ensures base * (2 * k) == 2 * (base * k)
  {
  }

  lemma ScaleAtLeast(base: int, k: int)
    requires base >= 1 && k >= 0
    ensures base * k >= k
  {
  }

  /** Later attempts never wait less, larger bases never wait less, and no wait exceeds an hour. */
  lemma BackoffIsMonotone(base: u64, base': u64, attempt: nat, attempt': nat)
    requires 1 <= attempt <= attempt' && base <= base'
    ensures BackoffSecs(base, attempt) <= BackoffSecs(base', attempt') <= MAX_BACKOFF
  {
    BackoffIsIdeal(base, attempt);
    BackoffIsIdeal(base', attempt');
    var m, n := Pow2(attempt - 1), Pow2(attempt' - 1);
    Pow2Monotone(attempt - 1, attempt' - 1);
    ProductMonotone(base, base', m, n);
  }

  lemma ProductMonotone(a: nat, a': nat, m: nat, n: nat)
    requires a <= a' && m <= n
    ensures a * m <= a' * n
  {
    assert a' * n == a * m + (a' - a) * m + a' * (n - m);
  }
}
