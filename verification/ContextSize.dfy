/** The context window asked of the model server: an estimate of the prompt plus headroom, rounded up to a power of
    two and cut at the caller's ceiling, in 32-bit arithmetic. */
module ContextSize {
  import opened Wrappers

  const U32_LIMIT := 0x1_0000_0000
  const U32_MAX := U32_LIMIT - 1
  const NUM_CTX_FLOOR := 4096
  const NUM_CTX_OUTPUT_HEADROOM := 4096
  const NUM_CTX_CHARS_PER_TOKEN := 3

  type u32 = n: nat | n < U32_LIMIT

  function Min(a: nat, b: nat): nat { if a < b then a else b }
  function Max(a: nat, b: nat): nat { if a < b then b else a }

  function SaturatingAdd(a: u32, b: u32): u32 { if (a as nat) + b > U32_MAX then U32_MAX else (a as nat) + b }

  function Pow2(k: nat): nat { if k == 0 then 1 else 2 * Pow2(k - 1) }

  /** The first power of two from `2^k` on that is at least `n`, if one fits 32 bits. */
  function PowerFrom(k: nat, n: nat): Option<nat>
    requires k <= 32
    decreases 32 - k
  {
    if k == 32 then None else if Pow2(k) >= n then Some(Pow2(k)) else PowerFrom(k + 1, n)
  }

  function CheckedNextPowerOfTwo(n: u32): Option<nat> { PowerFrom(0, n) }

  /** `as u32` keeps the low 32 bits of the estimate. */
  function SizedNumCtx(promptChars: nat, ceiling: Option<u32>): Option<nat>
  {
    match ceiling
    case None => None
    case Some(c) =>
      var est: u32 := promptChars / NUM_CTX_CHARS_PER_TOKEN % U32_LIMIT;
      var lo := Min(NUM_CTX_FLOOR, c);
      var want := Max(SaturatingAdd(est, NUM_CTX_OUTPUT_HEADROOM), lo);
      var power := CheckedNextPowerOfTwo(want);
      Some(Min(if power.Some? then power.value else c, c))
  }

  // ------------------------------------------------------------------ powers of two

  lemma Powers()
    ensures Pow2(12) == 4096 && Pow2(31) == 0x8000_0000 && Pow2(32) == U32_LIMIT
  {
    assert Pow2(4) == 16;
    assert Pow2(8) == 256;
    assert Pow2(12) == 4096;
    assert Pow2(16) == 0x1_0000;
    assert Pow2(20) == 0x10_0000;
    assert Pow2(24) == 0x100_0000;
    assert Pow2(28) == 0x1000_0000;
    assert Pow2(32) == U32_LIMIT;
  }

  lemma {:induction false} PowGrows(j: nat, k: nat)
    requires j <= k
    ensures Pow2(j) <= Pow2(k)
    decreases k
  {
    if j < k { PowGrows(j, k - 1); }
  }

  /** The power found is the least one: the one below it is too small. None is found exactly above `2^31`. */
  lemma {:induction false} PowerIsLeast(k: nat, n: nat) returns (e: nat)
    requires k <= 32
    ensures PowerFrom(k, n).None? <==> k == 32 || n > Pow2(31)
    ensures PowerFrom(k, n).Some? ==>
              k <= e < 32 && PowerFrom(k, n) == Some(Pow2(e)) && n <= Pow2(e) && (e > k ==> Pow2(e - 1) < n)
    decreases 32 - k
  {
    e := k;
    if k < 32 {
      PowGrows(k, 31);
      if Pow2(k) < n { e := PowerIsLeast(k + 1, n); }
    }
  }

  /** The least power of two that holds `n`, or the whole range when none fits 32 bits. */
  function Bucket(n: u32): nat
  {
    var p := CheckedNextPowerOfTwo(n);
    if p.Some? then p.value else U32_MAX
  }

  lemma BucketHolds(n: u32) returns (e: nat)
    requires n >= 4096
    ensures n <= Bucket(n) < 2 * n
    ensures Bucket(n) == U32_MAX || (12 <= e < 32 && Bucket(n) == Pow2(e))
  {
    Powers();
    e := PowerIsLeast(0, n);
    if e < 12 { PowGrows(e, 11); }
    if Bucket(n) != U32_MAX && e == 12 { assert Pow2(11) == 2048; }
  }

  lemma BucketGrows(m: u32, n: u32)
    requires 4096 <= m <= n
    ensures Bucket(m) <= Bucket(n)
  {
    Powers();
    var d := PowerIsLeast(0, m);
    var e := PowerIsLeast(0, n);
    if CheckedNextPowerOfTwo(n).Some? {
      if d > e { PowGrows(e, d - 1); }
      if d <= e { PowGrows(d, e); }
    } else if CheckedNextPowerOfTwo(m).Some? {
      PowGrows(d, 31);
    }
  }

  // ------------------------------------------------------------------ the window

  function Estimate(promptChars: nat): nat { promptChars / NUM_CTX_CHARS_PER_TOKEN }

  function Want(est: u32): u32 { SaturatingAdd(est, NUM_CTX_OUTPUT_HEADROOM) }

  lemma WindowIsBucket(promptChars: nat, c: u32)
    ensures SizedNumCtx(promptChars, Some(c)) == Some(Min(Bucket(Want(Estimate(promptChars) % U32_LIMIT)), c))
  {
  }

  /** The window lies between the floor and the ceiling, is the ceiling or a power of two, and for estimates of 32
      bits is less than twice what is needed and holds all of it unless the ceiling cuts it. */
  lemma WindowBounds(promptChars: nat, c: u32) returns (e: nat)
    ensures var r, need := SizedNumCtx(promptChars, Some(c)).value, Estimate(promptChars) + NUM_CTX_OUTPUT_HEADROOM;
            && Min(NUM_CTX_FLOOR, c) <= r <= c
            && (r == c || (12 <= e < 32 && r == Pow2(e)))
            && (Estimate(promptChars) < U32_LIMIT ==> Min(need, c) <= r < 2 * need)
  {
    WindowIsBucket(promptChars, c);
    e := BucketHolds(Want(Estimate(promptChars) % U32_LIMIT));
  }

  /** A longer prompt and a higher ceiling never shrink the window, for estimates of 32 bits. */
  lemma WindowGrows(a: nat, b: nat, c: u32, d: u32)
    requires a <= b && Estimate(b) < U32_LIMIT && c <= d
    ensures SizedNumCtx(a, Some(c)).value <= SizedNumCtx(b, Some(d)).value
  {
    WindowIsBucket(a, c);
    WindowIsBucket(b, d);
    BucketGrows(Want(Estimate(a)), Want(Estimate(b)));
  }

  /** For prompts of any length the window is monotone only under ceilings that leave it no choice: beyond 32 bits
      the estimate starts again at zero. */
  lemma MonotoneIff(c: u32)
    ensures (forall a: nat, b: nat :: a <= b ==> SizedNumCtx(a, Some(c)).value <= SizedNumCtx(b, Some(c)).value)
            <==> c <= NUM_CTX_FLOOR
  {
    if c <= NUM_CTX_FLOOR {
      forall a: nat, b: nat | a <= b ensures SizedNumCtx(a, Some(c)).value <= SizedNumCtx(b, Some(c)).value {
        var e := WindowBounds(a, c);
        var f := WindowBounds(b, c);
      }
    } else {
      Truncated(c);
    }
  }

  lemma Truncated(c: u32)
    requires c > NUM_CTX_FLOOR
    ensures SizedNumCtx(3 * U32_MAX, Some(c)) == Some(c as nat) && SizedNumCtx(3 * U32_LIMIT, Some(c)) == Some(4096)
  {
    WindowIsBucket(3 * U32_MAX, c);
    WindowIsBucket(3 * U32_LIMIT, c);
    LargestBucket();
    LeastBucket();
  }

  lemma LargestBucket()
    ensures Bucket(Want(Estimate(3 * U32_MAX) % U32_LIMIT)) == U32_MAX
  {
    Powers();
    assert Estimate(3 * U32_MAX) == U32_MAX;
    var d := PowerIsLeast(0, U32_MAX);
  }

  lemma LeastBucket()
    ensures Bucket(Want(Estimate(3 * U32_LIMIT) % U32_LIMIT)) == 4096
  {
    Powers();
    assert Estimate(3 * U32_LIMIT) == U32_LIMIT;
    var e := BucketHolds(4096);
    PowGrows(12, 12);
    if e > 12 { PowGrows(13, e); }
  }

  /** The window holds the estimate and the headroom, as far as the ceiling lets it. */
  ghost predicate Covers(promptChars: nat, c: u32)
  {
    SizedNumCtx(promptChars, Some(c)).value >= Min(Estimate(promptChars) + NUM_CTX_OUTPUT_HEADROOM, c)
  }

  /** A ceiling is safe for prompts of any length exactly when it is at most the floor; under any other, the first
      prompt whose estimate no longer fits 32 bits gets the smallest window there is. */
  lemma CoversIff(c: u32)
    ensures (forall promptChars: nat :: Covers(promptChars, c)) <==> c <= NUM_CTX_FLOOR
    ensures forall promptChars: nat :: Estimate(promptChars) < U32_LIMIT ==> Covers(promptChars, c)
  {
    forall promptChars: nat | c <= NUM_CTX_FLOOR || Estimate(promptChars) < U32_LIMIT ensures Covers(promptChars, c) {
      var e := WindowBounds(promptChars, c);
    }
    if c > NUM_CTX_FLOOR {
      Truncated(c);
      assert !Covers(3 * U32_LIMIT, c);
    }
  }

  /** The windows one ceiling can give: itself and the powers of two from the floor on. */
  function Sizes(c: nat, from: nat): set<nat>
    requires from <= 32
    decreases 32 - from
  {
    if from == 32 then {c} else {Pow2(from)} + Sizes(c, from + 1)
  }

  lemma {:induction false} SizesCount(c: nat, from: nat, e: nat)
    requires from <= 32
    ensures c in Sizes(c, from) && (from <= e < 32 ==> Pow2(e) in Sizes(c, from)) && |Sizes(c, from)| <= 33 - from
    decreases 32 - from
  {
    if from < 32 { SizesCount(c, from + 1, e); }
  }

  /** So the server never loads more than 21 different windows for one ceiling. */
  lemma FewSizes(promptChars: nat, c: u32)
    ensures SizedNumCtx(promptChars, Some(c)).value in Sizes(c, 12) && |Sizes(c, 12)| <= 21
  {
    var e := WindowBounds(promptChars, c);
    SizesCount(c, 12, e);
  }
}
