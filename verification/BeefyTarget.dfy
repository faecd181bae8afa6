/** Which block a BEEFY voter votes on next. Numbers are `u32` and their additions wrap. */
module BeefyTarget {
  import opened Common
  import opened BeefyTypes

  lemma PowerFits(half: nat)
    requires half < 0x8000_0000
    ensures NextPowerOfTwo(half) <= 0x8000_0000
  {
    assert Pow2(8) == 256;
    assert Pow2(16) == 65536;
    assert Pow2(24) == 16777216;
    assert Pow2(31) == 0x8000_0000;
    NextPowerOfTwoIsLeast(half);
  }

  /** Half the distance to best GRANDPA, rounded up to a power of two. */
  function Stride(gap: Number): (stride: U32) {
    var half := Wrap32(gap + 1) / 2;
    PowerFits(half);
    NextPowerOfTwo(half)
  }

  function VoteTarget(
      bestGrandpa: Number, bestBeefy: Option<Number>, sessionStart: Number, minDelta: U32): Option<Number>
  {
    var target :=
      if bestBeefy.None? || bestBeefy.value < sessionStart then
        sessionStart
      else
        var b := bestBeefy.value;
        var gap := if bestGrandpa >= b then bestGrandpa - b else 0;
        Wrap32(b + Max(minDelta, Stride(gap)));
    if target > bestGrandpa then None else Some(target)
  }

  lemma StrideBounds(gap: Number)
    ensures 1 <= Stride(gap) <= Max(1, gap)
    ensures gap + 1 < U32_LIMIT ==> 2 * Stride(gap) >= gap
    ensures gap + 1 == U32_LIMIT ==> Stride(gap) == 1
  {
    var half := Wrap32(gap + 1) / 2;
    NextPowerOfTwoIsLeast(half);
    CeilLog2Bounds(half);
  }

  /** Two to the `k` is the least power of two that is at least `half`. */
  ghost predicate RoundsUpTo(half: nat, k: nat) {
    half <= Pow2(k) && (k == 0 || Pow2(k - 1) < half)
  }

  lemma RoundsUpOnce(half: nat, j: nat, k: nat)
    requires RoundsUpTo(half, j) && RoundsUpTo(half, k)
    ensures j == k
  {
    if j < k {
      Pow2Monotone(j, k - 1);
    } else if k < j {
      Pow2Monotone(k, j - 1);
    }
  }

  lemma StrideIsPower(gap: Number, k: nat)
    requires RoundsUpTo((gap + 1) % U32_LIMIT / 2, k)
    ensures Stride(gap) == Pow2(k)
  {
    var half := (gap + 1) % U32_LIMIT / 2;
    NextPowerOfTwoIsLeast(half);
    CeilLog2Bounds(half);
    RoundsUpOnce(half, CeilLog2(half), k);
  }

  /** Before the mandatory block is final, it is the target as soon as GRANDPA has it. */
  lemma MandatoryTarget(bestGrandpa: Number, bestBeefy: Option<Number>, sessionStart: Number, minDelta: U32)
    requires !AtMost(sessionStart, bestBeefy)
    ensures VoteTarget(bestGrandpa, bestBeefy, sessionStart, minDelta) ==
            if sessionStart <= bestGrandpa then Some(sessionStart) else None
  {
  }

  /**
    Past it, the target is a step above best BEEFY, if GRANDPA has that block: half the gap rounded up
    to a power of two, or the minimum delta if that is more. Sums wrap.
   */
  lemma PowerOfTwoTarget(bestGrandpa: Number, b: Number, sessionStart: Number, minDelta: U32, k: nat)
    requires sessionStart <= b
    requires
      var gap := if bestGrandpa >= b then bestGrandpa - b else 0;
      RoundsUpTo((gap + 1) % U32_LIMIT / 2, k)
    ensures
      var target := (b + if minDelta >= Pow2(k) then minDelta else Pow2(k)) % U32_LIMIT;
      VoteTarget(bestGrandpa, Some(b), sessionStart, minDelta) == if target <= bestGrandpa then Some(target) else None
  {
    StrideIsPower(if bestGrandpa >= b then bestGrandpa - b else 0, k);
  }

  /** There always is such a power. */
  lemma PowerExists(half: nat) returns (k: nat)
    ensures RoundsUpTo(half, k)
  {
    k := CeilLog2(half);
    CeilLog2Bounds(half);
  }

  /** Voters whose gaps round to the same power of two vote for the same block. */
  lemma VotersMeet(g1: Number, g2: Number, b: Number, sessionStart: Number, minDelta: U32, k: nat)
    requires sessionStart <= b <= g1 && b <= g2
    requires RoundsUpTo((g1 - b + 1) % U32_LIMIT / 2, k) && RoundsUpTo((g2 - b + 1) % U32_LIMIT / 2, k)
    ensures
      var t1, t2 := VoteTarget(g1, Some(b), sessionStart, minDelta), VoteTarget(g2, Some(b), sessionStart, minDelta);
      t1.Some? && t2.Some? ==> t1 == t2
  {
    PowerOfTwoTarget(g1, b, sessionStart, minDelta, k);
    PowerOfTwoTarget(g2, b, sessionStart, minDelta, k);
  }

  /**
    Past the mandatory block, the target lies above the best BEEFY block and not above best
    GRANDPA, exactly when adding the minimum delta stays below 2^32; it then exists exactly when
    the gap is at least that delta.
   */
  lemma VoteTargetExact(bestGrandpa: Number, b: Number, sessionStart: Number, minDelta: U32)
    requires sessionStart <= b <= bestGrandpa && minDelta >= 1
    ensures var t := VoteTarget(bestGrandpa, Some(b), sessionStart, minDelta);
            && (b + minDelta < U32_LIMIT <==> (t.Some? ==> b < t.value <= bestGrandpa))
            && (b + minDelta < U32_LIMIT ==> (t.Some? <==> bestGrandpa - b >= minDelta))
  {
    StrideBounds(bestGrandpa - b);
  }

  /** Finalizing the target at least halves the gap, unless the gap spans all of `u32`. */
  lemma VoteTargetHalves(bestGrandpa: Number, b: Number, sessionStart: Number, minDelta: U32)
    requires sessionStart <= b <= bestGrandpa && 1 <= minDelta <= bestGrandpa - b
    ensures var t := VoteTarget(bestGrandpa, Some(b), sessionStart, minDelta);
            && t.Some?
            && (bestGrandpa - t.value <= (bestGrandpa - b) / 2
                <==> bestGrandpa - b + 1 < U32_LIMIT || minDelta >= 0x8000_0000)
  {
    StrideBounds(bestGrandpa - b);
  }

  function FloorLog2(n: nat): nat
    requires n > 0
  {
    if n == 1 then 0 else 1 + FloorLog2(n / 2)
  }

  lemma {:induction false} FloorLog2Monotone(a: nat, b: nat)
    requires 0 < a <= b
    ensures FloorLog2(a) <= FloorLog2(b)
  {
    if a > 1 {
      FloorLog2Monotone(a / 2, b / 2);
    }
  }

  /**
    The targets finalized one after another from `b`, with best GRANDPA standing still, until the gap
    is below the minimum delta.
   */
  function CatchUp(bestGrandpa: Number, b: Number, sessionStart: Number, minDelta: U32): (targets: seq<Number>)
    requires sessionStart <= b <= bestGrandpa && minDelta >= 1
    decreases bestGrandpa - b
  {
    if bestGrandpa - b < minDelta then []
    else
      VoteTargetExact(bestGrandpa, b, sessionStart, minDelta);
      var t := VoteTarget(bestGrandpa, Some(b), sessionStart, minDelta).value;
      [t] + CatchUp(bestGrandpa, t, sessionStart, minDelta)
  }

  /**
    At most `log2(gap) + 1` finalized targets bring the gap below the minimum delta, one more if the gap
    spans all of `u32`.
   */
  lemma {:induction false} CatchUpIsFast(bestGrandpa: Number, b: Number, sessionStart: Number, minDelta: U32)
    requires sessionStart <= b <= bestGrandpa && minDelta >= 1
    ensures var targets := CatchUp(bestGrandpa, b, sessionStart, minDelta);
            && (b == bestGrandpa ==> targets == [])
            && (b < bestGrandpa ==>
                  |targets| <= FloorLog2(bestGrandpa - b) + if bestGrandpa - b + 1 < U32_LIMIT then 1 else 2)
            && bestGrandpa - (if targets == [] then b else targets[|targets| - 1]) < minDelta
    decreases bestGrandpa - b
  {
    if bestGrandpa - b >= minDelta {
      VoteTargetExact(bestGrandpa, b, sessionStart, minDelta);
      var t := VoteTarget(bestGrandpa, Some(b), sessionStart, minDelta).value;
      VoteTargetHalves(bestGrandpa, b, sessionStart, minDelta);
      CatchUpIsFast(bestGrandpa, t, sessionStart, minDelta);
      if t < bestGrandpa {
        if bestGrandpa - b + 1 < U32_LIMIT {
          FloorLog2Monotone(bestGrandpa - t, (bestGrandpa - b) / 2);
        } else {
          FloorLog2Monotone(bestGrandpa - t, bestGrandpa - b);
        }
      }
    }
  }
}
