/** Small datatypes and arithmetic shared by every model. */
module Common {

  datatype Option<+T> = None | Some(value: T)

  datatype Result<+T, +E> = Ok(value: T) | Err(error: E)

  type Byte = b: int | 0 <= b < 256

  /** One more than the largest `u32`. */
  const U32_LIMIT := 0x1_0000_0000

  type U32 = n: int | 0 <= n < U32_LIMIT

  /** What a `u32` keeps of an exact result when the addition or subtraction wraps. */
  function Wrap32(x: int): (r: U32)
    ensures 0 <= x < U32_LIMIT ==> r == x
  {
    x % U32_LIMIT
  }

  /** All copies of one item taken out of a list. */
  function Without<T(==)>(items: seq<T>, gone: T): seq<T> {
    if items == [] then []
    else (if items[0] == gone then [] else [items[0]]) + Without(items[1..], gone)
  }

  lemma WithoutNext<T>(items: seq<T>, i: nat, gone: T)
    requires i < |items|
    ensures Without(items[i..], gone) ==
            (if items[i] == gone then [] else [items[i]]) + Without(items[i + 1..], gone)
  {
    assert items[i..][1..] == items[i + 1..];
  }

  lemma {:induction false} WithoutMeans<T(!new)>(items: seq<T>, gone: T)
    ensures forall item :: item in Without(items, gone) <==> item in items && item != gone
    ensures gone !in items ==> Without(items, gone) == items
  {
    if items != [] {
      assert items == [items[0]] + items[1..];
      WithoutMeans(items[1..], gone);
    }
  }

  function Max(a: int, b: int): int {
    if a >= b then a else b
  }

  function Pow2(n: nat): (r: nat)
    ensures r > 0
  {
    if n == 0 then 1 else 2 * Pow2(n - 1)
  }

  /** `u32::next_power_of_two`: doubles from one until the argument is reached. */
  function NextPowerOfTwo(n: nat): nat {
    DoubleUntil(1, n)
  }

  function DoubleUntil(p: nat, n: nat): nat
    requires p > 0
    decreases n - p
  {
    if p >= n then p else DoubleUntil(2 * p, n)
  }

  function TrailingZeros(n: nat): nat
    requires n > 0
  {
    if n % 2 == 1 then 0 else 1 + TrailingZeros(n / 2)
  }

  /** The exponent of the least power of two that is at least `n`. */
  function CeilLog2(n: nat): nat {
    if n <= 1 then 0 else 1 + CeilLog2((n + 1) / 2)
  }

  lemma {:induction false} DoublingReaches(k: nat, n: nat)
    requires k <= CeilLog2(n)
    ensures DoubleUntil(Pow2(k), n) == Pow2(CeilLog2(n))
    decreases CeilLog2(n) - k
  {
    CeilLog2Bounds(n);
    if k == CeilLog2(n) {
    } else {
      Pow2Monotone(k + 1, CeilLog2(n));
      Pow2Monotone(k, CeilLog2(n) - 1);
      DoublingReaches(k + 1, n);
    }
  }

  lemma {:induction false} CeilLog2Bounds(n: nat)
    ensures n <= Pow2(CeilLog2(n))
    ensures CeilLog2(n) > 0 ==> Pow2(CeilLog2(n) - 1) < n
  {
    if n > 1 {
      CeilLog2Bounds((n + 1) / 2);
      if (n + 1) / 2 == 1 {
        assert n == 2;
      }
    }
  }

  lemma {:induction false} Pow2Monotone(a: nat, b: nat)
    requires a <= b
    ensures Pow2(a) <= Pow2(b)
    decreases b - a
  {
    if a < b {
      Pow2Monotone(a, b - 1);
    }
  }

  /** `NextPowerOfTwo` is the least power of two that is at least its argument. */
  lemma NextPowerOfTwoIsLeast(n: nat)
    ensures NextPowerOfTwo(n) == Pow2(CeilLog2(n))
    ensures n <= NextPowerOfTwo(n)
    ensures forall k: nat :: n <= Pow2(k) ==> NextPowerOfTwo(n) <= Pow2(k)
  {
    Pow2Monotone(0, CeilLog2(n));
    DoublingReaches(0, n);
    CeilLog2Bounds(n);
    forall k: nat | n <= Pow2(k)
      ensures NextPowerOfTwo(n) <= Pow2(k)
    {
      if k < CeilLog2(n) {
        Pow2Monotone(k, CeilLog2(n) - 1);
      } else {
        Pow2Monotone(CeilLog2(n), k);
      }
    }
  }

  lemma {:induction false} TrailingZerosOfPow2(k: nat)
    ensures TrailingZeros(Pow2(k)) == k
  {
    if k > 0 {
      TrailingZerosOfPow2(k - 1);
      assert Pow2(k) / 2 == Pow2(k - 1);
    }
  }
}
