/** The two result shapes the Rust code returns everywhere. */
module Wrappers {
  datatype Option<+T> = None | Some(value: T)

  datatype Result<+T, +E> = Ok(value: T) | Err(error: E)

  /** Largest value of the source's `u64` and (64-bit) `usize`. */
  const U64_MAX: nat := 0xFFFF_FFFF_FFFF_FFFF

  /** The most bytes a slice can hold (`isize::MAX`). */
  const ISIZE_MAX: nat := 0x7FFF_FFFF_FFFF_FFFF

  /** A sum of `usize` values without overflow checks. */
  function Wrapped(n: nat): (r: nat)
    ensures r <= U64_MAX
  {
    n % (U64_MAX + 1)
  }

  lemma WrappedSum(n: nat)
    requires n <= 2 * U64_MAX + 1
    ensures Wrapped(n) == if n <= U64_MAX then n else n - U64_MAX - 1
  {
  }

  function Min(a: int, b: int): int { if a <= b then a else b }

  function Max(a: int, b: int): int { if a >= b then a else b }

  /** A `u64` counter that stops at its maximum (`saturating_add`). */
  function Saturated(n: nat): nat { Min(n, U64_MAX) }

  const SECOND: nat := 1_000_000_000

  /** The largest `Duration`, in nanoseconds. */
  const DURATION_MAX: nat := U64_MAX * SECOND + 999_999_999

  function Without<T>(s: seq<T>, i: nat): seq<T>
    requires i < |s|
  {
    s[..i] + s[i + 1..]
  }

  lemma Assoc<T>(a: seq<T>, b: seq<T>, c: seq<T>)
    ensures (a + b) + c == a + (b + c)
  {
  }
}
