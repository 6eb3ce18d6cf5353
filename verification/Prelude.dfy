/** Shared result types and the machine arithmetic used by the text core. */
module Prelude {

  datatype Option<+T> = None | Some(value: T)

  datatype Result<+T, +E> = Success(value: T) | Failure(error: E)

  /** Largest value of a 64-bit `usize`. */
  const USIZE_MAX: nat := 0xFFFF_FFFF_FFFF_FFFF

  /** No string or vector is longer than `isize::MAX` bytes. */
  const ISIZE_MAX: nat := 0x7FFF_FFFF_FFFF_FFFF

  type usize = n: int | 0 <= n <= USIZE_MAX

  function Min(a: int, b: int): int { if a <= b then a else b }

  function Max(a: int, b: int): int { if a >= b then a else b }

  /** `usize::saturating_add`. */
  function SatAdd(a: usize, b: usize): usize { Min(a + b, USIZE_MAX) }

  /** `usize::saturating_sub`. */
  function SatSub(a: usize, b: usize): usize { Max(a - b, 0) }

  /** Least integer not below `a / b`. */
  function CeilDiv(a: nat, b: nat): nat
    requires b > 0
  {
    (a + b - 1) / b
  }

  /** `as usize` on a signed 64-bit value: two's complement reinterpretation. */
  function AsUsize(n: int): usize
    requires -0x8000_0000_0000_0000 <= n <= ISIZE_MAX
  {
    if n < 0 then n + USIZE_MAX + 1 else n
  }

  lemma LessFactor(a: int, b: int, d: int)
    requires d > 0 && a * d < b * d
    ensures a < b
  {
  }

  lemma Quotient(a: nat, d: nat)
    requires d > 0
    ensures (a / d) * d <= a < (a / d) * d + d
  {
  }

  /** `n` steps of `d` reach `total` and `n - 1` do not. */
  lemma CeilDivIs(n: nat, d: nat, total: nat)
    requires d > 0 && n > 0 && (n - 1) * d < total
    ensures n <= CeilDiv(total, d)
    ensures total <= n * d ==> n == CeilDiv(total, d)
  {
    var q := CeilDiv(total, d);
    Quotient(total + d - 1, d);
    LessFactor(n - 1, q, d);
    if total <= n * d {
      assert (n + 1) * d == n * d + d;
      LessFactor(q, n + 1, d);
    }
  }

  lemma AppendAssociative<T>(a: seq<T>, b: seq<T>, c: seq<T>)
    ensures (a + b) + c == a + (b + c)
  {
  }

  lemma SameNats(s: set<nat>, t: set<nat>)
    requires forall n :: n in s <==> n in t
    ensures s == t
  {
  }

  lemma SameNatMaps<V>(m: map<nat, V>, n: map<nat, V>)
    requires forall k :: k in m <==> k in n
    requires forall k :: k in m ==> m[k] == n[k]
    ensures m == n
  {
  }

  lemma NoIds(s: set<int>)
    requires forall id :: id !in s
    ensures s == {}
  {
    SameNats(s, {});
  }
}
