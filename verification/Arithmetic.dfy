/** Division, alignment, powers of two, ranges and ring positions, as the repository's helpers use them. */
module Arithmetic {

  const U32: nat := 0x1_0000_0000
  const U64: nat := 0x1_0000_0000_0000_0000

  datatype Option<+T> = None | Some(value: T)

  /** The ranges of `n` from `a` and `m` from `b` meet. */
  predicate Meets(a: nat, n: nat, b: nat, m: nat) {
    a < b + m && b < a + n
  }

  /** Position `i` of a ring lies between the reader's head and the writer's tail. */
  predicate Unread(head: nat, tail: nat, i: nat) {
    if head <= tail then head <= i < tail else head <= i || i < tail
  }

  /** The quotient and remainder of a number already written as one. */
  lemma DivMod(q: nat, r: nat, m: nat)
    requires r < m
    ensures (q * m + r) / m == q && (q * m + r) % m == r
  {
    var d: int := (q * m + r) / m - q;
    assert d * m == r - (q * m + r) % m;
    assert d >= 1 ==> d * m >= m;
    assert d <= -1 ==> d * m <= 0 - m;
  }

  predicate PowerOfTwo(n: nat) {
    n == 1 || (n > 0 && n % 2 == 0 && PowerOfTwo(n / 2))
  }

  /** `(x + a - 1) & ~(a - 1)` for a power of two `a`. */
  function AlignUp(x: nat, a: nat): nat
    requires a > 0
  {
    (x + a - 1) / a * a
  }

  lemma MultipleAtLeast(x: nat, a: nat)
    requires 0 < x && 0 < a && x % a == 0
    ensures a <= x
  {
    if x < a { DivMod(0, x, a); }
  }

  lemma {:induction false} MulGap(n: nat, q: nat, a: nat)
    requires n < q
    ensures n * a + a <= q * a
  {
    assert q * a == (q - 1) * a + a;
    if n + 1 < q { MulGap(n, q - 1, a); }
  }

  lemma MultipleBelow(n: nat, q: nat, a: nat, x: nat)
    requires q * a < x + a && x <= n * a
    ensures q * a <= n * a
  {
    if n < q { MulGap(n, q, a); }
  }

  lemma Quotient(x: nat, a: nat)
    requires a > 0
    ensures x / a * a <= x < x / a * a + a && (x % a == 0 ==> x / a * a == x)
  {
  }

  /** A multiple of `a` not below `x` is not below `AlignUp(x, a)`. */
  lemma AlignUpLowest(x: nat, a: nat, y: nat)
    requires a > 0 && y % a == 0 && x <= y
    ensures AlignUp(x, a) <= y
  {
    Quotient(x + a - 1, a);
    Quotient(y, a);
    MultipleBelow(y / a, (x + a - 1) / a, a, x);
  }

  /** The least multiple of `a` that is not below `x`. */
  lemma AlignUpLeast(x: nat, a: nat)
    requires a > 0
    ensures x <= AlignUp(x, a) < x + a && AlignUp(x, a) % a == 0
    ensures forall y: nat | y % a == 0 && x <= y :: AlignUp(x, a) <= y
  {
    Quotient(x + a - 1, a);
    DivMod((x + a - 1) / a, 0, a);
    forall y: nat | y % a == 0 && x <= y ensures AlignUp(x, a) <= y { AlignUpLowest(x, a, y); }
  }

  /** A power of two divides every larger one. */
  lemma {:induction false} PowersDivide(d: nat, n: nat)
    requires PowerOfTwo(d) && PowerOfTwo(n) && d <= n
    ensures n % d == 0
  {
    if d > 1 {
      PowersDivide(d / 2, n / 2);
      var k := n / 2 / (d / 2);
      assert n / 2 == k * (d / 2);
      assert n == k * d;
      DivMod(k, 0, d);
    }
  }

  lemma MultipleOfMultiple(x: nat, a: nat, d: nat)
    requires d > 0 && a > 0 && x % a == 0 && a % d == 0
    ensures x % d == 0
  {
    var p, q := x / a, a / d;
    assert x == p * a && a == q * d;
    assert x == (p * q) * d;
    DivMod(p * q, 0, d);
  }

  lemma SubsetCard<T>(a: set<T>, b: set<T>)
    requires a <= b
    ensures |a| <= |b|
    ensures |a| == |b| ==> a == b
  {
    assert b == a + (b - a) && |b| == |a| + |b - a|;
    if |a| == |b| { assert b - a == {}; }
  }
}
