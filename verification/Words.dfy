/** Fixed-width unsigned words and the signed 32-bit distance between them.

    Everything that the transport compares (sequence numbers, timestamps) is a
    32-bit word that wraps around.  `Wrap` relates such a word to the unbounded
    number it stands for; `TimeDiffIsDistance` says when the signed distance
    between two words is the true distance between the numbers behind them.
 */
module Words {
  const U32 := 0x1_0000_0000
  const HALF := 0x8000_0000

  type u8 = x: int | 0 <= x < 0x100
  type u16 = x: int | 0 <= x < 0x1_0000
  type u32 = x: int | 0 <= x < 0x1_0000_0000

  // a + b on uint32
  function Add32(a: u32, b: u32): u32 {
    if a + b < U32 then a + b else a + b - U32
  }

  // a - b on uint32
  function Sub32(a: u32, b: u32): u32 {
    if b <= a then a - b else a - b + U32
  }

  // int32(later - earlier)
  function TimeDiff(later: u32, earlier: u32): (d: int)
    ensures -HALF <= d < HALF
    ensures d == 0 <==> later == earlier
  {
    var d := Sub32(later, earlier);
    if d < HALF then d else d - U32
  }

  const I64 := 0x8000_0000_0000_0000

  // A sum or difference of two int64 values, on int64.
  function Signed64(x: int): int {
    if x >= I64 then x - 2 * I64 else if x < -I64 then x + 2 * I64 else x
  }

  function Min(a: int, b: int): int { if a <= b then a else b }

  function Max(a: int, b: int): int { if a >= b then a else b }

  // The word that stands for the i-th sequence number.
  function Wrap(i: nat): u32 { i % U32 }

  // The signed distance of two words is the true distance of the numbers behind them
  // exactly when those are no further apart than half the word space.
  lemma {:induction false} TimeDiffIsDistance(i: nat, j: nat)
    ensures TimeDiff(Wrap(i), Wrap(j)) == i - j <==> -HALF <= i - j < HALF
  {
    var a, b := i / U32, j / U32;
    assert i == a * U32 + Wrap(i) && j == b * U32 + Wrap(j);
  }

  lemma {:induction false} WrapAdd(i: nat, k: nat)
    requires k < U32
    ensures Wrap(i + k) == Add32(Wrap(i), k)
  {
    var a := i / U32;
    assert i == a * U32 + Wrap(i);
    if Wrap(i) + k < U32 {
      assert i + k == a * U32 + (Wrap(i) + k);
    } else {
      assert i + k == (a + 1) * U32 + (Wrap(i) + k - U32);
    }
  }

  lemma {:induction false} WrapInjective(i: nat, j: nat)
    requires -U32 < i - j < U32
    requires Wrap(i) == Wrap(j)
    ensures i == j
  {
    var a, b := i / U32, j / U32;
    assert i == a * U32 + Wrap(i) && j == b * U32 + Wrap(j);
    assert i - j == (a - b) * U32;
  }

  // What a quantifier triggered by this says is looked into only where Asked is asserted of
  // something, which keeps large invariants out of proofs that only hand them on.
  predicate Asked(k: nat) { true }

  // ---- division ---------------------------------------------------------------

  lemma {:induction false} AtLeast(a: int, u: nat)
    requires a > 0
    ensures a * u >= u
  {
    assert a * u == (a - 1) * u + u;
  }

  lemma {:induction false} DivIs(n: int, u: nat, q: int, r: nat)
    requires r < u && n == q * u + r
    ensures n / u == q && n % u == r
  {
    var q1, r1 := n / u, n % u;
    assert (q1 - q) * u == r - r1 by { assert n == q1 * u + r1; }
    if q1 > q {
      AtLeast(q1 - q, u);
    } else if q1 < q {
      assert (q - q1) * u == r1 - r;
      AtLeast(q - q1, u);
    }
  }

  lemma {:induction false} DivTwice(x: nat, a: nat, y: nat)
    requires a > 0 && y > 0
    ensures a * y > 0 && x / (a * y) == x / a / y
  {
    var k, s := x / a, x % a;
    var q, r := k / y, k % y;
    Regroup(a, y, q, r);
    RemainderBelow(a, y, r, s);
    DivIs(x, a * y, q, a * r + s);
  }

  lemma {:induction false} Regroup(a: int, y: int, q: int, r: int)
    ensures a * (q * y + r) == q * (a * y) + a * r && a * (y * q + r) == q * (a * y) + a * r
  {
    assert a * (q * y) == q * (a * y);
  }

  lemma {:induction false} RemainderBelow(a: nat, y: nat, r: nat, s: nat)
    requires s < a && r < y
    ensures 0 <= a * r + s < a * y
  {
    AtLeast(y - r, a);
    assert (y - r) * a == a * y - a * r;
  }
}
