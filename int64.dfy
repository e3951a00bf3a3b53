/** Go's `int64`: balances and amounts are 64-bit two's-complement integers, and
    Go's `+`, `-` and unary `-` on them wrap around silently. */
module Int64 {

  const Min: int := -0x8000_0000_0000_0000
  const Max: int := 0x7fff_ffff_ffff_ffff
  const Modulus: int := 0x1_0000_0000_0000_0000

  type int64 = x: int | Min <= x <= Max

  /** The int64 that Go's arithmetic yields for the mathematical value `x`. */
  function Wrap(x: int): (r: int64)
    ensures (r - x) % Modulus == 0
    ensures Min <= x <= Max ==> r == x
  {
    var q := (x - Min) / Modulus;
    assert x - Min == q * Modulus + (x - Min) % Modulus;
    (x - Min) % Modulus + Min
  }

  /** Go's `a + b`. */
  function Add(a: int64, b: int64): (r: int64)
    ensures Min <= a + b <= Max ==> r == a + b
    ensures (r - (a + b)) % Modulus == 0
  {
    Wrap(a + b)
  }

  /** Go's `a - b`. */
  function Sub(a: int64, b: int64): (r: int64)
    ensures Min <= a - b <= Max ==> r == a - b
    ensures (r - (a - b)) % Modulus == 0
  {
    Wrap(a - b)
  }

  /** Go's `-a`; the one input it does not negate is the minimum itself. */
  function Neg(a: int64): (r: int64)
    ensures a != Min ==> r == -a
    ensures a == Min ==> r == Min
  {
    Wrap(-(a as int))
  }

  /** Two values that differ by a multiple of 2^64 wrap to the same int64. */
  lemma WrapCongruent(x: int, y: int)
    requires (x - y) % Modulus == 0
    ensures Wrap(x) == Wrap(y)
  {
    var k := (x - y) / Modulus;
    assert x - y == k * Modulus;
    var qx, rx := (x - Min) / Modulus, (x - Min) % Modulus;
    var qy, ry := (y - Min) / Modulus, (y - Min) % Modulus;
    assert x - Min == qx * Modulus + rx;
    assert y - Min == qy * Modulus + ry;
    assert rx - ry == (k - qx + qy) * Modulus;
  }

  /** Wrapping an intermediate result changes nothing: `Wrap(Wrap(x) + d) == Wrap(x + d)`. */
  lemma WrapInner(x: int, d: int)
    ensures Wrap(Wrap(x) + d) == Wrap(x + d)
  {
    var w := Wrap(x);
    var k := (w - x) / Modulus;
    assert w - x == k * Modulus;
    assert (w + d) - (x + d) == k * Modulus;
    WrapCongruent(w + d, x + d);
  }

  /** Subtracting then adding back the same amount restores any int64. */
  lemma SubThenAdd(b: int64, a: int64)
    ensures Add(Sub(b, a), a) == b
  {
    WrapInner(b - a, a);
  }

  /** What one side loses is what was taken: `b - (b - a) == a` in int64 arithmetic. */
  lemma SubSub(b: int64, a: int64)
    ensures Sub(b, Sub(b, a)) == a
  {
    var w := Wrap(b - a);
    var k := (w - (b - a)) / Modulus;
    assert w - (b - a) == k * Modulus;
    assert (b - w) - a == -k * Modulus;
    WrapCongruent(b - w, a);
  }

  /** What the other side gains is what was given: `(b + a) - b == a`. */
  lemma AddSub(b: int64, a: int64)
    ensures Sub(Add(b, a), b) == a
  {
    WrapInner(b + a, -(b as int));
  }

  /** Subtracting `a` from a running difference extends the difference by `a`. */
  lemma SubAccumulates(x: int64, b: int, before: int, a: int64, after: int)
    requires x == Wrap(b - before) && after == before + a
    ensures Sub(x, a) == Wrap(b - after)
  {
    WrapInner(b - before, -(a as int));
  }

  /** Adding `a` to a running sum extends the sum by `a`. */
  lemma AddAccumulates(x: int64, b: int, before: int, a: int64, after: int)
    requires x == Wrap(b + before) && after == before + a
    ensures Add(x, a) == Wrap(b + after)
  {
    WrapInner(b + before, a);
  }
}
