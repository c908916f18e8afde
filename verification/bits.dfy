/** Shifts, masks and bitwise or on Python ints: unbounded, and two's complement below zero. */
module Bits {

  function Pow2(k: nat): (p: nat)
    ensures p >= 1
  {
    if k == 0 then 1 else 2 * Pow2(k - 1)
  }

  /** `x << k`. */
  function Shl(x: int, k: nat): int { x * Pow2(k) }

  /** `x >> k`, which rounds down. */
  function Shr(x: int, k: nat): int { x / Pow2(k) }

  function Magnitude(a: int): nat { if a < 0 then -a else a }

  /** `a | b`. */
  function BitOr(a: int, b: int): int
    decreases Magnitude(a) + Magnitude(b)
  {
    if a == 0 then b
    else if b == 0 then a
    else if a == -1 || b == -1 then -1
    else 2 * BitOr(a / 2, b / 2) + (if a % 2 == 1 || b % 2 == 1 then 1 else 0)
  }

  /** `a & b`. */
  function BitAnd(a: int, b: int): int
    decreases Magnitude(a) + Magnitude(b)
  {
    if a == 0 || b == 0 then 0
    else if a == -1 then b
    else if b == -1 then a
    else 2 * BitAnd(a / 2, b / 2) + (if a % 2 == 1 && b % 2 == 1 then 1 else 0)
  }

  lemma MulDouble(x: int, p: int)
    ensures x * (2 * p) == 2 * (x * p)
  {
  }

  /** Or-ing a value into the low bits a shift has cleared is adding it, also for a negative left side. */
  lemma {:induction false} OrDisjoint(x: int, k: nat, y: int)
    requires 0 <= y < Pow2(k)
    ensures BitOr(Shl(x, k), y) == Shl(x, k) + y
  {
    if k > 0 {
      OrDisjoint(x, k - 1, y / 2);
      MulDouble(x, Pow2(k - 1));
      assert Shl(x, k) == 2 * Shl(x, k - 1);
      assert Shl(x, k) / 2 == Shl(x, k - 1) && Shl(x, k) % 2 == 0;
    }
  }

  lemma ModDouble(x: int, p: int)
    requires p >= 1
    ensures x % (2 * p) == 2 * ((x / 2) % p) + x % 2
  {
    var q := (x / 2) / p;
    var r := 2 * ((x / 2) % p) + x % 2;
    assert x / 2 == q * p + (x / 2) % p;
    MulDouble(q, p);
    assert x == q * (2 * p) + r && 0 <= r < 2 * p;
    DivModUnique(x, 2 * p, q, r);
  }

  lemma AtLeastOnce(n: int, d: int)
    requires n >= 1 && d >= 1
    ensures n * d >= d
  {
    assert n * d == d + (n - 1) * d;
  }

  lemma DivModUnique(x: int, d: int, q: int, r: int)
    requires d >= 1 && x == q * d + r && 0 <= r < d
    ensures x / d == q && x % d == r
  {
    var q1, r1 := x / d, x % d;
    var n := q1 - q;
    assert q1 * d == q * d + n * d;
    assert n * d == r - r1;
    if n >= 1 { AtLeastOnce(n, d); }
    if n <= -1 {
      AtLeastOnce(-n, d);
    }
  }

  /** And-ing with a mask of `k` ones is the remainder modulo 2^k, also for negative values. */
  lemma {:induction false} AndMask(x: int, k: nat)
    ensures BitAnd(x, Pow2(k) - 1) == x % Pow2(k)
    decreases k
  {
    if k > 0 {
      AndMask(x / 2, k - 1);
      MaskStep(x, Pow2(k - 1));
    }
  }

  lemma MaskStep(x: int, p: int)
    requires p >= 1 && BitAnd(x / 2, p - 1) == (x / 2) % p
    ensures BitAnd(x, 2 * p - 1) == x % (2 * p)
  {
    HalfMask(p);
    MaskBit(x, 2 * p - 1, p - 1, (x / 2) % p);
    ModDouble(x, p);
  }

  lemma AndBit(x: int, mask: int)
    requires mask >= 1
    ensures BitAnd(x, mask) == 2 * BitAnd(x / 2, mask / 2) + (if x % 2 == 1 && mask % 2 == 1 then 1 else 0)
  {
  }

  /** One bit of it. */
  lemma MaskBit(x: int, mask: int, half: int, high: int)
    requires mask >= 1 && mask % 2 == 1 && half == mask / 2 && BitAnd(x / 2, half) == high
    ensures BitAnd(x, mask) == 2 * high + x % 2
  {
    AndBit(x, mask);
  }

  lemma HalfMask(p: int)
    ensures (2 * p - 1) / 2 == p - 1 && (2 * p - 1) % 2 == 1
  {
  }

  /** A counter one past the mask wraps to 0, any smaller one stays. */
  lemma MaskWraps(x: int, k: nat)
    requires 0 <= x <= Pow2(k)
    ensures BitAnd(x, Pow2(k) - 1) == if x == Pow2(k) then 0 else x
  {
    var p := Pow2(k);
    AndMask(x, k);
    if x == p { DivModUnique(x, p, 1, 0); } else { DivModUnique(x, p, 0, x); }
  }

  /** Reading the two fields of a number back. */
  lemma FieldsOf(n: int, k: nat, p: int, high: int, low: int)
    requires Pow2(k) == p && n == high * p + low && 0 <= low < p
    ensures Shr(n, k) == high && BitAnd(n, p - 1) == low
  {
    AndMask(n, k);
    DivModUnique(n, p, high, low);
  }

  lemma Distribute(x: int, room: int, y: int, p: int)
    ensures x * (room * p) + y * p == (x * room + y) * p
  {
  }

  /** Or-ing in the next field below: the fields so far and it form one number at the lower shift. */
  lemma OrField(x: int, high: nat, y: int, low: nat, room: int)
    requires Pow2(high) == room * Pow2(low) && 0 <= y < room
    ensures BitOr(Shl(x, high), Shl(y, low)) == Shl(x * room + y, low)
  {
    var p := Pow2(low);
    AtLeastOnce(room - y, p);
    assert room * p == y * p + (room - y) * p;
    if y > 0 { AtLeastOnce(y, p); }
    OrDisjoint(x, high, y * p);
    Distribute(x, room, y, p);
  }
}
