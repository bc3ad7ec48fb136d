/** Integer facts shared by the index and counter arithmetic of the other modules. */
module Arith {

  const U16: nat := 0x1_0000
  const U32: nat := 0x1_0000_0000
  const U64: nat := 0x1_0000_0000_0000_0000

  function Min(a: int, b: int): int { if a <= b then a else b }

  function Max(a: int, b: int): int { if a >= b then a else b }

  function Abs(a: int): nat { if a < 0 then -a else a }

  /** Quotient and remainder are the only numbers that satisfy their defining equation. */
  lemma DivModUnique(x: int, c: int, q: int, r: int)
    requires c > 0 && x == c * q + r && 0 <= r < c
    ensures x / c == q && x % c == r
  {
    var d := x / c - q;
    assert c * d == r - x % c;
    assert d >= 1 ==> c * d >= c;
    assert d <= -1 ==> c * d <= -c;
  }

  /** Adding a multiple of the modulus changes nothing. */
  lemma ModShift(x: int, c: int, k: int)
    requires c > 0
    ensures (x + c * k) % c == x % c
    ensures (x + c * k) / c == x / c + k
  {
    DivModUnique(x + c * k, c, x / c + k, x % c);
  }

  /** A remainder may be taken before an addition. */
  lemma ModAdd(x: int, y: int, c: int)
    requires c > 0
    ensures (x % c + y) % c == (x + y) % c
  {
    ModShift(x % c + y, c, x / c);
    assert x % c + y + c * (x / c) == x + y;
  }

  /** Remainders subtract, as long as the true difference is a remainder itself. */
  lemma ModSub(a: int, b: int, c: int)
    requires c > 0 && b <= a < b + c
    ensures (a % c - b % c) % c == a - b
  {
    ModShift(a - b, c, b / c - a / c);
    assert a - b + c * (b / c - a / c) == a % c - b % c;
    DivModUnique(a - b, c, 0, a - b);
  }

  /** Numbers less than one modulus apart have different remainders. */
  lemma ModDistinct(a: int, b: int, c: int)
    requires c > 0 && b < a < b + c
    ensures a % c != b % c
  {
    ModSub(a, b, c);
    if a % c == b % c { DivModUnique(0, c, 0, 0); }
  }

  /** Reducing by a multiple of the modulus first is harmless. */
  lemma ModMod(x: int, c: int, k: int)
    requires c > 0 && k > 0
    ensures c * k > 0
    ensures (x % (c * k)) % c == x % c
  {
    var m := c * k;
    assert m >= c;
    ModShift(x % m, c, k * (x / m));
    assert x % m + c * (k * (x / m)) == x by {
      assert c * (k * (x / m)) == m * (x / m);
    }
  }
}
