// Machine words: the fixed-width integers and the bit operations the codec is written with.
module MachineWord {

  const TWO_31: int := 0x8000_0000
  const TWO_32: int := 0x1_0000_0000
  const TWO_63: int := 0x8000_0000_0000_0000
  const TWO_64: int := 0x1_0000_0000_0000_0000

  type byte = b: int | 0 <= b < 256
  type uint64 = x: int | 0 <= x < TWO_64
  type int64 = x: int | -TWO_63 <= x < TWO_63

  // Conversions wrap: `int32(x)`, `int(x)`, `uint32(x)` and `uint64(x)`.
  function ToInt32(x: int): (r: int)
    ensures -TWO_31 <= r < TWO_31
    ensures (r - x) % TWO_32 == 0
  {
    var w := x % TWO_32;
    if w < TWO_31 then w else w - TWO_32
  }

  function ToInt64(x: int): (r: int64)
    ensures (r - x) % TWO_64 == 0
  {
    var w := x % TWO_64;
    if w < TWO_63 then w else w - TWO_64
  }

  function ToUint64(x: int): (r: uint64)
    ensures (r - x) % TWO_64 == 0
  {
    x % TWO_64
  }

  // `x << s` on unbounded numbers: x moved up s binary places.
  function Shift(x: nat, s: nat): nat {
    if s == 0 then x else 2 * Shift(x, s - 1)
  }

  // `a | b`, one binary digit at a time.
  function BitOr(a: nat, b: nat): nat
    decreases a + b
  {
    if a == 0 then b
    else if b == 0 then a
    else 2 * BitOr(a / 2, b / 2) + (if a % 2 == 1 || b % 2 == 1 then 1 else 0)
  }

  // `x << s` on a 64-bit word: digits shifted past bit 63 are lost.
  function Shl64(x: nat, s: nat): uint64 {
    Shift(x, s) % TWO_64
  }

  // `bits.Len64(x)`: the number of binary digits of x.
  function Len64(x: nat): nat {
    if x == 0 then 0 else 1 + Len64(x / 2)
  }

  // Or-ing a number moved up s places into one below 2^s is addition.
  lemma {:induction false} OrOfDisjointBits(a: nat, q: nat, s: nat)
    requires a < Shift(1, s)
    ensures BitOr(a, Shift(q, s)) == a + Shift(q, s)
  {
    if s > 0 && a > 0 && Shift(q, s) > 0 { OrOfDisjointBits(a / 2, q, s - 1); }
  }

  // Or-ing words gives a word.
  lemma {:induction false} OrBound(a: nat, b: nat, s: nat)
    requires a < Shift(1, s) && b < Shift(1, s)
    ensures BitOr(a, b) < Shift(1, s)
  {
    if s > 0 && a > 0 && b > 0 { OrBound(a / 2, b / 2, s - 1); }
  }

  lemma {:induction false} ShiftAdds(x: nat, y: nat, s: nat)
    ensures Shift(x + y, s) == Shift(x, s) + Shift(y, s)
  {
    if s > 0 { ShiftAdds(x, y, s - 1); }
  }

  lemma {:induction false} ShiftMonotone(x: nat, y: nat, s: nat)
    requires x <= y
    ensures Shift(x, s) <= Shift(y, s)
  {
    if s > 0 { ShiftMonotone(x, y, s - 1); }
  }

  lemma {:induction false} ShiftTwice(x: nat, s: nat, t: nat)
    ensures Shift(Shift(x, s), t) == Shift(x, s + t)
  {
    if t > 0 { ShiftTwice(x, s, t - 1); }
  }

  lemma ShiftSeven(x: nat)
    ensures Shift(x, 7) == 128 * x
  {
    assert Shift(x, 1) == 2 * x;
    assert Shift(x, 2) == 4 * x;
    assert Shift(x, 4) == 4 * Shift(x, 2);
    assert Shift(x, 6) == 4 * Shift(x, 4);
  }

  // Adding two lengths either fits an int or comes out negative, which is what the code tests for.
  lemma LengthSum(a: nat, b: nat)
    requires a < TWO_63 && b < TWO_63
    ensures if a + b < TWO_63 then ToInt64(a + b) == a + b else ToInt64(a + b) < 0
  {
  }
}
