// Varints accumulated in 32 bits, as the integer of `IssueReq` is: digits shifted beyond them are lost.
module Varint32 {
  import opened Wrappers
  import opened MachineWord
  import opened WireErrors
  import opened Varint

  type uint32 = x: int | 0 <= x < TWO_32

  // `x << s` on a 32-bit word, 0 once s reaches 32.
  function Shl32(x: nat, s: nat): uint32 {
    Shift(x, s) % TWO_32
  }

  // The n lowest binary digits of x, and what is above them.
  function Low(x: nat, n: nat): nat {
    if n == 0 then 0 else x % 2 + 2 * Low(x / 2, n - 1)
  }

  function High(x: nat, n: nat): nat {
    if n == 0 then x else High(x / 2, n - 1)
  }

  lemma {:induction false} LowHigh(x: nat, n: nat)
    ensures x == Low(x, n) + Shift(High(x, n), n) && Low(x, n) < Shift(1, n)
  {
    if n > 0 { LowHigh(x / 2, n - 1); }
  }

  lemma Shift32(x: nat)
    ensures Shift(x, 32) == TWO_32 * x
  {
    ShiftDigit(x, 0);
    ShiftDigit(x, 7);
    ShiftDigit(x, 14);
    ShiftDigit(x, 21);
    assert Shift(x, 29) == 2 * Shift(x, 28);
    assert Shift(x, 31) == 4 * Shift(x, 29);
    assert Shift(x, 32) == 2 * Shift(x, 31);
  }

  lemma LowIsMod(x: nat)
    ensures Low(x, 32) == x % TWO_32
  {
    hide Low, High, Shift;
    LowHigh(x, 32);
    Shift32(High(x, 32));
    Shift32(1);
    Remainder(Low(x, 32), High(x, 32));
  }

  lemma Remainder(low: nat, high: nat)
    requires low < TWO_32
    ensures (low + TWO_32 * high) % TWO_32 == low
  {
  }

  // Or works digit by digit.
  lemma OrDouble(x: nat, y: nat, p: nat, q: nat)
    requires x < 2 && y < 2
    ensures BitOr(x + 2 * p, y + 2 * q) == (if x == 1 || y == 1 then 1 else 0) + 2 * BitOr(p, q)
  {
    assert (x + 2 * p) / 2 == p && (y + 2 * q) / 2 == q;
    assert (x + 2 * p) % 2 == x && (y + 2 * q) % 2 == y;
  }

  lemma LowDouble(x: nat, p: nat, n: nat)
    requires x < 2
    ensures Low(x + 2 * p, n + 1) == x + 2 * Low(p, n)
  {
    assert (x + 2 * p) / 2 == p && (x + 2 * p) % 2 == x;
  }

  // Truncation distributes over or.
  lemma {:induction false} LowOr(a: nat, b: nat, n: nat)
    ensures Low(BitOr(a, b), n) == BitOr(Low(a, n), Low(b, n))
  {
    hide BitOr;
    if n > 0 {
      LowOr(a / 2, b / 2, n - 1);
      LowOrDouble(a % 2, b % 2, a / 2, b / 2, n - 1);
      Halves(a);
      Halves(b);
    } else {
      OrDouble(0, 0, 0, 0);
    }
  }

  lemma Halves(x: nat)
    ensures x == x % 2 + 2 * (x / 2)
  {
  }

  lemma LowOrDouble(x: nat, y: nat, p: nat, q: nat, n: nat)
    requires x < 2 && y < 2 && Low(BitOr(p, q), n) == BitOr(Low(p, n), Low(q, n))
    ensures Low(BitOr(x + 2 * p, y + 2 * q), n + 1) == BitOr(Low(x + 2 * p, n + 1), Low(y + 2 * q, n + 1))
  {
    hide BitOr, Low;
    OrDouble(x, y, p, q);
    LowDouble(x, p, n);
    LowDouble(y, q, n);
    LowDouble(if x == 1 || y == 1 then 1 else 0, BitOr(p, q), n);
    OrDouble(x, y, Low(p, n), Low(q, n));
  }

  // Or-ing one more digit into the truncated word truncates the word with that digit.
  lemma OrTruncated(v: nat, d: nat, s: nat)
    ensures BitOr(v % TWO_32, Shl32(d, s)) == BitOr(v, Shl64(d, s)) % TWO_32
  {
    hide Low, BitOr;
    LowOr(v, Shl64(d, s), 32);
    LowIsMod(v);
    LowIsMod(Shl64(d, s));
    LowIsMod(BitOr(v, Shl64(d, s)));
    ModMod(Shift(d, s));
  }

  lemma ModMod(x: nat)
    ensures x % TWO_64 % TWO_32 == x % TWO_32
  {
  }

  lemma OrIsWord32(v: uint32, d: nat, s: nat)
    ensures BitOr(v, Shl32(d, s)) < TWO_32
  {
    hide BitOr, Shl32, Shl64;
    assert v % TWO_32 == v;
    OrTruncated(v, d, s);
  }

  // The loop with a 32-bit accumulator, iteration by iteration.
  function ReadWord32(s: seq<byte>, k: nat, v: uint32): Value {
    if 7 * k >= 64 then Value(v, 0, Some(IntOverflow))
    else if s == [] then Value(v, 0, Some(UnexpectedEOF))
    else
      OrIsWord32(v, s[0] % 0x80, 7 * k);
      var v' := BitOr(v, Shl32(s[0] % 0x80, 7 * k));
      if s[0] < 0x80 then Value(v', 1, None)
      else var r := ReadWord32(s[1..], k + 1, v'); Value(r.value, r.n + 1, r.err)
  }

  lemma {:induction false} ReadWord32Truncates(s: seq<byte>, k: nat, v: uint64)
    ensures var r := ReadWord(s, k, v); ReadWord32(s, k, v % TWO_32) == Value(r.value % TWO_32, r.n, r.err)
    decreases |s|
  {
    hide BitOr, Shl32, Shl64;
    if 7 * k < 64 && s != [] {
      var d := s[0] % 0x80;
      OrTruncated(v, d, 7 * k);
      OrIsWord(v, d, k);
      ReadWord32Truncates(s[1..], k + 1, BitOr(v, Shl64(d, 7 * k)));
    }
  }

  // Accumulating in 32 bits reads the number modulo 2^32, also where the loop stops with an error.
  lemma ReadWord32IsRead(s: seq<byte>)
    ensures var r := Read(s); ReadWord32(s, 0, 0) == Value(r.value % TWO_32, r.n, r.err)
  {
    ReadWordIsRead(s);
    ReadWord32Truncates(s, 0, 0);
  }

  method ReadVarint32(dAtA: seq<byte>, from: nat) returns (v: uint32, iNdEx: nat, err: Option<Error>)
    requires from <= |dAtA|
    ensures iNdEx >= from
    ensures var r := Read(dAtA[from..]); Value(v, iNdEx - from, err) == Value(r.value % TWO_32, r.n, r.err)
  {
    hide BitOr, Shl32, Read;
    ReadWord32IsRead(dAtA[from..]);
    v, iNdEx := 0, from;
    var shift := 0;
    ghost var k: nat := 0;
    while true
      invariant shift == 7 * k && k <= 10 && iNdEx == from + k <= |dAtA|
      invariant var rest := ReadWord32(dAtA[iNdEx..], k, v);
                Value(rest.value, k + rest.n, rest.err) == ReadWord32(dAtA[from..], 0, 0)
      decreases 10 - k
    {
      if shift >= 64 {
        return v, iNdEx, Some(IntOverflow);
      }
      if iNdEx >= |dAtA| {
        return v, iNdEx, Some(UnexpectedEOF);
      }
      var b := dAtA[iNdEx];
      iNdEx := iNdEx + 1;
      OrIsWord32(v, b % 0x80, shift);
      v := BitOr(v, Shl32(b % 0x80, shift));
      if b < 0x80 {
        return v, iNdEx, None;
      }
      k := k + 1;
      shift := shift + 7;
    }
  }
}
