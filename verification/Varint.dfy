// Base 128 varints: the byte grammar, the value a reader computes, the minimal encoding.
module Varint {
  import opened Wrappers
  import opened MachineWord
  import opened WireErrors

  // The grammar: one to ten bytes, a continuation bit on all but the last.
  predicate IsVarint(bs: seq<byte>) {
    1 <= |bs| <= 10 && bs[|bs| - 1] < 128 && forall i :: 0 <= i < |bs| - 1 ==> bs[i] >= 128
  }

  // The number its seven-bit digits spell, least significant first.
  function Digits(bs: seq<byte>): nat {
    if bs == [] then 0 else bs[0] % 128 + 128 * Digits(bs[1..])
  }

  // The 64-bit word a reader makes of it: bits beyond the 64th are lost.
  function Word(bs: seq<byte>): uint64 {
    Digits(bs) % TWO_64
  }

  // The minimal encoding.
  function Encode(v: nat): (bs: seq<byte>)
    ensures |bs| > 0
  {
    if v < 128 then [v] else [v % 128 + 128] + Encode(v / 128)
  }

  // `sovMessage`, the size predicted before anything is written.
  function Sov(x: nat): nat {
    (Len64(BitOr(x, 1)) + 6) / 7
  }

  // What reading a varint leaves behind: the bits accumulated, the bytes consumed and the error, if any.
  datatype Reading = Reading(raw: nat, n: nat, err: Option<Error>)

  function ReadRaw(s: seq<byte>, k: nat): (r: Reading)
    ensures r.n <= |s|
    ensures r.err.None? ==> r.n > 0
  {
    if k >= 10 then Reading(0, 0, Some(IntOverflow))
    else if s == [] then Reading(0, 0, Some(UnexpectedEOF))
    else if s[0] < 128 then Reading(s[0], 1, None)
    else
      var r := ReadRaw(s[1..], k + 1);
      Reading(s[0] - 128 + 128 * r.raw, r.n + 1, r.err)
  }

  datatype Value = Value(value: uint64, n: nat, err: Option<Error>)

  function Read(s: seq<byte>): (r: Value)
    ensures r.n <= |s|
    ensures r.err.None? ==> r.n > 0
  {
    var r := ReadRaw(s, 0);
    Value(r.raw % TWO_64, r.n, r.err)
  }

  function Pow128(k: nat): (r: nat)
    ensures r > 0
  {
    if k == 0 then 1 else 128 * Pow128(k - 1)
  }

  // ----- the reader against the grammar

  lemma {:induction false} ReadRawComplete(bs: seq<byte>, t: seq<byte>, k: nat)
    requires |bs| > 0 && |bs| + k <= 10 && bs[|bs| - 1] < 128
    requires forall i :: 0 <= i < |bs| - 1 ==> bs[i] >= 128
    ensures ReadRaw(bs + t, k) == Reading(Digits(bs), |bs|, None)
  {
    assert (bs + t)[0] == bs[0];
    if |bs| == 1 {
      assert Digits(bs[1..]) == 0;
    } else {
      assert (bs + t)[1..] == bs[1..] + t;
      ReadRawComplete(bs[1..], t, k + 1);
    }
  }

  lemma {:induction false} ReadRawSound(s: seq<byte>, k: nat)
    requires ReadRaw(s, k).err.None?
    ensures var r := ReadRaw(s, k);
            && 1 <= r.n <= 10 - k && s[r.n - 1] < 128
            && (forall i :: 0 <= i < r.n - 1 ==> s[i] >= 128)
            && Digits(s[..r.n]) == r.raw
  {
    var r := ReadRaw(s, k);
    if s[0] < 128 {
      assert Digits(s[..1][1..]) == 0;
    } else {
      ReadRawSound(s[1..], k + 1);
      assert s[..r.n][1..] == s[1..][..r.n - 1];
    }
  }

  // Every varint is read whole, whatever follows it ...
  lemma ReadComplete(bs: seq<byte>, t: seq<byte>)
    requires IsVarint(bs)
    ensures Read(bs + t) == Value(Word(bs), |bs|, None)
  {
    ReadRawComplete(bs, t, 0);
  }

  // ... and nothing but a varint is read.
  lemma ReadSound(s: seq<byte>)
    requires Read(s).err.None?
    ensures IsVarint(s[..Read(s).n]) && Word(s[..Read(s).n]) == Read(s).value
  {
    ReadRawSound(s, 0);
  }

  lemma ReadLocal(s: seq<byte>, t: seq<byte>)
    requires Read(s).err.None?
    ensures Read(s + t) == Read(s)
  {
    var n := Read(s).n;
    ReadSound(s);
    ReadComplete(s[..n], s[n..]);
    ReadComplete(s[..n], s[n..] + t);
    assert s[..n] + s[n..] == s;
    assert s[..n] + (s[n..] + t) == s + t;
  }

  // ----- the writer against the grammar

  lemma {:induction false} EncodeIsMinimalVarint(v: nat, k: nat)
    requires v < Pow128(k)
    requires k > 0
    ensures |Encode(v)| <= k
    ensures Encode(v)[|Encode(v)| - 1] < 128
    ensures forall i :: 0 <= i < |Encode(v)| - 1 ==> Encode(v)[i] >= 128
    ensures Digits(Encode(v)) == v
  {
    if v < 128 {
      assert Digits([v][1..]) == 0;
    } else {
      assert k > 1 by { assert Pow128(1) == 128 * Pow128(0); }
      EncodeIsMinimalVarint(v / 128, k - 1);
      assert Encode(v)[1..] == Encode(v / 128);
    }
  }

  lemma Pow128Ten()
    ensures TWO_64 <= Pow128(10)
  {
    assert Pow128(5) == 34359738368;
    assert Pow128(10) == 128 * (128 * (128 * (128 * (128 * Pow128(5)))));
  }

  lemma EncodeIsVarint(v: uint64)
    ensures IsVarint(Encode(v)) && Digits(Encode(v)) == v
  {
    Pow128Ten();
    EncodeIsMinimalVarint(v, 10);
  }

  // Round trip, whatever follows.
  lemma ReadEncode(v: uint64, t: seq<byte>)
    ensures Read(Encode(v) + t) == Value(v, |Encode(v)|, None)
  {
    EncodeIsVarint(v);
    ReadComplete(Encode(v), t);
  }

  lemma {:induction false} EncodeLengthMonotone(v: nat, w: nat)
    requires v <= w
    ensures |Encode(v)| <= |Encode(w)|
    decreases w
  {
    if v >= 128 { EncodeLengthMonotone(v / 128, w / 128); }
  }

  lemma {:induction false} DigitsNeedBytes(bs: seq<byte>)
    requires bs != []
    ensures |Encode(Digits(bs))| <= |bs|
  {
    var d := Digits(bs);
    if |bs| == 1 {
      assert Digits(bs[1..]) == 0;
    } else {
      DigitsNeedBytes(bs[1..]);
      assert d / 128 == Digits(bs[1..]);
    }
  }

  // No accepted varint is shorter than the encoding of its value.
  lemma ReadNeedsEncode(s: seq<byte>)
    requires Read(s).err.None?
    ensures |Encode(Read(s).value)| <= Read(s).n
  {
    ReadSound(s);
    var bs := s[..Read(s).n];
    DigitsNeedBytes(bs);
    EncodeLengthMonotone(Read(s).value, Digits(bs));
  }

  // ----- the size formula

  // Seven binary digits make one base-128 digit.
  lemma LenOfQuotient(x: nat)
    requires x >= 128
    ensures Len64(x) == 7 + Len64(x / 128)
  {
    assert Len64(x) == 2 + Len64(x / 4) by { assert x / 2 / 2 == x / 4; }
    assert Len64(x / 4) == 2 + Len64(x / 16) by { assert x / 4 / 2 / 2 == x / 16; }
    assert Len64(x / 16) == 2 + Len64(x / 64) by { assert x / 16 / 2 / 2 == x / 64; }
    assert Len64(x / 64) == 1 + Len64(x / 128) by { assert x / 64 / 2 == x / 128; }
  }

  lemma {:induction false} SovOfPositive(x: nat)
    requires x > 0
    ensures (Len64(x) + 6) / 7 == |Encode(x)|
  {
    ShiftSeven(1);
    if x < 128 {
      assert Len64(x) <= 7 by { LenBound(x, 7); }
      assert Len64(x) >= 1;
    } else {
      LenOfQuotient(x);
      SovOfPositive(x / 128);
    }
  }

  lemma {:induction false} LenBound(x: nat, k: nat)
    requires x < Shift(1, k)
    ensures Len64(x) <= k
  {
    if k > 0 { LenBound(x / 2, k - 1); }
  }

  // `sov` predicts exactly the bytes the writer produces, between one and ten for a 64-bit word.
  lemma SovIsEncodedLength(x: nat)
    ensures Sov(x) == |Encode(x)|
    ensures x < TWO_64 ==> 1 <= Sov(x) <= 10
  {
    if x == 0 {
      SovOfPositive(1);
    } else {
      OrOne(x);
      SovOfPositive(x);
    }
    if x < TWO_64 { EncodeIsVarint(x); }
  }

  // Setting the lowest bit never changes the number of digits of a positive number.
  lemma OrOne(x: nat)
    requires x > 0
    ensures Len64(BitOr(x, 1)) == Len64(x)
  {
    assert BitOr(x, 1) == 2 * BitOr(x / 2, 0) + 1;
    assert BitOr(x / 2, 0) == x / 2;
    assert BitOr(x, 1) / 2 == x / 2;
  }

  // ----- the loops

  lemma ContinuationByte(w: nat)
    ensures BitOr(w % 0x80, 0x80) == w % 128 + 128
  {
    ShiftSeven(1);
    OrOfDisjointBits(w % 128, 1, 7);
  }

  // `encodeVarintMessage`: writes the varint so that it ends just before `offset`.
  method EncodeVarint(dAtA: array<byte>, offset: nat, v: uint64) returns (base: nat)
    requires Sov(v) <= offset <= dAtA.Length
    modifies dAtA
    ensures base == offset - |Encode(v)|
    ensures dAtA[..] == old(dAtA[..base]) + Encode(v) + old(dAtA[offset..])
  {
    hide BitOr, Sov, Encode;
    SovIsEncodedLength(v);
    var o := offset - Sov(v);
    base := o;
    var w := v;
    ghost var done: seq<byte> := [];
    ghost var rest := dAtA[offset..];
    while w >= 0x80
      invariant base <= o && o + |Encode(w)| == offset
      invariant done + Encode(w) == Encode(v)
      invariant dAtA[..o] == old(dAtA[..base]) + done
      invariant dAtA[offset..] == rest
    {
      ContinuationByte(w);
      EncodeStep(done, w);
      done := done + [w % 128 + 128];
      PutByte(dAtA, o, BitOr(w % 0x80, 0x80), offset);
      w := w / 0x80;
      o := o + 1;
    }
    EncodeLast(w);
    PutByte(dAtA, o, w, offset);
    assert dAtA[..] == dAtA[..offset] + dAtA[offset..];
  }

  lemma EncodeStep(done: seq<byte>, w: nat)
    requires w >= 128
    ensures (done + [w % 128 + 128]) + Encode(w / 128) == done + Encode(w)
    ensures |Encode(w)| == |Encode(w / 128)| + 1
  {
  }

  lemma EncodeLast(w: nat)
    requires w < 128
    ensures Encode(w) == [w]
  {
  }

  // `dAtA[o] = b`, seen as growing the prefix that is final and leaving the bytes from `offset` on.
  method PutByte(dAtA: array<byte>, o: nat, b: byte, ghost offset: nat)
    requires o < offset <= dAtA.Length
    modifies dAtA
    ensures dAtA[..o + 1] == old(dAtA[..o]) + [b]
    ensures dAtA[offset..] == old(dAtA[offset..])
    ensures dAtA[o + 1..] == old(dAtA[o + 1..])
  {
    dAtA[o] := b;
  }

  lemma ShiftDigit(x: nat, s: nat)
    ensures Shift(x, s + 7) == 128 * Shift(x, s) == Shift(128 * x, s)
  {
    ShiftTwice(x, s, 7);
    ShiftSeven(Shift(x, s));
    ShiftTwice(x, 7, s);
    ShiftSeven(x);
  }

  // Nine digits fill 63 bits, so the tenth has room for its lowest bit only.
  lemma ShiftValues()
    ensures Shift(1, 63) == TWO_63 && Shift(1, 64) == TWO_64
  {
    ShiftDigit(1, 0); ShiftDigit(1, 7); ShiftDigit(1, 14); ShiftDigit(1, 21); ShiftDigit(1, 28);
    ShiftDigit(1, 35); ShiftDigit(1, 42); ShiftDigit(1, 49); ShiftDigit(1, 56);
  }

  lemma {:induction false} ShiftGrows(s: nat, t: nat)
    requires s <= t
    ensures Shift(1, s) <= Shift(1, t)
  {
    if s < t { ShiftGrows(s, t - 1); }
  }

  lemma {:induction false} ShiftedOut(h: nat)
    ensures Shift(h, 64) % TWO_64 == 0
  {
    if h > 0 {
      ShiftAdds(h - 1, 1, 64);
      ShiftValues();
      ShiftedOut(h - 1);
    } else {
      ShiftZero(64);
    }
  }

  lemma {:induction false} ShiftZero(s: nat)
    ensures Shift(0, s) == 0
  {
    if s > 0 { ShiftZero(s - 1); }
  }

  // A digit shifted into place and or-ed into the digits below it is added there, modulo 2^64.
  lemma OrDigit(acc: nat, d: nat, k: nat)
    requires k < 10 && acc < Shift(1, 7 * k) && d < 128
    ensures acc < TWO_64 && acc + Shift(d, 7 * k) < Shift(1, 7 * (k + 1))
    ensures BitOr(acc, Shl64(d, 7 * k)) == (acc + Shift(d, 7 * k)) % TWO_64
  {
    hide Shift, BitOr;
    var s := 7 * k;
    ShiftValues();
    ShiftGrows(s, 63);
    ShiftMonotone(d, 127, s);
    ShiftAdds(127, 1, s);
    ShiftDigit(1, s);
    if k < 9 {
      ShiftGrows(s + 7, 63);
      WordIsItself(Shift(d, s));
      OrOfDisjointBits(acc, d, s);
      WordIsItself(acc + Shift(d, s));
    } else {
      TopDigit(acc, d);
    }
  }

  lemma ShiftOne(x: nat)
    ensures Shift(x, 1) == 2 * x
  {
  }

  lemma TopDigit(acc: nat, d: nat)
    requires acc < Shift(1, 63) && d < 128
    ensures BitOr(acc, Shl64(d, 63)) == (acc + Shift(d, 63)) % TWO_64
  {
    hide Shift, BitOr;
    var h := d / 2;
    var top, lost := Shift(d % 2, 63), Shift(2 * h, 63);
    assert Shift(d, 63) == top + lost by { ShiftAdds(d % 2, 2 * h, 63); }
    assert lost % TWO_64 == 0 by { ShiftOne(h); ShiftTwice(h, 1, 63); ShiftedOut(h); }
    assert Shift(1, 63) == TWO_63 by { ShiftValues(); }
    assert top <= TWO_63 by { ShiftMonotone(d % 2, 1, 63); }
    DropMultiple(top, lost);
    DropMultiple(acc + top, lost);
    OrOfDisjointBits(acc, d % 2, 63);
  }

  lemma WordIsItself(x: nat)
    requires x < TWO_64
    ensures x % TWO_64 == x
  {
  }

  lemma DropMultiple(x: nat, lost: nat)
    requires x < TWO_64 && lost % TWO_64 == 0
    ensures (x + lost) % TWO_64 == x
  {
  }

  lemma OrIsWord(v: uint64, d: nat, k: nat)
    ensures BitOr(v, Shl64(d, 7 * k)) < TWO_64
  {
    ShiftValues();
    OrBound(v, Shl64(d, 7 * k), 64);
  }

  // The loop of `Unmarshal` as it stands, iteration by iteration: shift, mask and or on a 64-bit word.
  function ReadWord(s: seq<byte>, k: nat, v: uint64): Value {
    if 7 * k >= 64 then Value(v, 0, Some(IntOverflow))
    else if s == [] then Value(v, 0, Some(UnexpectedEOF))
    else
      OrIsWord(v, s[0] % 0x80, k);
      var v' := BitOr(v, Shl64(s[0] % 0x80, 7 * k));
      if s[0] < 0x80 then Value(v', 1, None)
      else var r := ReadWord(s[1..], k + 1, v'); Value(r.value, r.n + 1, r.err)
  }

  lemma {:induction false} ReadWordAccumulates(s: seq<byte>, k: nat, acc: nat, v: uint64)
    requires k <= 10 && acc < Shift(1, 7 * k) && v == acc % TWO_64
    ensures var r, w := ReadRaw(s, k), ReadWord(s, k, v);
            && w.value == (acc + Shift(r.raw, 7 * k)) % TWO_64
            && w.n == r.n && w.err == r.err
  {
    hide Shift, BitOr, Shl64;
    if k == 10 || s == [] {
      ShiftZero(7 * k);
    } else {
      var d := s[0] % 128;
      OrDigit(acc, d, k);
      assert v == acc by { WordIsItself(acc); }
      var acc' := acc + Shift(d, 7 * k);
      if s[0] >= 128 {
        var rest := ReadRaw(s[1..], k + 1);
        assert ReadRaw(s, k).raw == d + 128 * rest.raw;
        ShiftAdds(d, 128 * rest.raw, 7 * k);
        ShiftDigit(rest.raw, 7 * k);
        assert 7 * k + 7 == 7 * (k + 1);
        assert acc + Shift(ReadRaw(s, k).raw, 7 * k) == acc' + Shift(rest.raw, 7 * (k + 1));
        ReadWordAccumulates(s[1..], k + 1, acc', acc' % TWO_64);
        assert ReadWord(s, k, v).value == ReadWord(s[1..], k + 1, acc' % TWO_64).value;
      } else {
        assert ReadRaw(s, k).raw == d;
      }
    }
  }

  // Truncating shifts and ors compute the number modulo 2^64.
  lemma ReadWordIsRead(s: seq<byte>)
    ensures ReadWord(s, 0, 0) == Read(s)
  {
    ReadWordAccumulates(s, 0, 0, 0);
  }

  // The varint loop of `Unmarshal` and `skipMessage`, with its cutoff at shift 64.
  method ReadVarint(dAtA: seq<byte>, from: nat) returns (v: uint64, iNdEx: nat, err: Option<Error>)
    requires from <= |dAtA|
    ensures iNdEx >= from && Value(v, iNdEx - from, err) == Read(dAtA[from..])
  {
    ReadWordIsRead(dAtA[from..]);
    v, iNdEx := 0, from;
    var shift := 0;
    ghost var k: nat := 0;
    while true
      invariant shift == 7 * k && k <= 10 && iNdEx == from + k <= |dAtA|
      invariant var rest := ReadWord(dAtA[iNdEx..], k, v);
                Value(rest.value, k + rest.n, rest.err) == ReadWord(dAtA[from..], 0, 0)
      decreases 10 - k
    {
      if shift >= 64 {
        return v, iNdEx, Some(IntOverflow);
      }
      if iNdEx >= |dAtA| {
        return v, iNdEx, Some(UnexpectedEOF);
      }
      var b := dAtA[iNdEx];
      iNdEx := iNdEx + 1;
      OrIsWord(v, b % 0x80, k);
      v := BitOr(v, Shl64(b % 0x80, shift));
      if b < 0x80 {
        return v, iNdEx, None;
      }
      k := k + 1;
      shift := shift + 7;
    }
  }

  // The loop of `skipMessage` that steps over a varint without keeping its value.
  method SkipVarint(dAtA: seq<byte>, from: nat) returns (iNdEx: nat, err: Option<Error>)
    requires from <= |dAtA|
    ensures iNdEx == from + Read(dAtA[from..]).n && err == Read(dAtA[from..]).err
  {
    iNdEx := from;
    var shift := 0;
    ghost var k: nat := 0;
    ghost var whole := ReadRaw(dAtA[from..], 0);
    while true
      invariant shift == 7 * k && k <= 10 && iNdEx == from + k <= |dAtA|
      invariant var rest := ReadRaw(dAtA[iNdEx..], k);
                whole.n == k + rest.n && whole.err == rest.err
      decreases 10 - k
    {
      if shift >= 64 {
        return iNdEx, Some(IntOverflow);
      }
      if iNdEx >= |dAtA| {
        return iNdEx, Some(UnexpectedEOF);
      }
      iNdEx := iNdEx + 1;
      if dAtA[iNdEx - 1] < 0x80 {
        return iNdEx, None;
      }
      k := k + 1;
      shift := shift + 7;
    }
  }

  // ----- bits that are lost

  lemma {:induction false} DigitsTop(bs: seq<byte>, k: nat)
    requires |bs| == k + 1
    ensures Digits(bs) == Digits(bs[..k]) + Shift(bs[k] % 128, 7 * k) && Digits(bs[..k]) < Shift(1, 7 * k)
    decreases k
  {
    if k == 0 {
      assert Digits(bs[1..]) == 0;
    } else {
      DigitsTop(bs[1..], k - 1);
      assert bs[..k][1..] == bs[1..][..k - 1];
      ShiftDigit(bs[k] % 128, 7 * (k - 1));
      ShiftDigit(1, 7 * (k - 1));
    }
  }

  // A varint is read as the number it spells exactly unless it has a tenth byte with more than its lowest bit.
  lemma BitsAreKeptIff(bs: seq<byte>)
    requires IsVarint(bs)
    ensures Read(bs).value == Digits(bs) <==> |bs| < 10 || bs[9] < 2
  {
    hide Read, Digits, Shift;
    ReadComplete(bs, []);
    assert bs + [] == bs;
    var k := |bs| - 1;
    DigitsTop(bs, k);
    ShiftValues();
    if k < 9 {
      ShiftMonotone(bs[k], 127, 7 * k);
      ShiftAdds(127, 1, 7 * k);
      ShiftDigit(1, 7 * k);
      ShiftGrows(7 * k + 7, 63);
    } else if bs[9] < 2 {
      ShiftMonotone(bs[9], 1, 63);
    } else {
      ShiftMonotone(2, bs[9], 63);
      ShiftAdds(1, 1, 63);
    }
  }

  // The lowest bit lost: 2^64 is read as 0.
  lemma BitsAreLost()
    ensures var bs := [0x80, 0x80, 0x80, 0x80, 0x80, 0x80, 0x80, 0x80, 0x80, 0x02];
            Digits(bs) == TWO_64 && Read(bs) == Value(0, 10, None)
  {
    hide Read, Digits, Shift;
    var zeros := [0x80, 0x80, 0x80, 0x80, 0x80, 0x80, 0x80, 0x80, 0x80];
    var bs := [0x80, 0x80, 0x80, 0x80, 0x80, 0x80, 0x80, 0x80, 0x80, 0x02];
    ReadComplete(bs, []);
    assert bs + [] == bs;
    DigitsTop(bs, 9);
    assert bs[..9] == zeros;
    DigitsOfZeros(zeros);
    ShiftAdds(1, 1, 63);
    ShiftValues();
  }

  lemma {:induction false} DigitsOfZeros(bs: seq<byte>)
    requires forall i :: 0 <= i < |bs| ==> bs[i] == 0x80
    ensures Digits(bs) == 0
  {
    if bs != [] { DigitsOfZeros(bs[1..]); }
  }
}
