// The backward writer shared by every `MarshalToSizedBuffer`, and what all messages do with unknown bytes.
module Marshalling {
  import opened Wrappers
  import opened MachineWord
  import opened Records
  import RecordProofs
  import Varint

  // ----- optional records: fields with a zero value are not written

  function Optional(num: nat, data: seq<byte>): seq<Record> {
    if data == [] then [] else [Delimited(num, data)]
  }

  function NonZero(num: nat, value: uint64): seq<Record> {
    if value == 0 then [] else [Number(num, value)]
  }

  // ----- unknown bytes

  // The unknown bytes among the records, in order.
  function UnknownBytes(recs: seq<Record>): seq<byte>
    decreases |recs|
  {
    if recs == [] then []
    else
      var r := recs[|recs| - 1];
      UnknownBytes(recs[..|recs| - 1]) + (if r.Unknown? then r.bytes else [])
  }

  // The data of the last record for a field, or what the message held before.
  function LastData(recs: seq<Record>, num: nat, before: seq<byte>): seq<byte>
    decreases |recs|
  {
    if recs == [] then before
    else
      var r := recs[|recs| - 1];
      if r.Delimited? && r.num == num then r.data else LastData(recs[..|recs| - 1], num, before)
  }

  // The same for an integer field.
  function LastNumber(recs: seq<Record>, num: nat): Option<uint64>
    decreases |recs|
  {
    if recs == [] then None
    else
      var r := recs[|recs| - 1];
      if r.Number? && r.num == num then Some(r.value) else LastNumber(recs[..|recs| - 1], num)
  }

  ghost predicate AllUnknown(recs: seq<Record>) {
    forall i :: 0 <= i < |recs| ==> recs[i].Unknown?
  }

  // Bytes that are a concatenation of well-formed fields the schema does not know.
  ghost predicate UnknownStream(sch: Schema, u: seq<byte>) {
    exists us :: AllUnknown(us) && AllFit(sch, us) && EncodeAll(us) == u
  }

  // Whatever a schema leaves unknown in an accepted input is such a stream.
  lemma {:induction false} UnknownBytesStream(sch: Schema, recs: seq<Record>)
    requires AllFit(sch, recs)
    ensures UnknownStream(sch, UnknownBytes(recs))
    decreases |recs|
  {
    hide Fits;
    if recs == [] {
      assert AllUnknown([]) && AllFit(sch, []) && EncodeAll([]) == [];
    } else {
      var front, r := recs[..|recs| - 1], recs[|recs| - 1];
      UnknownBytesStream(sch, front);
      var us :| AllUnknown(us) && AllFit(sch, us) && EncodeAll(us) == UnknownBytes(front);
      if r.Unknown? {
        RecordProofs.EncodeAllConcat(us, [r]);
        EncodeOne(r);
        assert AllUnknown(us + [r]) && AllFit(sch, us + [r]);
      }
    }
  }

  // The condition can be tested: read the bytes and see only unknown records.
  lemma UnknownStreamIsTestable(sch: Schema, u: seq<byte>)
    requires |u| < TWO_63
    ensures UnknownStream(sch, u) <==> Accepts(sch, u, 0) && AllUnknown(Parse(sch, u, 0).recs)
  {
    hide Parse, Fits;
    if UnknownStream(sch, u) {
      var us :| AllUnknown(us) && AllFit(sch, us) && EncodeAll(us) == u;
      RecordProofs.ParseEncoded(sch, us, 0);
    }
    if Accepts(sch, u, 0) && AllUnknown(Parse(sch, u, 0).recs) {
      RecordProofs.ParseFits(sch, u, 0);
      RecordProofs.UnknownsEncodeToInput(sch, u, 0);
    }
  }

  lemma EncodeOptional(num: nat, data: seq<byte>)
    ensures EncodeAll(Optional(num, data)) == if data == [] then [] else EncodeRecord(Delimited(num, data))
  {
    if data != [] { EncodeOne(Delimited(num, data)); }
  }

  lemma EncodeNonZero(num: nat, value: uint64)
    ensures EncodeAll(NonZero(num, value)) == if value == 0 then [] else EncodeRecord(Number(num, value))
  {
    if value != 0 { EncodeOne(Number(num, value)); }
  }

  lemma EncodeOne(r: Record)
    ensures EncodeAll([r]) == EncodeRecord(r)
  {
    assert [r][1..] == [];
    assert EncodeAll([r][1..]) == [];
  }

  // ----- the records written fit the schema

  lemma OptionalFits(sch: Schema, num: nat, data: seq<byte>)
    requires 1 <= num <= |sch| && sch[num - 1].LengthDelimited? && |EncodeAll(Optional(num, data))| < TWO_63
    ensures AllFit(sch, Optional(num, data))
  {
    EncodeOptional(num, data);
  }

  lemma NonZeroFits(sch: Schema, num: nat, value: uint64)
    requires 1 <= num <= |sch| && sch[num - 1].Integer?
    ensures AllFit(sch, NonZero(num, value))
  {
  }

  lemma FitConcat(sch: Schema, a: seq<Record>, b: seq<Record>)
    requires AllFit(sch, a) && AllFit(sch, b)
    ensures AllFit(sch, a + b)
  {
    hide Fits;
  }

  // ----- the buffer: bytes [i, i + |done|) are final, everything else is as it was

  ghost predicate Filled(d: seq<byte>, orig: seq<byte>, i: nat, done: seq<byte>) {
    i + |done| <= |orig| && d == orig[..i] + done + orig[i + |done|..]
  }

  lemma FilledGrows(d: seq<byte>, orig: seq<byte>, i: nat, done: seq<byte>, d': seq<byte>, j: nat, x: seq<byte>)
    requires Filled(d, orig, i, done) && j + |x| == i
    requires d' == d[..j] + x + d[i..]
    ensures Filled(d', orig, j, x + done)
  {
    assert d[..j] == orig[..j];
    assert d[i..] == done + orig[i + |done|..];
    assert d[..j] + x + (done + orig[i + |done|..]) == d[..j] + (x + done) + orig[i + |done|..];
  }

  lemma FilledStart(orig: seq<byte>, len: nat)
    requires len <= |orig|
    ensures Filled(orig, orig, len, [])
  {
  }

  // The finished buffer: nothing in front of the cursor and nothing behind the slice has changed.
  lemma FilledEnd(d: seq<byte>, orig: seq<byte>, i: nat, done: seq<byte>)
    requires Filled(d, orig, i, done)
    ensures i + |done| <= |orig| && d == orig[..i] + done + orig[i + |done|..]
  {
  }

  // `i -= len(data); copy(dAtA[i:], data)`
  method PutBytes(dAtA: array<byte>, i: nat, data: seq<byte>, ghost orig: seq<byte>, ghost done: seq<byte>)
    returns (j: nat)
    requires |data| <= i && Filled(dAtA[..], orig, i, done)
    modifies dAtA
    ensures j + |data| == i && Filled(dAtA[..], orig, j, data + done)
  {
    ghost var before := dAtA[..];
    j := i - |data|;
    forall k | 0 <= k < |data| {
      dAtA[j + k] := data[k];
    }
    assert dAtA[..] == before[..j] + data + before[i..];
    FilledGrows(before, orig, i, done, dAtA[..], j, data);
  }

  method PutVarint(dAtA: array<byte>, i: nat, v: uint64, ghost orig: seq<byte>, ghost done: seq<byte>)
    returns (j: nat)
    requires |Varint.Encode(v)| <= i && Filled(dAtA[..], orig, i, done)
    modifies dAtA
    ensures j + |Varint.Encode(v)| == i && Filled(dAtA[..], orig, j, Varint.Encode(v) + done)
  {
    ghost var before := dAtA[..];
    Varint.SovIsEncodedLength(v);
    j := Varint.EncodeVarint(dAtA, i, v);
    assert before[..j] == old(dAtA[..j]) && before[i..] == old(dAtA[i..]);
    FilledGrows(before, orig, i, done, dAtA[..], j, Varint.Encode(v));
  }

  // `i--; dAtA[i] = tag`
  method PutTag(dAtA: array<byte>, i: nat, tag: byte, ghost orig: seq<byte>, ghost done: seq<byte>)
    returns (j: nat)
    requires 0 < i && Filled(dAtA[..], orig, i, done)
    modifies dAtA
    ensures j + 1 == i && Filled(dAtA[..], orig, j, [tag] + done)
  {
    ghost var before := dAtA[..];
    j := i - 1;
    dAtA[j] := tag;
    assert dAtA[..] == before[..j] + [tag] + before[i..];
    FilledGrows(before, orig, i, done, dAtA[..], j, [tag]);
  }

  // A length-delimited field: data, then its length in front, then the tag in front of that.
  method PutDelimited(
      dAtA: array<byte>, from: nat, tag: byte, data: seq<byte>, ghost orig: seq<byte>, ghost done: seq<byte>)
    returns (i: nat)
    requires tag < 128 && tag % 8 == 2 && from < TWO_63
    requires |EncodeRecord(Delimited(tag / 8, data))| <= from && Filled(dAtA[..], orig, from, done)
    modifies dAtA
    ensures i + |EncodeRecord(Delimited(tag / 8, data))| == from
    ensures Filled(dAtA[..], orig, i, EncodeRecord(Delimited(tag / 8, data)) + done)
  {
    hide Filled, Varint.Encode;
    RecordProofs.EncodeTag(tag);
    assert 8 * (tag / 8) + 2 == tag;
    i := PutBytes(dAtA, from, data, orig, done);
    i := PutVarint(dAtA, i, |data|, orig, data + done);
    i := PutTag(dAtA, i, tag, orig, Varint.Encode(|data|) + (data + done));
    assert [tag] + (Varint.Encode(|data|) + (data + done)) == ([tag] + Varint.Encode(|data|) + data) + done;
  }

  // `if len(data) > 0 { ... }`
  method PutOptional(
      dAtA: array<byte>, from: nat, tag: byte, data: seq<byte>, ghost orig: seq<byte>, ghost done: seq<byte>)
    returns (i: nat)
    requires tag < 128 && tag % 8 == 2 && from < TWO_63
    requires |EncodeAll(Optional(tag / 8, data))| <= from && Filled(dAtA[..], orig, from, done)
    modifies dAtA
    ensures i + |EncodeAll(Optional(tag / 8, data))| == from
    ensures Filled(dAtA[..], orig, i, EncodeAll(Optional(tag / 8, data)) + done)
  {
    hide Filled, EncodeRecord;
    EncodeOptional(tag / 8, data);
    i := from;
    if |data| > 0 {
      i := PutDelimited(dAtA, i, tag, data, orig, done);
    } else {
      assert [] + done == done;
    }
  }

  // `if v != 0 { ... }`
  method PutNonZero(dAtA: array<byte>, from: nat, tag: byte, v: uint64, ghost orig: seq<byte>, ghost done: seq<byte>)
    returns (i: nat)
    requires tag < 128 && tag % 8 == 0
    requires |EncodeAll(NonZero(tag / 8, v))| <= from && Filled(dAtA[..], orig, from, done)
    modifies dAtA
    ensures i + |EncodeAll(NonZero(tag / 8, v))| == from
    ensures Filled(dAtA[..], orig, i, EncodeAll(NonZero(tag / 8, v)) + done)
  {
    hide Filled, Varint.Encode;
    EncodeNonZero(tag / 8, v);
    RecordProofs.EncodeTag(tag);
    assert 8 * (tag / 8) == tag;
    i := from;
    if v != 0 {
      i := PutVarint(dAtA, i, v, orig, done);
      i := PutTag(dAtA, i, tag, orig, Varint.Encode(v) + done);
      assert [tag] + (Varint.Encode(v) + done) == ([tag] + Varint.Encode(v)) + done;
    } else {
      assert [] + done == done;
    }
  }

  // `1 + l + sov(l)`, or nothing for an empty string.
  function SizeOptional(l: nat): nat {
    if l > 0 then 1 + l + Varint.Sov(l) else 0
  }

  function SizeNonZero(v: uint64): nat {
    if v != 0 then 1 + Varint.Sov(v) else 0
  }

  lemma SizeOptionalExact(num: nat, data: seq<byte>)
    requires num <= 15
    ensures SizeOptional(|data|) == |EncodeAll(Optional(num, data))|
    ensures 1 + |data| + Varint.Sov(|data|) == |EncodeRecord(Delimited(num, data))|
  {
    RecordProofs.EncodeTag(8 * num + 2);
    EncodeOptional(num, data);
    Varint.SovIsEncodedLength(|data|);
  }

  lemma SizeNonZeroExact(num: nat, v: uint64)
    requires num <= 15
    ensures SizeNonZero(v) == |EncodeAll(NonZero(num, v))|
  {
    RecordProofs.EncodeTag(8 * num);
    EncodeNonZero(num, v);
    Varint.SovIsEncodedLength(v);
  }
}
