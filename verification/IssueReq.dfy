// `IssueReq` of the auth service: two strings and a 32-bit integer.
module IssueReq {
  import opened Wrappers
  import opened MachineWord
  import opened WireErrors
  import opened Records
  import opened Marshalling
  import opened CodecLaws
  import RecordProofs
  import Varint
  import opened Varint32

  datatype Msg = Msg(id: seq<byte>, email: seq<byte>, kind: uint32, unrecognized: seq<byte>)

  const ZERO := Msg([], [], 0, [])

  const SCHEMA: Schema := [LengthDelimited, LengthDelimited, Integer(true)]

  // Assigning one record. The integer is read in 32 bits, which is the 64-bit value modulo 2^32.
  function Assign(m: Msg, r: Record): Msg {
    match r
    case Delimited(1, data) => m.(id := data)
    case Delimited(2, data) => m.(email := data)
    case Number(3, value) => m.(kind := value % TWO_32)
    case Unknown(bytes) => m.(unrecognized := m.unrecognized + bytes)
    case _ => m
  }

  function AssignAll(m: Msg, recs: seq<Record>): Msg {
    Fold(Assign, m, recs)
  }

  function Decode(m: Msg, s: seq<byte>, off: nat): Decoded<Msg> {
    DecodeInto(SCHEMA, Assign, m, s, off)
  }

  function KnownRecords(m: Msg): seq<Record> {
    Optional(1, m.id) + (Optional(2, m.email) + NonZero(3, m.kind))
  }

  function Encode(m: Msg): seq<byte> {
    EncodeAll(Optional(1, m.id)) + (EncodeAll(Optional(2, m.email)) + (EncodeAll(NonZero(3, m.kind)) + m.unrecognized))
  }

  class IssueReq {
    var id: seq<byte>
    var email: seq<byte>
    var kind: uint32
    var unrecognized: seq<byte>

    constructor ()
      ensures Value() == ZERO
    {
      id, email, kind, unrecognized := [], [], 0, [];
    }

    function Value(): Msg
      reads this
    {
      Msg(id, email, kind, unrecognized)
    }

    method Size() returns (n: nat)
      ensures n == |Encode(Value())|
    {
      n := 0;
      n := n + SizeOptional(|id|);
      n := n + SizeOptional(|email|);
      n := n + SizeNonZero(kind);
      n := n + |unrecognized|;
      SizeOptionalExact(1, id);
      SizeOptionalExact(2, email);
      SizeNonZeroExact(3, kind);
    }

    method MarshalToSizedBuffer(dAtA: array<byte>, len: nat) returns (n: nat)
      requires |Encode(Value())| <= len <= dAtA.Length && len < TWO_63
      modifies dAtA
      ensures n == |Encode(Value())|
      ensures dAtA[..] == old(dAtA[..len - n]) + Encode(Value()) + old(dAtA[len..])
    {
      hide Optional, NonZero, EncodeAll, Filled;
      ghost var orig := dAtA[..];
      ghost var done := unrecognized;
      var i := len;
      FilledStart(orig, len);
      i := PutBytes(dAtA, i, unrecognized, orig, []);
      assert unrecognized + [] == done;
      i := PutNonZero(dAtA, i, 0x18, kind, orig, done);
      done := EncodeAll(NonZero(3, kind)) + done;
      i := PutOptional(dAtA, i, 0x12, email, orig, done);
      done := EncodeAll(Optional(2, email)) + done;
      i := PutOptional(dAtA, i, 0x0a, id, orig, done);
      n := len - i;
      FilledEnd(dAtA[..], orig, i, Encode(Value()));
    }

    method UnmarshalField(dAtA: seq<byte>, from: nat) returns (iNdEx: nat, err: Option<Error>)
      requires from < |dAtA| < TWO_63
      modifies this
      ensures match StepAt(SCHEMA, dAtA[from..], from)
              case Stop(partial, e) => err == Some(e) && Value() == AssignAll(old(Value()), partial)
              case Next(rec, n) =>
                err == None && iNdEx == from + n <= |dAtA| && Value() == Assign(old(Value()), rec)
    {
      hide StepAt, StepDelimited, StepUnknown;
      var fieldNum, wireType;
      fieldNum, wireType, iNdEx, err := ReadTag(dAtA, from, SCHEMA);
      if err.Some? {
        return;
      }
      ghost var n := iNdEx - from;
      if 1 <= fieldNum <= 2 {
        if wireType != 2 {
          err := Some(WrongWireType(wireType, fieldNum));
          return;
        }
        var data;
        data, iNdEx, err := ReadDelimited(dAtA, iNdEx, fieldNum, n);
        if err.Some? {
          return;
        }
        if fieldNum == 1 {
          id := data;
        } else {
          email := data;
        }
      } else if fieldNum == 3 {
        if wireType != 0 {
          err := Some(WrongWireType(wireType, fieldNum));
          return;
        }
        ghost var word := Varint.Read(dAtA[iNdEx..]).value;
        kind, iNdEx, err := ReadVarint32(dAtA, iNdEx);
        RecordProofs.FoldOne(Assign, old(Value()), Number(3, word));
      } else {
        var bytes;
        bytes, iNdEx, err := ReadUnknown(dAtA, from);
        if err.Some? {
          return;
        }
        unrecognized := unrecognized + bytes;
      }
    }

    method Unmarshal(dAtA: seq<byte>) returns (err: Option<Error>)
      requires |dAtA| < TWO_63
      modifies this
      ensures Decoded(Value(), err) == Decode(old(Value()), dAtA, 0)
    {
      hide StepAt, Assign;
      var l := |dAtA|;
      var iNdEx := 0;
      while iNdEx < l
        invariant iNdEx <= l
        invariant Decode(old(Value()), dAtA, 0) == Decode(Value(), dAtA[iNdEx..], iNdEx)
      {
        var from := iNdEx;
        iNdEx, err := UnmarshalField(dAtA, from);
        if err.Some? {
          return;
        }
        assert dAtA[from..][iNdEx - from..] == dAtA[iNdEx..];
      }
      err := None;
    }
  }

  // ----- the laws

  // Known fields keep their last record, unknown bytes accumulate in wire order.
  lemma {:induction false} DecodedFields(m: Msg, recs: seq<Record>)
    ensures AssignAll(m, recs) == Msg(
              LastData(recs, 1, m.id), LastData(recs, 2, m.email),
              match LastNumber(recs, 3) case Some(v) => v % TWO_32 case None => m.kind,
              m.unrecognized + UnknownBytes(recs))
    decreases |recs|
  {
    hide Fold;
    if recs != [] {
      RecordProofs.FoldLast(Assign, m, recs);
      DecodedFields(m, recs[..|recs| - 1]);
    } else {
      RecordProofs.FoldNone(Assign, m);
    }
  }

  // A field is written exactly when it is not empty or zero.
  lemma WrittenIff(m: Msg, num: nat, data: seq<byte>, value: uint64)
    ensures Delimited(num, data) in KnownRecords(m) <==> data != [] && 1 <= num <= 2 && data == [m.id, m.email][num - 1]
    ensures Number(num, value) in KnownRecords(m) <==> num == 3 && value != 0 && value == m.kind
  {
  }

  lemma EncodeIsRecords(m: Msg)
    ensures Encode(m) == EncodeAll(KnownRecords(m)) + m.unrecognized
  {
    hide EncodeAll, Optional, NonZero;
    var o1, o2, o3 := Optional(1, m.id), Optional(2, m.email), NonZero(3, m.kind);
    RecordProofs.EncodeAllConcat(o2, o3);
    RecordProofs.EncodeAllConcat(o1, o2 + o3);
  }

  lemma KnownRecordsFit(m: Msg)
    requires |Encode(m)| < TWO_63
    ensures AllFit(SCHEMA, KnownRecords(m))
  {
    hide EncodeAll, Optional, NonZero, AllFit;
    OptionalFits(SCHEMA, 1, m.id);
    OptionalFits(SCHEMA, 2, m.email);
    NonZeroFits(SCHEMA, 3, m.kind);
    FitConcat(SCHEMA, Optional(2, m.email), NonZero(3, m.kind));
    FitConcat(SCHEMA, Optional(1, m.id), Optional(2, m.email) + NonZero(3, m.kind));
  }

  lemma AssignKnown(m: Msg)
    ensures AssignAll(ZERO, KnownRecords(m)) == m.(unrecognized := [])
  {
    hide Fold;
    var o1, o2, o3 := Optional(1, m.id), Optional(2, m.email), NonZero(3, m.kind);
    RecordProofs.FoldConcat(Assign, ZERO, o1, o2 + o3);
    RecordProofs.FoldOptional(Assign, ZERO, o1);
    var m1 := ZERO.(id := m.id);
    RecordProofs.FoldConcat(Assign, m1, o2, o3);
    RecordProofs.FoldOptional(Assign, m1, o2);
    RecordProofs.FoldOptional(Assign, m1.(email := m.email), o3);
  }

  lemma AssignGrows(m: Msg, r: Record)
    requires Fits(SCHEMA, r)
    ensures |Encode(Assign(m, r))| <= |Encode(m)| + |EncodeRecord(r)|
  {
    hide Optional, NonZero, EncodeAll, Varint.Encode;
    match r
    case Delimited(num, data) =>
      EncodeOptional(num, data);
    case Number(num, value) =>
      EncodeNonZero(num, value);
      EncodeNonZero(num, value % TWO_32);
      Varint.EncodeLengthMonotone(value % TWO_32, value);
    case Unknown(bytes) =>
  }

  const CODEC: Codec<Msg> := Codec(SCHEMA, Assign, ZERO, KnownRecords, (m: Msg) => m.unrecognized, Encode)

  lemma CodecKeepsUnknowns()
    ensures KeepsUnknowns(CODEC)
  {
    forall m: Msg, a: seq<byte>, b: seq<byte> ensures AppendsInSteps(CODEC, m, a, b) {
      assert m.unrecognized + [] == m.unrecognized;
      assert m.unrecognized + a + b == m.unrecognized + (a + b);
    }
    assert forall m: Msg, r: Record :: KeepsUnknown(CODEC, m, r);
  }

  lemma CodecWrites(m: Msg)
    ensures Writes(CODEC, m)
  {
    hide Fold, Fits, EncodeAll, KnownRecords, Encode;
    EncodeIsRecords(m);
    if |Encode(m)| < TWO_63 { KnownRecordsFit(m); }
    AssignKnown(m);
    assert [] + m.unrecognized == m.unrecognized;
  }

  lemma CodecIsLawful()
    ensures Lawful(CODEC)
  {
    assert Encode(ZERO) == [];
    hide KeepsUnknowns, Writes, Fits, Encode, Assign, EncodeRecord;
    CodecKeepsUnknowns();
    forall m: Msg ensures Writes(CODEC, m) {
      CodecWrites(m);
    }
    forall m: Msg, r: Record ensures GrowsBy(CODEC, m, r) {
      if Fits(SCHEMA, r) { AssignGrows(m, r); }
    }
  }

  // `Unmarshal(Marshal(m))` gives m back exactly when m's unrecognised bytes are well-formed unknown fields.
  lemma RoundTrip(m: Msg)
    requires |Encode(m)| < TWO_63
    ensures Decode(ZERO, Encode(m), 0) == Decoded(m, None) <==> UnknownStream(SCHEMA, m.unrecognized)
  {
    hide Encode, DecodeInto, UnknownStream;
    CodecIsLawful();
    CodecLaws.RoundTrip(CODEC, m);
  }

  // Decoding then encoding takes no more bytes than the input had, and is a fixpoint.
  lemma CanonicalisationFixpoint(s: seq<byte>)
    requires |s| < TWO_63 && Decode(ZERO, s, 0).err.None?
    ensures var m := Decode(ZERO, s, 0).msg;
            |Encode(m)| <= |s| && Decode(ZERO, Encode(m), 0) == Decoded(m, None)
  {
    hide Encode, DecodeInto;
    CodecIsLawful();
    CodecLaws.Canonicalisation(CODEC, s);
  }
}
