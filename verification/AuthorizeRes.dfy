// `AuthorizeRes` of the auth service: one boolean.
module AuthorizeRes {
  import opened Wrappers
  import opened MachineWord
  import opened WireErrors
  import opened Records
  import opened Marshalling
  import opened CodecLaws
  import RecordProofs
  import Varint

  datatype Msg = Msg(authorized: bool, unrecognized: seq<byte>)

  const ZERO := Msg(false, [])

  // The varint goes to a local variable, so a failed read assigns nothing.
  const SCHEMA: Schema := [Integer(false)]

  function Assign(m: Msg, r: Record): Msg {
    match r
    case Number(1, value) => m.(authorized := value != 0)
    case Unknown(bytes) => m.(unrecognized := m.unrecognized + bytes)
    case _ => m
  }

  function AssignAll(m: Msg, recs: seq<Record>): Msg {
    Fold(Assign, m, recs)
  }

  function Decode(m: Msg, s: seq<byte>, off: nat): Decoded<Msg> {
    DecodeInto(SCHEMA, Assign, m, s, off)
  }

  function KnownRecords(m: Msg): seq<Record> {
    NonZero(1, if m.authorized then 1 else 0)
  }

  function Encode(m: Msg): seq<byte> {
    (if m.authorized then [0x08, 1] else []) + m.unrecognized
  }

  class AuthorizeRes {
    var authorized: bool
    var unrecognized: seq<byte>

    constructor ()
      ensures Value() == ZERO
    {
      authorized, unrecognized := false, [];
    }

    function Value(): Msg
      reads this
    {
      Msg(authorized, unrecognized)
    }

    method Size() returns (n: nat)
      ensures n == |Encode(Value())|
    {
      n := 0;
      if authorized {
        n := n + 2;
      }
      n := n + |unrecognized|;
    }

    method MarshalToSizedBuffer(dAtA: array<byte>, len: nat) returns (n: nat)
      requires |Encode(Value())| <= len <= dAtA.Length && len < TWO_63
      modifies dAtA
      ensures n == |Encode(Value())|
      ensures dAtA[..] == old(dAtA[..len - n]) + Encode(Value()) + old(dAtA[len..])
    {
      hide Filled, EncodeAll;
      ghost var orig := dAtA[..];
      var i := len;
      FilledStart(orig, len);
      i := PutBytes(dAtA, i, unrecognized, orig, []);
      assert unrecognized + [] == unrecognized;
      if authorized {
        i := PutTag(dAtA, i, if authorized then 1 else 0, orig, unrecognized);
        i := PutTag(dAtA, i, 0x08, orig, [1] + unrecognized);
        TagThenFlag(unrecognized);
      } else {
        assert [] + unrecognized == unrecognized;
      }
      n := len - i;
      FilledEnd(dAtA[..], orig, i, Encode(Value()));
    }

    method UnmarshalField(dAtA: seq<byte>, from: nat) returns (iNdEx: nat, err: Option<Error>)
      requires from < |dAtA| < TWO_63
      modifies this
      ensures match StepAt(SCHEMA, dAtA[from..], from)
              case Stop(partial, e) => err == Some(e) && Value() == AssignAll(old(Value()), partial)
              case Next(rec, n) =>
                err == None && iNdEx == from + n <= |dAtA| && Value() == Assign(old(Value()), rec)
    {
      hide StepAt, StepDelimited, StepUnknown;
      var fieldNum, wireType;
      fieldNum, wireType, iNdEx, err := ReadTag(dAtA, from, SCHEMA);
      if err.Some? {
        return;
      }
      if fieldNum == 1 {
        if wireType != 0 {
          err := Some(WrongWireType(wireType, fieldNum));
          return;
        }
        var word: uint64;
        word, iNdEx, err := Varint.ReadVarint(dAtA, iNdEx);
        if err.Some? {
          return;
        }
        var v := ToInt64(word);
        authorized := v != 0;
      } else {
        var bytes;
        bytes, iNdEx, err := ReadUnknown(dAtA, from);
        if err.Some? {
          return;
        }
        unrecognized := unrecognized + bytes;
      }
    }

    method Unmarshal(dAtA: seq<byte>) returns (err: Option<Error>)
      requires |dAtA| < TWO_63
      modifies this
      ensures Decoded(Value(), err) == Decode(old(Value()), dAtA, 0)
    {
      hide StepAt, Assign;
      var l := |dAtA|;
      var iNdEx := 0;
      while iNdEx < l
        invariant iNdEx <= l
        invariant Decode(old(Value()), dAtA, 0) == Decode(Value(), dAtA[iNdEx..], iNdEx)
      {
        var from := iNdEx;
        iNdEx, err := UnmarshalField(dAtA, from);
        if err.Some? {
          return;
        }
        assert dAtA[from..][iNdEx - from..] == dAtA[iNdEx..];
      }
      err := None;
    }
  }

  lemma TagThenFlag(rest: seq<byte>)
    ensures [0x08] + ([1] + rest) == [0x08, 1] + rest
  {
  }

  // ----- the laws

  // Known fields keep their last record, unknown bytes accumulate in wire order.
  lemma {:induction false} DecodedFields(m: Msg, recs: seq<Record>)
    ensures AssignAll(m, recs) == Msg(
              match LastNumber(recs, 1) case Some(v) => v != 0 case None => m.authorized,
              m.unrecognized + UnknownBytes(recs))
    decreases |recs|
  {
    hide Fold;
    if recs != [] {
      RecordProofs.FoldLast(Assign, m, recs);
      DecodedFields(m, recs[..|recs| - 1]);
    } else {
      RecordProofs.FoldNone(Assign, m);
    }
  }

  lemma EncodeIsRecords(m: Msg)
    ensures Encode(m) == EncodeAll(KnownRecords(m)) + m.unrecognized
  {
    EncodeNonZero(1, 1);
    EncodeNonZero(1, 0);
    RecordProofs.EncodeTag(8);
    RecordProofs.EncodeTag(1);
  }

  lemma KnownRecordsFit(m: Msg)
    ensures AllFit(SCHEMA, KnownRecords(m))
  {
  }

  lemma AssignKnown(m: Msg)
    ensures AssignAll(ZERO, KnownRecords(m)) == m.(unrecognized := [])
  {
    RecordProofs.FoldOptional(Assign, ZERO, KnownRecords(m));
  }

  lemma AssignGrows(m: Msg, r: Record)
    requires Fits(SCHEMA, r)
    ensures |Encode(Assign(m, r))| <= |Encode(m)| + |EncodeRecord(r)|
  {
    hide Optional, NonZero, EncodeAll, Varint.Encode;
    match r
    case Number(num, value) =>
      RecordProofs.EncodeTag(8);
    case Unknown(bytes) =>
  }

  const CODEC: Codec<Msg> := Codec(SCHEMA, Assign, ZERO, KnownRecords, (m: Msg) => m.unrecognized, Encode)

  lemma CodecKeepsUnknowns()
    ensures KeepsUnknowns(CODEC)
  {
    forall m: Msg, a: seq<byte>, b: seq<byte> ensures AppendsInSteps(CODEC, m, a, b) {
      assert m.unrecognized + [] == m.unrecognized;
      assert m.unrecognized + a + b == m.unrecognized + (a + b);
    }
    assert forall m: Msg, r: Record :: KeepsUnknown(CODEC, m, r);
  }

  lemma CodecWrites(m: Msg)
    ensures Writes(CODEC, m)
  {
    hide Fold, Fits, EncodeAll, KnownRecords, Encode;
    EncodeIsRecords(m);
    if |Encode(m)| < TWO_63 { KnownRecordsFit(m); }
    AssignKnown(m);
    assert [] + m.unrecognized == m.unrecognized;
  }

  lemma CodecIsLawful()
    ensures Lawful(CODEC)
  {
    assert Encode(ZERO) == [];
    hide KeepsUnknowns, Writes, Fits, Encode, Assign, EncodeRecord;
    CodecKeepsUnknowns();
    forall m: Msg ensures Writes(CODEC, m) {
      CodecWrites(m);
    }
    forall m: Msg, r: Record ensures GrowsBy(CODEC, m, r) {
      if Fits(SCHEMA, r) { AssignGrows(m, r); }
    }
  }

  // `Unmarshal(Marshal(m))` gives m back exactly when m's unrecognised bytes are well-formed unknown fields.
  lemma RoundTrip(m: Msg)
    requires |Encode(m)| < TWO_63
    ensures Decode(ZERO, Encode(m), 0) == Decoded(m, None) <==> UnknownStream(SCHEMA, m.unrecognized)
  {
    hide Encode, DecodeInto, UnknownStream;
    CodecIsLawful();
    CodecLaws.RoundTrip(CODEC, m);
  }

  // Decoding then encoding takes no more bytes than the input had, and is a fixpoint.
  lemma CanonicalisationFixpoint(s: seq<byte>)
    requires |s| < TWO_63 && Decode(ZERO, s, 0).err.None?
    ensures var m := Decode(ZERO, s, 0).msg;
            |Encode(m)| <= |s| && Decode(ZERO, Encode(m), 0) == Decoded(m, None)
  {
    hide Encode, DecodeInto;
    CodecIsLawful();
    CodecLaws.Canonicalisation(CODEC, s);
  }
}
