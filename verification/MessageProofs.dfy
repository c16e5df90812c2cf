// The laws of the `messaging.Message` codec.
module MessageProofs {
  import opened Wrappers
  import opened MachineWord
  import opened Records
  import opened Marshalling
  import opened Message
  import opened WireErrors
  import opened CodecLaws
  import RecordProofs
  import Varint

  // ----- decoding as assignment of records

  // 'Last One Wins': each known field is decided by its last record alone, unknown bytes are kept in order.
  lemma {:induction false} LastOneWins(m: Msg, recs: seq<Record>)
    ensures AssignAll(m, recs) == Msg(
              LastData(recs, 1, m.channel), LastData(recs, 2, m.subtopic), LastData(recs, 3, m.publisher),
              LastData(recs, 4, m.protocol), LastData(recs, 5, m.payload),
              match LastNumber(recs, 6) case Some(v) => ToInt64(v) case None => m.created,
              m.unrecognized + UnknownBytes(recs))
    decreases |recs|
  {
    hide Fold;
    if recs != [] {
      RecordProofs.FoldLast(Assign, m, recs);
      LastOneWins(m, recs[..|recs| - 1]);
    } else {
      RecordProofs.FoldNone(Assign, m);
    }
  }

  // Decoding a ++ b is decoding b into the result of a, errors included.
  lemma MergeByConcatenation(m: Msg, a: seq<byte>, b: seq<byte>, off: nat)
    requires off + |a| < TWO_63 && Decode(m, a, off).err.None?
    ensures Decode(m, a + b, off) == Decode(Decode(m, a, off).msg, b, off + |a|)
  {
    RecordProofs.MergeByConcatenation(SCHEMA, Assign, m, a, b, off);
  }

  // ----- the encoding as a record sequence

  lemma EncodeIsRecords(m: Msg)
    ensures Encode(m) == EncodeAll(KnownRecords(m)) + m.unrecognized
  {
    hide EncodeAll, Optional, NonZero;
    var o1, o2, o3, o4, o5, o6 := Optional(1, m.channel), Optional(2, m.subtopic), Optional(3, m.publisher),
                                  Optional(4, m.protocol), Optional(5, m.payload), NonZero(6, ToUint64(m.created));
    RecordProofs.EncodeAllConcat(o5, o6);
    RecordProofs.EncodeAllConcat(o4, o5 + o6);
    RecordProofs.EncodeAllConcat(o3, o4 + (o5 + o6));
    RecordProofs.EncodeAllConcat(o2, o3 + (o4 + (o5 + o6)));
    RecordProofs.EncodeAllConcat(o1, o2 + (o3 + (o4 + (o5 + o6))));
  }

  // Known records, in ascending order of their numbers, all above n.
  predicate AscendAbove(recs: seq<Record>, n: nat) {
    && (forall i :: 0 <= i < |recs| ==> !recs[i].Unknown? && recs[i].num > n)
    && forall i, j :: 0 <= i < j < |recs| ==> recs[i].num < recs[j].num
  }

  lemma AscendPrepended(own: seq<Record>, rest: seq<Record>, n: nat)
    requires AscendAbove(rest, n + 1)
    requires |own| <= 1 && (own != [] ==> !own[0].Unknown? && own[0].num == n + 1)
    ensures AscendAbove(own + rest, n)
  {
  }

  // Fields are written in ascending order of their numbers, each at most once.
  lemma RecordsAscend(m: Msg)
    ensures var recs := KnownRecords(m);
            && (forall i :: 0 <= i < |recs| ==> !recs[i].Unknown?)
            && forall i, j :: 0 <= i < j < |recs| ==> recs[i].num < recs[j].num
  {
    hide Optional, AscendAbove;
    var recs := LastRecord(ToUint64(m.created));
    recs := PrependOptional(5, m.payload, recs);
    recs := PrependOptional(4, m.protocol, recs);
    recs := PrependOptional(3, m.publisher, recs);
    recs := PrependOptional(2, m.subtopic, recs);
    recs := PrependOptional(1, m.channel, recs);
    AscendMeans(KnownRecords(m), 0);
  }

  // A field is written exactly when it is not empty or zero, as one record with its number and value.
  lemma WrittenIff(m: Msg, num: nat, data: seq<byte>, value: uint64)
    ensures Delimited(num, data) in KnownRecords(m) <==>
              && data != [] && 1 <= num <= 5
              && data == [m.channel, m.subtopic, m.publisher, m.protocol, m.payload][num - 1]
    ensures Number(num, value) in KnownRecords(m) <==> num == 6 && value != 0 && value == m.created % TWO_64
  {
  }

  lemma LastRecord(created: uint64) returns (recs: seq<Record>)
    ensures recs == NonZero(6, created) && AscendAbove(recs, 5)
  {
    recs := NonZero(6, created);
  }

  lemma AscendMeans(recs: seq<Record>, n: nat)
    requires AscendAbove(recs, n)
    ensures forall i :: 0 <= i < |recs| ==> !recs[i].Unknown?
    ensures forall i, j :: 0 <= i < j < |recs| ==> recs[i].num < recs[j].num
  {
  }

  lemma PrependOptional(num: nat, data: seq<byte>, rest: seq<Record>) returns (recs: seq<Record>)
    requires num > 0 && AscendAbove(rest, num)
    ensures recs == Optional(num, data) + rest && AscendAbove(recs, num - 1)
  {
    AscendPrepended(Optional(num, data), rest, num - 1);
    recs := Optional(num, data) + rest;
  }

  lemma KnownRecordsFit(m: Msg)
    requires |Encode(m)| < TWO_63
    ensures AllFit(SCHEMA, KnownRecords(m))
  {
    hide Optional, NonZero, EncodeAll, AllFit;
    var o1, o2, o3, o4, o5, o6 := Optional(1, m.channel), Optional(2, m.subtopic), Optional(3, m.publisher),
                                  Optional(4, m.protocol), Optional(5, m.payload), NonZero(6, ToUint64(m.created));
    OptionalFits(SCHEMA, 1, m.channel);
    OptionalFits(SCHEMA, 2, m.subtopic);
    OptionalFits(SCHEMA, 3, m.publisher);
    OptionalFits(SCHEMA, 4, m.protocol);
    OptionalFits(SCHEMA, 5, m.payload);
    NonZeroFits(SCHEMA, 6, ToUint64(m.created));
    FitConcat(SCHEMA, o5, o6);
    FitConcat(SCHEMA, o4, o5 + o6);
    FitConcat(SCHEMA, o3, o4 + (o5 + o6));
    FitConcat(SCHEMA, o2, o3 + (o4 + (o5 + o6)));
    FitConcat(SCHEMA, o1, o2 + (o3 + (o4 + (o5 + o6))));
  }

  // Assigning a message's own records to a zero message restores its known fields.
  lemma AssignKnown(m: Msg)
    ensures AssignAll(ZERO, KnownRecords(m)) == m.(unrecognized := [])
  {
    hide Fold;
    var o1, o2, o3, o4, o5, o6 := Optional(1, m.channel), Optional(2, m.subtopic), Optional(3, m.publisher),
                                  Optional(4, m.protocol), Optional(5, m.payload), NonZero(6, ToUint64(m.created));
    RecordProofs.FoldConcat(Assign, ZERO, o1, o2 + (o3 + (o4 + (o5 + o6))));
    RecordProofs.FoldOptional(Assign, ZERO, o1);
    var m1 := ZERO.(channel := m.channel);
    RecordProofs.FoldConcat(Assign, m1, o2, o3 + (o4 + (o5 + o6)));
    RecordProofs.FoldOptional(Assign, m1, o2);
    var m2 := m1.(subtopic := m.subtopic);
    RecordProofs.FoldConcat(Assign, m2, o3, o4 + (o5 + o6));
    RecordProofs.FoldOptional(Assign, m2, o3);
    var m3 := m2.(publisher := m.publisher);
    RecordProofs.FoldConcat(Assign, m3, o4, o5 + o6);
    RecordProofs.FoldOptional(Assign, m3, o4);
    var m4 := m3.(protocol := m.protocol);
    RecordProofs.FoldConcat(Assign, m4, o5, o6);
    RecordProofs.FoldOptional(Assign, m4, o5);
    var m5 := m4.(payload := m.payload);
    RecordProofs.FoldOptional(Assign, m5, o6);
    assert ToInt64(ToUint64(m.created)) == m.created;
  }

  lemma AssignGrows(m: Msg, r: Record)
    requires Fits(SCHEMA, r)
    ensures |Encode(Assign(m, r))| <= |Encode(m)| + |EncodeRecord(r)|
  {
    hide Optional, NonZero, EncodeAll, Varint.Encode;
    match r
    case Delimited(num, data) =>
      EncodeOptional(num, data);
    case Number(num, value) =>
      EncodeNonZero(num, value);
      assert ToUint64(ToInt64(value)) == value;
    case Unknown(bytes) =>
  }

  // ----- the laws

  const CODEC: Codec<Msg> := Codec(SCHEMA, Assign, ZERO, KnownRecords, (m: Msg) => m.unrecognized, Encode)

  lemma CodecKeepsUnknowns()
    ensures KeepsUnknowns(CODEC)
  {
    forall m: Msg, a: seq<byte>, b: seq<byte> ensures AppendsInSteps(CODEC, m, a, b) {
      assert m.unrecognized + [] == m.unrecognized;
      assert m.unrecognized + a + b == m.unrecognized + (a + b);
    }
    assert forall m: Msg, r: Record :: KeepsUnknown(CODEC, m, r);
  }

  lemma CodecWrites(m: Msg)
    ensures Writes(CODEC, m)
  {
    hide Fold, Fits, EncodeAll, KnownRecords, Encode;
    EncodeIsRecords(m);
    if |Encode(m)| < TWO_63 { KnownRecordsFit(m); }
    AssignKnown(m);
    assert [] + m.unrecognized == m.unrecognized;
  }

  lemma CodecIsLawful()
    ensures Lawful(CODEC)
  {
    assert Encode(ZERO) == [];
    hide KeepsUnknowns, Writes, Fits, Encode, Assign, EncodeRecord;
    CodecKeepsUnknowns();
    forall m: Msg ensures Writes(CODEC, m) {
      CodecWrites(m);
    }
    forall m: Msg, r: Record ensures GrowsBy(CODEC, m, r) {
      if Fits(SCHEMA, r) { AssignGrows(m, r); }
    }
  }

  // `Unmarshal(Marshal(m))` gives m back exactly when m's unrecognised bytes are well-formed unknown fields.
  lemma RoundTrip(m: Msg)
    requires |Encode(m)| < TWO_63
    ensures Decode(ZERO, Encode(m), 0) == Decoded(m, None) <==> UnknownStream(SCHEMA, m.unrecognized)
  {
    hide Encode, DecodeInto, UnknownStream;
    CodecIsLawful();
    CodecLaws.RoundTrip(CODEC, m);
  }

  // Unrecognised bytes that are not fields do break it: here a lone end-group tag.
  lemma RoundTripNeedsWellFormedUnknowns()
    ensures var m := ZERO.(unrecognized := [0x0c]);
            Decode(ZERO, Encode(m), 0).err == Some(EndGroupForNonGroup)
  {
    var m := ZERO.(unrecognized := [0x0c]);
    assert Encode(m) == [0x0c];
    RecordProofs.EncodeTag(0x0c);
    Varint.ReadComplete([0x0c], []);
    assert [0x0c] + [] == [0x0c];
  }

  // Decoding then encoding takes no more bytes than the input had, and is a fixpoint: overlong varints,
  // duplicates, aliased field numbers and nested unknown groups have settled.
  lemma CanonicalisationFixpoint(s: seq<byte>)
    requires |s| < TWO_63 && Decode(ZERO, s, 0).err.None?
    ensures var m := Decode(ZERO, s, 0).msg;
            |Encode(m)| <= |s| && Decode(ZERO, Encode(m), 0) == Decoded(m, None)
  {
    hide Encode, DecodeInto;
    CodecIsLawful();
    CodecLaws.Canonicalisation(CODEC, s);
  }
}
