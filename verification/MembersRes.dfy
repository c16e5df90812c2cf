// `MembersRes` of the auth service: integers, a string and a list of strings.
module MembersRes {
  import opened Wrappers
  import opened MachineWord
  import opened WireErrors
  import opened Records
  import opened Marshalling
  import opened CodecLaws
  import RecordProofs
  import Varint

  datatype Msg = Msg(
    total: uint64,
    offset: uint64,
    limit: uint64,
    kind: seq<byte>,
    members: seq<seq<byte>>,
    unrecognized: seq<byte>)

  const ZERO := Msg(0, 0, 0, [], [], [])

  const SCHEMA: Schema := [Integer(true), Integer(true), Integer(true), LengthDelimited, LengthDelimited]

  function Assign(m: Msg, r: Record): Msg {
    match r
    case Number(1, value) => m.(total := value)
    case Number(2, value) => m.(offset := value)
    case Number(3, value) => m.(limit := value)
    case Delimited(4, data) => m.(kind := data)
    case Delimited(5, data) => m.(members := m.members + [data])
    case Unknown(bytes) => m.(unrecognized := m.unrecognized + bytes)
    case _ => m
  }

  function AssignAll(m: Msg, recs: seq<Record>): Msg {
    Fold(Assign, m, recs)
  }

  function Decode(m: Msg, s: seq<byte>, off: nat): Decoded<Msg> {
    DecodeInto(SCHEMA, Assign, m, s, off)
  }

  // Every member is written, empty strings included, in list order.
  function MemberRecords(members: seq<seq<byte>>): seq<Record> {
    if members == [] then [] else [Delimited(5, members[0])] + MemberRecords(members[1..])
  }

  function KnownRecords(m: Msg): seq<Record> {
    NonZero(1, m.total) + (NonZero(2, m.offset) + (NonZero(3, m.limit)
    + (Optional(4, m.kind) + MemberRecords(m.members))))
  }

  function Encode(m: Msg): seq<byte> {
    EncodeAll(NonZero(1, m.total)) + (EncodeAll(NonZero(2, m.offset)) + (EncodeAll(NonZero(3, m.limit))
    + (EncodeAll(Optional(4, m.kind)) + (EncodeAll(MemberRecords(m.members)) + m.unrecognized))))
  }

  class MembersRes {
    var total: uint64
    var offset: uint64
    var limit: uint64
    var kind: seq<byte>
    var members: seq<seq<byte>>
    var unrecognized: seq<byte>

    constructor ()
      ensures Value() == ZERO
    {
      total, offset, limit, kind, members, unrecognized := 0, 0, 0, [], [], [];
    }

    function Value(): Msg
      reads this
    {
      Msg(total, offset, limit, kind, members, unrecognized)
    }

    method Size() returns (n: nat)
      ensures n == |Encode(Value())|
    {
      hide EncodeAll, MemberRecords, EncodeRecord, Varint.Sov, SizeOptional, SizeNonZero;
      n := 0;
      n := n + SizeNonZero(total);
      n := n + SizeNonZero(offset);
      n := n + SizeNonZero(limit);
      n := n + SizeOptional(|kind|);
      SizeNonZeroExact(1, total);
      SizeNonZeroExact(2, offset);
      SizeNonZeroExact(3, limit);
      SizeOptionalExact(4, kind);
      ghost var before := n;
      EncodeNone();
      for k := 0 to |members|
        invariant n == before + |EncodeAll(MemberRecords(members[..k]))|
      {
        MemberAppended(members[..k], members[k]);
        assert members[..k] + [members[k]] == members[..k + 1];
        SizeOptionalExact(5, members[k]);
        n := n + 1 + |members[k]| + Varint.Sov(|members[k]|);
      }
      assert members[..|members|] == members;
      n := n + |unrecognized|;
    }

    method MarshalToSizedBuffer(dAtA: array<byte>, len: nat) returns (n: nat)
      requires |Encode(Value())| <= len <= dAtA.Length && len < TWO_63
      modifies dAtA
      ensures n == |Encode(Value())|
      ensures dAtA[..] == old(dAtA[..len - n]) + Encode(Value()) + old(dAtA[len..])
    {
      hide Optional, NonZero, EncodeAll, Filled;
      ghost var orig := dAtA[..];
      ghost var done := unrecognized;
      var i := len;
      FilledStart(orig, len);
      i := PutBytes(dAtA, i, unrecognized, orig, []);
      assert unrecognized + [] == done;
      i := PutMembers(dAtA, i, orig, done);
      done := EncodeAll(MemberRecords(members)) + done;
      i := PutOptional(dAtA, i, 0x22, kind, orig, done);
      done := EncodeAll(Optional(4, kind)) + done;
      i := PutNonZero(dAtA, i, 0x18, limit, orig, done);
      done := EncodeAll(NonZero(3, limit)) + done;
      i := PutNonZero(dAtA, i, 0x10, offset, orig, done);
      done := EncodeAll(NonZero(2, offset)) + done;
      i := PutNonZero(dAtA, i, 0x08, total, orig, done);
      n := len - i;
      FilledEnd(dAtA[..], orig, i, Encode(Value()));
    }

    // The descending loop over the members.
    method PutMembers(dAtA: array<byte>, from: nat, ghost orig: seq<byte>, ghost done: seq<byte>) returns (i: nat)
      requires |EncodeAll(MemberRecords(members))| <= from < TWO_63 && Filled(dAtA[..], orig, from, done)
      modifies dAtA
      ensures i + |EncodeAll(MemberRecords(members))| == from
      ensures Filled(dAtA[..], orig, i, EncodeAll(MemberRecords(members)) + done)
    {
      hide EncodeRecord, Filled;
      i := from;
      EncodeNone();
      assert [] + done == done;
      for k := |members| downto 0
        invariant i + |EncodeAll(MemberRecords(members[k..]))| == from
        invariant Filled(dAtA[..], orig, i, EncodeAll(MemberRecords(members[k..])) + done)
      {
        ghost var rest := EncodeAll(MemberRecords(members[k + 1..]));
        MemberPrepended(members[k], members[k + 1..]);
        assert [members[k]] + members[k + 1..] == members[k..];
        MembersSuffix(members, k);
        i := PutDelimited(dAtA, i, 0x2a, members[k], orig, rest + done);
        ghost var bytes := EncodeRecord(Delimited(5, members[k]));
        assert bytes + (rest + done) == (bytes + rest) + done;
      }
      assert members[0..] == members;
    }

    method UnmarshalField(dAtA: seq<byte>, from: nat) returns (iNdEx: nat, err: Option<Error>)
      requires from < |dAtA| < TWO_63
      modifies this
      ensures match StepAt(SCHEMA, dAtA[from..], from)
              case Stop(partial, e) => err == Some(e) && Value() == AssignAll(old(Value()), partial)
              case Next(rec, n) =>
                err == None && iNdEx == from + n <= |dAtA| && Value() == Assign(old(Value()), rec)
    {
      hide StepAt, StepDelimited, StepUnknown;
      var fieldNum, wireType;
      fieldNum, wireType, iNdEx, err := ReadTag(dAtA, from, SCHEMA);
      if err.Some? {
        return;
      }
      ghost var n := iNdEx - from;
      if 1 <= fieldNum <= 3 {
        if wireType != 0 {
          err := Some(WrongWireType(wireType, fieldNum));
          return;
        }
        var word: uint64;
        word, iNdEx, err := Varint.ReadVarint(dAtA, iNdEx);
        match fieldNum {
          case 1 => total := word;
          case 2 => offset := word;
          case _ => limit := word;
        }
        RecordProofs.FoldOne(Assign, old(Value()), Number(fieldNum, word));
      } else if fieldNum == 4 || fieldNum == 5 {
        if wireType != 2 {
          err := Some(WrongWireType(wireType, fieldNum));
          return;
        }
        var data;
        data, iNdEx, err := ReadDelimited(dAtA, iNdEx, fieldNum, n);
        if err.Some? {
          return;
        }
        if fieldNum == 4 {
          kind := data;
        } else {
          members := members + [data];
        }
      } else {
        var bytes;
        bytes, iNdEx, err := ReadUnknown(dAtA, from);
        if err.Some? {
          return;
        }
        unrecognized := unrecognized + bytes;
      }
    }

    method Unmarshal(dAtA: seq<byte>) returns (err: Option<Error>)
      requires |dAtA| < TWO_63
      modifies this
      ensures Decoded(Value(), err) == Decode(old(Value()), dAtA, 0)
    {
      hide StepAt, Assign;
      var l := |dAtA|;
      var iNdEx := 0;
      while iNdEx < l
        invariant iNdEx <= l
        invariant Decode(old(Value()), dAtA, 0) == Decode(Value(), dAtA[iNdEx..], iNdEx)
      {
        var from := iNdEx;
        iNdEx, err := UnmarshalField(dAtA, from);
        if err.Some? {
          return;
        }
        assert dAtA[from..][iNdEx - from..] == dAtA[iNdEx..];
      }
      err := None;
    }
  }

  // ----- member lists

  lemma EncodeNone()
    ensures EncodeAll(MemberRecords([])) == []
  {
  }

  lemma MemberPrepended(member: seq<byte>, rest: seq<seq<byte>>)
    ensures EncodeAll(MemberRecords([member] + rest))
         == EncodeRecord(Delimited(5, member)) + EncodeAll(MemberRecords(rest))
  {
    hide EncodeRecord;
    assert ([member] + rest)[1..] == rest;
    var recs := MemberRecords(rest);
    assert ([Delimited(5, member)] + recs)[1..] == recs;
  }

  lemma {:induction false} MemberAppended(members: seq<seq<byte>>, member: seq<byte>)
    ensures EncodeAll(MemberRecords(members + [member]))
         == EncodeAll(MemberRecords(members)) + EncodeRecord(Delimited(5, member))
    decreases |members|
  {
    hide EncodeRecord, MemberRecords, EncodeAll;
    EncodeNone();
    if members == [] {
      MemberPrepended(member, []);
      assert members + [member] == [member] + [];
    } else {
      MemberPrepended(members[0], members[1..] + [member]);
      MemberPrepended(members[0], members[1..]);
      assert members + [member] == [members[0]] + (members[1..] + [member]);
      assert members == [members[0]] + members[1..];
      MemberAppended(members[1..], member);
    }
  }

  lemma {:induction false} MembersSuffix(members: seq<seq<byte>>, k: nat)
    requires k <= |members|
    ensures |EncodeAll(MemberRecords(members[k..]))| <= |EncodeAll(MemberRecords(members))|
    decreases k
  {
    hide EncodeRecord, MemberRecords, EncodeAll;
    if k > 0 {
      MemberPrepended(members[k - 1], members[k..]);
      assert [members[k - 1]] + members[k..] == members[k - 1..];
      MembersSuffix(members, k - 1);
    } else {
      assert members[0..] == members;
    }
  }

  // ----- the laws

  // The data of every record for a repeated field, in order.
  function AllData(recs: seq<Record>, num: nat): seq<seq<byte>>
    decreases |recs|
  {
    if recs == [] then []
    else
      var r := recs[|recs| - 1];
      AllData(recs[..|recs| - 1], num) + (if r.Delimited? && r.num == num then [r.data] else [])
  }

  function LastWord(recs: seq<Record>, num: nat, before: uint64): uint64 {
    match LastNumber(recs, num) case Some(v) => v case None => before
  }

  // Scalars keep their last record, members and unknown bytes accumulate in wire order.
  lemma {:induction false} DecodedFields(m: Msg, recs: seq<Record>)
    ensures AssignAll(m, recs) == Msg(
              LastWord(recs, 1, m.total), LastWord(recs, 2, m.offset), LastWord(recs, 3, m.limit),
              LastData(recs, 4, m.kind), m.members + AllData(recs, 5), m.unrecognized + UnknownBytes(recs))
    decreases |recs|
  {
    hide Fold;
    if recs != [] {
      RecordProofs.FoldLast(Assign, m, recs);
      DecodedFields(m, recs[..|recs| - 1]);
    } else {
      RecordProofs.FoldNone(Assign, m);
    }
  }

  // Page numbers and the type are written unless zero or empty, members always.
  lemma WrittenIff(m: Msg, num: nat, data: seq<byte>, value: uint64)
    ensures Delimited(num, data) in KnownRecords(m) <==>
              (num == 4 && data != [] && data == m.kind) || (num == 5 && data in m.members)
    ensures Number(num, value) in KnownRecords(m) <==>
              value != 0 && 1 <= num <= 3 && value == [m.total, m.offset, m.limit][num - 1]
  {
    hide MemberRecords;
    MemberRecordsIff(m.members, Delimited(num, data));
    MemberRecordsIff(m.members, Number(num, value));
  }

  lemma {:induction false} MemberRecordsIff(members: seq<seq<byte>>, r: Record)
    ensures r in MemberRecords(members) <==> r.Delimited? && r.num == 5 && r.data in members
  {
    if members != [] { MemberRecordsIff(members[1..], r); }
  }

  lemma EncodeIsRecords(m: Msg)
    ensures Encode(m) == EncodeAll(KnownRecords(m)) + m.unrecognized
  {
    hide EncodeAll, Optional, NonZero, MemberRecords;
    var o1, o2, o3, o4, o5 := NonZero(1, m.total), NonZero(2, m.offset), NonZero(3, m.limit),
                              Optional(4, m.kind), MemberRecords(m.members);
    RecordProofs.EncodeAllConcat(o4, o5);
    RecordProofs.EncodeAllConcat(o3, o4 + o5);
    RecordProofs.EncodeAllConcat(o2, o3 + (o4 + o5));
    RecordProofs.EncodeAllConcat(o1, o2 + (o3 + (o4 + o5)));
  }

  lemma {:induction false} MembersFit(members: seq<seq<byte>>)
    requires |EncodeAll(MemberRecords(members))| < TWO_63
    ensures AllFit(SCHEMA, MemberRecords(members))
    decreases |members|
  {
    if members != [] {
      assert [members[0]] + members[1..] == members;
      MemberPrepended(members[0], members[1..]);
      MembersFit(members[1..]);
    }
  }

  lemma KnownRecordsFit(m: Msg)
    requires |Encode(m)| < TWO_63
    ensures AllFit(SCHEMA, KnownRecords(m))
  {
    hide EncodeAll, MemberRecords, Optional, NonZero, AllFit;
    var o1, o2, o3, o4, o5 := NonZero(1, m.total), NonZero(2, m.offset), NonZero(3, m.limit),
                              Optional(4, m.kind), MemberRecords(m.members);
    NonZeroFits(SCHEMA, 1, m.total);
    NonZeroFits(SCHEMA, 2, m.offset);
    NonZeroFits(SCHEMA, 3, m.limit);
    OptionalFits(SCHEMA, 4, m.kind);
    MembersFit(m.members);
    FitConcat(SCHEMA, o4, o5);
    FitConcat(SCHEMA, o3, o4 + o5);
    FitConcat(SCHEMA, o2, o3 + (o4 + o5));
    FitConcat(SCHEMA, o1, o2 + (o3 + (o4 + o5)));
  }

  lemma {:induction false} AssignMembers(m: Msg, members: seq<seq<byte>>)
    ensures AssignAll(m, MemberRecords(members)) == m.(members := m.members + members)
    decreases |members|
  {
    if members == [] {
      assert m.members + [] == m.members;
    } else {
      AssignMembers(Assign(m, Delimited(5, members[0])), members[1..]);
      assert m.members + [members[0]] + members[1..] == m.members + members;
    }
  }

  // Written by a descending loop, read by appending: every list comes back in its own order.
  lemma AssignKnown(m: Msg)
    ensures AssignAll(ZERO, KnownRecords(m)) == m.(unrecognized := [])
  {
    hide Fold, MemberRecords;
    var o1, o2, o3, o4, o5 := NonZero(1, m.total), NonZero(2, m.offset), NonZero(3, m.limit),
                              Optional(4, m.kind), MemberRecords(m.members);
    RecordProofs.FoldConcat(Assign, ZERO, o1, o2 + (o3 + (o4 + o5)));
    RecordProofs.FoldOptional(Assign, ZERO, o1);
    var m1 := ZERO.(total := m.total);
    RecordProofs.FoldConcat(Assign, m1, o2, o3 + (o4 + o5));
    RecordProofs.FoldOptional(Assign, m1, o2);
    var m2 := m1.(offset := m.offset);
    RecordProofs.FoldConcat(Assign, m2, o3, o4 + o5);
    RecordProofs.FoldOptional(Assign, m2, o3);
    var m3 := m2.(limit := m.limit);
    RecordProofs.FoldConcat(Assign, m3, o4, o5);
    RecordProofs.FoldOptional(Assign, m3, o4);
    var m4 := m3.(kind := m.kind);
    AssignMembers(m4, m.members);
    assert [] + m.members == m.members;
  }

  lemma AssignGrows(m: Msg, r: Record)
    requires Fits(SCHEMA, r)
    ensures |Encode(Assign(m, r))| <= |Encode(m)| + |EncodeRecord(r)|
  {
    hide Optional, NonZero, EncodeAll, MemberRecords, Varint.Encode;
    match r
    case Delimited(num, data) =>
      EncodeOptional(num, data);
      MemberAppended(m.members, data);
    case Number(num, value) =>
      EncodeNonZero(num, value);
    case Unknown(bytes) =>
  }

  const CODEC: Codec<Msg> := Codec(SCHEMA, Assign, ZERO, KnownRecords, (m: Msg) => m.unrecognized, Encode)

  lemma CodecKeepsUnknowns()
    ensures KeepsUnknowns(CODEC)
  {
    forall m: Msg, a: seq<byte>, b: seq<byte> ensures AppendsInSteps(CODEC, m, a, b) {
      assert m.unrecognized + [] == m.unrecognized;
      assert m.unrecognized + a + b == m.unrecognized + (a + b);
    }
    assert forall m: Msg, r: Record :: KeepsUnknown(CODEC, m, r);
  }

  lemma CodecWrites(m: Msg)
    ensures Writes(CODEC, m)
  {
    hide Fold, Fits, EncodeAll, KnownRecords, Encode;
    EncodeIsRecords(m);
    if |Encode(m)| < TWO_63 { KnownRecordsFit(m); }
    AssignKnown(m);
    assert [] + m.unrecognized == m.unrecognized;
  }

  lemma CodecIsLawful()
    ensures Lawful(CODEC)
  {
    assert Encode(ZERO) == [];
    hide KeepsUnknowns, Writes, Fits, Encode, Assign, EncodeRecord;
    CodecKeepsUnknowns();
    forall m: Msg ensures Writes(CODEC, m) {
      CodecWrites(m);
    }
    forall m: Msg, r: Record ensures GrowsBy(CODEC, m, r) {
      if Fits(SCHEMA, r) { AssignGrows(m, r); }
    }
  }

  // `Unmarshal(Marshal(m))` gives m back, list order included, exactly when its unrecognised bytes are well-formed
  // unknown fields.
  lemma RoundTrip(m: Msg)
    requires |Encode(m)| < TWO_63
    ensures Decode(ZERO, Encode(m), 0) == Decoded(m, None) <==> UnknownStream(SCHEMA, m.unrecognized)
  {
    hide Encode, DecodeInto, UnknownStream;
    CodecIsLawful();
    CodecLaws.RoundTrip(CODEC, m);
  }

  // Decoding then encoding takes no more bytes than the input had, and is a fixpoint.
  lemma CanonicalisationFixpoint(s: seq<byte>)
    requires |s| < TWO_63 && Decode(ZERO, s, 0).err.None?
    ensures var m := Decode(ZERO, s, 0).msg;
            |Encode(m)| <= |s| && Decode(ZERO, Encode(m), 0) == Decoded(m, None)
  {
    hide Encode, DecodeInto;
    CodecIsLawful();
    CodecLaws.Canonicalisation(CODEC, s);
  }
}
