// The laws shared by all generated message types, derived from facts about single assignments.
module CodecLaws {
  import opened Wrappers
  import opened MachineWord
  import opened Records
  import opened Marshalling
  import RecordProofs

  // A message type: how a record is assigned, which records a message is written as and where its unknown
  // bytes are.
  datatype Codec<!M> = Codec(
    sch: Schema,
    assign: (M, Record) -> M,
    zero: M,
    known: M -> seq<Record>,
    unrecognized: M -> seq<byte>,
    encode: M -> seq<byte>)

  // Unknown records are appended and nothing else touches the unknown bytes.
  ghost predicate KeepsUnknown<M>(c: Codec<M>, m: M, r: Record) {
    c.unrecognized(c.assign(m, r)) == c.unrecognized(m) + (if r.Unknown? then r.bytes else [])
  }

  // Assigning unknown bytes in two steps is assigning them once.
  ghost predicate AppendsInSteps<M>(c: Codec<M>, m: M, a: seq<byte>, b: seq<byte>) {
    c.assign(m, Unknown([])) == m && c.assign(c.assign(m, Unknown(a)), Unknown(b)) == c.assign(m, Unknown(a + b))
  }

  ghost predicate KeepsUnknowns<M(!new)>(c: Codec<M>) {
    && c.unrecognized(c.zero) == []
    && (forall m: M, r: Record :: KeepsUnknown(c, m, r))
    && (forall m: M, a: seq<byte>, b: seq<byte> :: AppendsInSteps(c, m, a, b))
  }

  // What is written is a list of records that restores the message, followed by its unknown bytes.
  ghost predicate Writes<M>(c: Codec<M>, m: M) {
    && c.encode(m) == EncodeAll(c.known(m)) + c.unrecognized(m)
    && (|c.encode(m)| < TWO_63 ==> AllFit(c.sch, c.known(m)))
    && c.assign(Fold(c.assign, c.zero, c.known(m)), Unknown(c.unrecognized(m))) == m
  }

  ghost predicate WritesRecords<M(!new)>(c: Codec<M>) {
    c.encode(c.zero) == [] && forall m: M :: Writes(c, m)
  }

  // Assigning a record never lengthens the encoding by more than the record's own minimal encoding.
  ghost predicate GrowsBy<M>(c: Codec<M>, m: M, r: Record) {
    Fits(c.sch, r) ==> |c.encode(c.assign(m, r))| <= |c.encode(m)| + |EncodeRecord(r)|
  }

  ghost predicate Grows<M(!new)>(c: Codec<M>) {
    forall m: M, r: Record :: GrowsBy(c, m, r)
  }

  ghost predicate Lawful<M(!new)>(c: Codec<M>) {
    KeepsUnknowns(c) && WritesRecords(c) && Grows(c)
  }

  // Unmarshalling into a zero message.
  function FromZero<M>(c: Codec<M>, s: seq<byte>): Decoded<M> {
    DecodeInto(c.sch, c.assign, c.zero, s, 0)
  }

  lemma {:induction false} AssignUnknowns<M(!new)>(c: Codec<M>, m: M, us: seq<Record>)
    requires KeepsUnknowns(c) && AllUnknown(us)
    ensures Fold(c.assign, m, us) == c.assign(m, Unknown(EncodeAll(us)))
    decreases |us|
  {
    if us != [] {
      AssignUnknowns(c, c.assign(m, us[0]), us[1..]);
      assert AppendsInSteps(c, m, us[0].bytes, EncodeAll(us[1..]));
    } else {
      assert AppendsInSteps(c, m, [], []);
    }
  }

  lemma {:induction false} UnknownsAfter<M(!new)>(c: Codec<M>, recs: seq<Record>)
    requires KeepsUnknowns(c)
    ensures c.unrecognized(Fold(c.assign, c.zero, recs)) == UnknownBytes(recs)
    decreases |recs|
  {
    if recs != [] {
      var front, r := recs[..|recs| - 1], recs[|recs| - 1];
      RecordProofs.FoldLast(c.assign, c.zero, recs);
      UnknownsAfter(c, front);
      assert KeepsUnknown(c, Fold(c.assign, c.zero, front), r);
    }
  }

  lemma {:induction false} FoldGrows<M(!new)>(c: Codec<M>, m: M, recs: seq<Record>)
    requires Grows(c) && AllFit(c.sch, recs)
    ensures |c.encode(Fold(c.assign, m, recs))| <= |c.encode(m)| + |EncodeAll(recs)|
    decreases |recs|
  {
    hide Fits, EncodeRecord;
    if recs != [] {
      assert Fits(c.sch, recs[0]) && GrowsBy(c, m, recs[0]);
      FoldGrows(c, c.assign(m, recs[0]), recs[1..]);
    }
  }

  lemma WellFormedRoundTrip<M(!new)>(c: Codec<M>, m: M)
    requires Lawful(c) && |c.encode(m)| < TWO_63 && UnknownStream(c.sch, c.unrecognized(m))
    ensures FromZero(c, c.encode(m)) == Decoded(m, None)
  {
    hide Fits, Parse, Fold;
    assert Writes(c, m);
    var us :| AllUnknown(us) && AllFit(c.sch, us) && EncodeAll(us) == c.unrecognized(m);
    RecordProofs.DecodeEncoded(c.sch, c.assign, c.zero, c.known(m), us);
    AssignUnknowns(c, Fold(c.assign, c.zero, c.known(m)), us);
  }

  lemma DecodedIsWellFormed<M(!new)>(c: Codec<M>, s: seq<byte>)
    requires Lawful(c) && FromZero(c, s).err.None?
    ensures UnknownStream(c.sch, c.unrecognized(FromZero(c, s).msg))
  {
    hide Parse, Fits, Fold;
    var recs := Parse(c.sch, s, 0).recs;
    RecordProofs.ParseFits(c.sch, s, 0);
    UnknownsAfter(c, recs);
    UnknownBytesStream(c.sch, recs);
  }

  // Encoding then decoding gives the message back exactly when its unknown bytes are well-formed fields.
  lemma RoundTrip<M(!new)>(c: Codec<M>, m: M)
    requires Lawful(c) && |c.encode(m)| < TWO_63
    ensures FromZero(c, c.encode(m)) == Decoded(m, None) <==> UnknownStream(c.sch, c.unrecognized(m))
  {
    hide Lawful, UnknownStream, FromZero;
    if UnknownStream(c.sch, c.unrecognized(m)) {
      WellFormedRoundTrip(c, m);
    }
    if FromZero(c, c.encode(m)) == Decoded(m, None) {
      DecodedIsWellFormed(c, c.encode(m));
    }
  }

  // Decoding then encoding never takes more bytes than the input had.
  lemma ReencodingNeverGrows<M(!new)>(c: Codec<M>, s: seq<byte>)
    requires Lawful(c) && FromZero(c, s).err.None?
    ensures |c.encode(FromZero(c, s).msg)| <= |s|
  {
    hide Parse, Fits, Fold;
    RecordProofs.ParseFits(c.sch, s, 0);
    FoldGrows(c, c.zero, Parse(c.sch, s, 0).recs);
  }

  // ... and what it gives is a fixpoint.
  lemma Canonicalisation<M(!new)>(c: Codec<M>, s: seq<byte>)
    requires Lawful(c) && |s| < TWO_63 && FromZero(c, s).err.None?
    ensures var m := FromZero(c, s).msg;
            |c.encode(m)| <= |s| && FromZero(c, c.encode(m)) == Decoded(m, None)
  {
    hide FromZero, UnknownStream;
    DecodedIsWellFormed(c, s);
    ReencodingNeverGrows(c, s);
    WellFormedRoundTrip(c, FromZero(c, s).msg);
  }
}
