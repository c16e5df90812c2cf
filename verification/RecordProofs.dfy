// The wire as a free monoid of records: reading distributes over concatenation, inverts writing, yields
// only records that can be written again, and never yields more bytes than it consumed.
module RecordProofs {
  import opened Wrappers
  import opened MachineWord
  import opened FieldGrammar
  import opened Records
  import MessageGrammar
  import Varint

  // ----- concatenation

  lemma StepLocal(sch: Schema, s: seq<byte>, t: seq<byte>, off: nat)
    requires StepAt(sch, s, off).Next? && off + |s| < TWO_63
    ensures StepAt(sch, s + t, off) == StepAt(sch, s, off)
  {
    hide StepAt, FieldBytes, MessageGrammar.Suits;
    var n := StepAt(sch, s, off).n;
    var f := MessageGrammar.StepSound(sch, s, off);
    MessageGrammar.StepSuitable(sch, f, s[n..] + t, off);
    assert s[..n] + (s[n..] + t) == s + t;
  }

  // Merge by concatenation: reading a ++ b reads a, then b, with the same records, error and partial state.
  lemma {:induction false} ParseConcat(sch: Schema, a: seq<byte>, b: seq<byte>, off: nat)
    requires off + |a| < TWO_63 && Accepts(sch, a, off)
    ensures var pa, pb := Parse(sch, a, off), Parse(sch, b, off + |a|);
            Parse(sch, a + b, off) == Parsed(pa.recs + pb.recs, pb.err)
    decreases |a|
  {
    hide StepAt;
    if a == [] {
      assert a + b == b;
      assert [] + Parse(sch, b, off).recs == Parse(sch, b, off).recs;
    } else {
      StepLocal(sch, a, b, off);
      var n := StepAt(sch, a, off).n;
      assert (a + b)[n..] == a[n..] + b;
      ParseConcat(sch, a[n..], b, off + n);
      var pa, pb := Parse(sch, a[n..], off + n), Parse(sch, b, off + |a|);
      var rec := StepAt(sch, a, off).rec;
      assert [rec] + (pa.recs + pb.recs) == ([rec] + pa.recs) + pb.recs;
    }
  }

  // ----- reading inverts writing

  lemma EncodeTag(v: nat)
    requires v < 128
    ensures Varint.Encode(v) == [v] && Varint.IsVarint([v]) && Varint.Word([v]) == v
  {
    Varint.EncodeIsVarint(v);
  }

  // A known record is written as a field of the grammar, with every varint minimal.
  lemma WrittenField(sch: Schema, r: Record) returns (f: Field)
    requires Fits(sch, r)
    ensures MessageGrammar.Suits(sch, f) && MessageGrammar.RecordOf(sch, f) == r && FieldBytes(f) == EncodeRecord(r)
  {
    hide Varint.IsVarint, Varint.Digits, Varint.Encode;
    match r
    case Delimited(num, data) =>
      Varint.EncodeIsVarint(8 * num + 2);
      Varint.EncodeIsVarint(|data|);
      TagNumber(num, 2);
      f := BytesField(Varint.Encode(8 * num + 2), Varint.Encode(|data|), data);
    case Number(num, value) =>
      Varint.EncodeIsVarint(8 * num);
      Varint.EncodeIsVarint(value);
      TagNumber(num, 0);
      f := VarintField(Varint.Encode(8 * num), Varint.Encode(value));
    case Unknown(bytes) =>
      f :| IsUnknownField(sch, f) && FieldBytes(f) == bytes;
  }

  lemma TagNumber(num: nat, wireType: nat)
    requires num <= 15 && wireType < 8
    ensures var v := 8 * num + wireType; v % TWO_64 == v && v % 8 == wireType && ToInt32(v / 8) == num
  {
    var v := 8 * num + wireType;
    assert v / 8 == num;
  }

  lemma StepEncoded(sch: Schema, r: Record, t: seq<byte>, off: nat)
    requires Fits(sch, r) && off + |EncodeRecord(r)| < TWO_63
    ensures EncodeRecord(r) != []
    ensures StepAt(sch, EncodeRecord(r) + t, off) == Next(r, |EncodeRecord(r)|)
  {
    hide StepAt, Fits, FieldBytes, EncodeRecord, MessageGrammar.Suits;
    var f := WrittenField(sch, r);
    MessageGrammar.StepSuitable(sch, f, t, off);
  }

  lemma {:induction false} ParseEncoded(sch: Schema, recs: seq<Record>, off: nat)
    requires AllFit(sch, recs) && off + |EncodeAll(recs)| < TWO_63
    ensures Parse(sch, EncodeAll(recs), off) == Parsed(recs, None)
    decreases |recs|
  {
    hide StepAt, Fits, EncodeRecord;
    if recs != [] {
      var bs, t := EncodeRecord(recs[0]), EncodeAll(recs[1..]);
      StepEncoded(sch, recs[0], t, off);
      assert (bs + t)[|bs|..] == t;
      ParseEncoded(sch, recs[1..], off + |bs|);
      assert [recs[0]] + recs[1..] == recs;
    }
  }

  // ----- whatever is read can be written, in no more bytes

  lemma StepFits(sch: Schema, s: seq<byte>, off: nat)
    requires StepAt(sch, s, off).Next?
    ensures Fits(sch, StepAt(sch, s, off).rec)
    ensures |EncodeRecord(StepAt(sch, s, off).rec)| <= StepAt(sch, s, off).n
  {
    hide FieldBytes;
    var f := MessageGrammar.StepSound(sch, s, off);
    match StepAt(sch, s, off).rec
    case Unknown(bytes) =>
      assert IsUnknownField(sch, f) && FieldBytes(f) == bytes;
    case Delimited(num, data) =>
      EncodeTag(8 * num + 2);
      Varint.ReadNeedsEncode(s[Varint.Read(s).n..]);
    case Number(num, value) =>
      EncodeTag(8 * num);
      Varint.ReadNeedsEncode(s[Varint.Read(s).n..]);
  }

  lemma {:induction false} ParseFits(sch: Schema, s: seq<byte>, off: nat)
    requires Accepts(sch, s, off)
    ensures AllFit(sch, Parse(sch, s, off).recs)
    ensures |EncodeAll(Parse(sch, s, off).recs)| <= |s|
    decreases |s|
  {
    hide StepAt, Fits, EncodeRecord;
    if s != [] {
      StepFits(sch, s, off);
      var step := StepAt(sch, s, off);
      ParseFits(sch, s[step.n..], off + step.n);
      var rest := Parse(sch, s[step.n..], off + step.n).recs;
      assert ([step.rec] + rest)[1..] == rest;
    }
  }

  lemma {:induction false} EncodeAllConcat(a: seq<Record>, b: seq<Record>)
    ensures EncodeAll(a + b) == EncodeAll(a) + EncodeAll(b)
  {
    hide EncodeRecord;
    if a == [] {
      assert a + b == b;
    } else {
      assert (a + b)[1..] == a[1..] + b;
      EncodeAllConcat(a[1..], b);
    }
  }

  // Records that are all unknown are written back byte for byte.
  lemma {:induction false} UnknownsEncodeToInput(sch: Schema, s: seq<byte>, off: nat)
    requires Accepts(sch, s, off)
    requires forall i :: 0 <= i < |Parse(sch, s, off).recs| ==> Parse(sch, s, off).recs[i].Unknown?
    ensures EncodeAll(Parse(sch, s, off).recs) == s
    decreases |s|
  {
    hide StepAt;
    if s != [] {
      var step := StepAt(sch, s, off);
      var recs, rest := Parse(sch, s, off).recs, Parse(sch, s[step.n..], off + step.n).recs;
      assert recs == [step.rec] + rest && recs[0] == step.rec && recs[1..] == rest;
      forall i | 0 <= i < |rest| ensures rest[i].Unknown? { assert rest[i] == recs[i + 1]; }
      UnknownIsInput(sch, s, off);
      UnknownsEncodeToInput(sch, s[step.n..], off + step.n);
      assert s[..step.n] + s[step.n..] == s;
    }
  }

  lemma UnknownIsInput(sch: Schema, s: seq<byte>, off: nat)
    requires StepAt(sch, s, off).Next? && StepAt(sch, s, off).rec.Unknown?
    ensures var step := StepAt(sch, s, off); step.rec.bytes == s[..step.n]
  {
    hide Skip;
  }

  // ----- laws of every decoder

  lemma {:induction false} FoldConcat<M>(assign: (M, Record) -> M, m: M, a: seq<Record>, b: seq<Record>)
    ensures Fold(assign, m, a + b) == Fold(assign, Fold(assign, m, a), b)
    decreases |a|
  {
    if a == [] {
      assert a + b == b;
    } else {
      assert (a + b)[1..] == a[1..] + b;
      FoldConcat(assign, assign(m, a[0]), a[1..], b);
    }
  }

  lemma FoldOne<M>(assign: (M, Record) -> M, m: M, r: Record)
    ensures Fold(assign, m, [r]) == assign(m, r)
  {
    assert [r][1..] == [];
  }

  lemma FoldNone<M>(assign: (M, Record) -> M, m: M)
    ensures Fold(assign, m, []) == m
  {
  }

  // Folding ends with the last record.
  lemma FoldLast<M>(assign: (M, Record) -> M, m: M, recs: seq<Record>)
    requires recs != []
    ensures Fold(assign, m, recs) == assign(Fold(assign, m, recs[..|recs| - 1]), recs[|recs| - 1])
  {
    hide Fold;
    var front, r := recs[..|recs| - 1], recs[|recs| - 1];
    assert recs == front + [r];
    FoldConcat(assign, m, front, [r]);
    FoldOne(assign, Fold(assign, m, front), r);
  }

  lemma FoldOptional<M>(assign: (M, Record) -> M, m: M, recs: seq<Record>)
    requires |recs| <= 1
    ensures Fold(assign, m, recs) == if recs == [] then m else assign(m, recs[0])
  {
    if recs != [] {
      assert recs == [recs[0]];
      FoldOne(assign, m, recs[0]);
    }
  }

  // Merge by concatenation: decoding a ++ b is decoding b into the result of a, errors included.
  lemma MergeByConcatenation<M>(
      sch: Schema, assign: (M, Record) -> M, m: M, a: seq<byte>, b: seq<byte>, off: nat)
    requires off + |a| < TWO_63 && DecodeInto(sch, assign, m, a, off).err.None?
    ensures DecodeInto(sch, assign, m, a + b, off)
         == DecodeInto(sch, assign, DecodeInto(sch, assign, m, a, off).msg, b, off + |a|)
  {
    hide Parse, Fold;
    ParseConcat(sch, a, b, off);
    FoldConcat(assign, m, Parse(sch, a, off).recs, Parse(sch, b, off + |a|).recs);
  }

  // The cursor's position decides only how an overlong length is reported.
  lemma {:induction false} PositionOnlyNamesTheError(sch: Schema, s: seq<byte>, off: nat, off': nat)
    requires off + |s| < TWO_63 && off' + |s| < TWO_63
    ensures Parse(sch, s, off).recs == Parse(sch, s, off').recs
    ensures Accepts(sch, s, off) <==> Accepts(sch, s, off')
    decreases |s|
  {
    hide StepAt;
    if s != [] {
      StepPosition(sch, s, off, off');
      match StepAt(sch, s, off)
      case Stop(_, _) =>
      case Next(_, n) => PositionOnlyNamesTheError(sch, s[n..], off + n, off' + n);
    }
  }

  lemma StepPosition(sch: Schema, s: seq<byte>, off: nat, off': nat)
    requires s != [] && off + |s| < TWO_63 && off' + |s| < TWO_63
    ensures match StepAt(sch, s, off)
            case Stop(partial, _) => StepAt(sch, s, off').Stop? && StepAt(sch, s, off').partial == partial
            case Next(_, _) => StepAt(sch, s, off') == StepAt(sch, s, off)
  {
    hide Skip, Varint.Read;
  }

  // The law for whole inputs: `Unmarshal(a ++ b)` into m is `Unmarshal(b)` into what `Unmarshal(a)` made of m.
  lemma UnmarshalConcat<M>(sch: Schema, assign: (M, Record) -> M, m: M, a: seq<byte>, b: seq<byte>)
    requires |a| + |b| < TWO_63 && DecodeInto(sch, assign, m, a, 0).err.None?
    ensures var whole := DecodeInto(sch, assign, m, a + b, 0);
            var second := DecodeInto(sch, assign, DecodeInto(sch, assign, m, a, 0).msg, b, 0);
            whole.msg == second.msg && (whole.err.None? <==> second.err.None?)
  {
    hide Parse, Fold;
    MergeByConcatenation(sch, assign, m, a, b, 0);
    PositionOnlyNamesTheError(sch, b, |a|, 0);
  }

  // Decoding what was written assigns exactly the records written.
  lemma DecodeEncoded<M>(sch: Schema, assign: (M, Record) -> M, m: M, known: seq<Record>, us: seq<Record>)
    requires AllFit(sch, known) && AllFit(sch, us) && |EncodeAll(known)| + |EncodeAll(us)| < TWO_63
    ensures DecodeInto(sch, assign, m, EncodeAll(known) + EncodeAll(us), 0)
         == Decoded(Fold(assign, Fold(assign, m, known), us), None)
  {
    hide Parse, Fits, EncodeAll, Fold;
    EncodeAllConcat(known, us);
    ParseEncoded(sch, known + us, 0);
    FoldConcat(assign, m, known, us);
  }
}
