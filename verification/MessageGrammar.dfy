// `Unmarshal` against the grammar: it accepts exactly the concatenations of fields that suit the schema, and
// reads each of them as one record.
module MessageGrammar {
  import opened Wrappers
  import opened MachineWord
  import opened FieldGrammar
  import opened Records
  import opened SkipProofs
  import Varint

  // The field number as the code sees it: 61 bits of the tag, truncated to a signed 32-bit integer.
  function Number32(f: Field): int {
    ToInt32(Varint.Word(f.tag) / 8)
  }

  // A valid field with a positive number that is either unknown or has the wire type its number calls for.
  predicate Suits(sch: Schema, f: Field) {
    ValidField(f) && Number32(f) > 0
    && (Number32(f) > |sch|
        || (if sch[Number32(f) - 1].LengthDelimited? then f.BytesField? else f.VarintField?))
  }

  function RecordOf(sch: Schema, f: Field): Record
    requires Suits(sch, f)
  {
    if Number32(f) > |sch| then Unknown(FieldBytes(f))
    else if f.BytesField? then Delimited(Number32(f), f.data)
    else Number(Number32(f), Varint.Word(f.value))
  }

  predicate AllSuit(sch: Schema, fs: seq<Field>) {
    forall i :: 0 <= i < |fs| ==> Suits(sch, fs[i])
  }

  function RecordsOf(sch: Schema, fs: seq<Field>): seq<Record>
    requires AllSuit(sch, fs)
  {
    seq(|fs|, i requires 0 <= i < |fs| => RecordOf(sch, fs[i]))
  }

  function BytesOf(fs: seq<Field>): seq<byte> {
    if fs == [] then [] else FieldBytes(fs[0]) + BytesOf(fs[1..])
  }

  // ----- every suitable field is read as one record

  lemma StepAtTag(sch: Schema, tag: seq<byte>, rest: seq<byte>, wireType: nat, off: nat)
    requires IsTag(tag, wireType) && wireType != 4 && ToInt32(Varint.Word(tag) / 8) > 0
    ensures StepAt(sch, tag + rest, off)
         == StepBody(sch, ToInt32(Varint.Word(tag) / 8), wireType, |tag|, tag + rest, off)
    ensures (tag + rest)[|tag|..] == rest && tag != []
  {
    hide StepBody;
    Varint.ReadComplete(tag, rest);
  }

  function WireType(f: Field): nat {
    match f
    case VarintField(_, _) => 0
    case Fixed64Field(_, _) => 1
    case BytesField(_, _, _) => 2
    case GroupField(_, _, _) => 3
    case Fixed32Field(_, _) => 5
  }

  lemma TagOf(f: Field)
    requires ValidField(f)
    ensures IsTag(f.tag, WireType(f)) && Varint.IsVarint(f.tag)
  {
  }

  // What follows the tag of a field.
  function AfterTag(f: Field): (r: seq<byte>)
    ensures FieldBytes(f) == f.tag + r
  {
    match f
    case VarintField(tag, value) => value
    case Fixed64Field(tag, data) => data
    case BytesField(tag, len, data) => len + data
    case GroupField(tag, body, end) => FieldsBytes(body) + end
    case Fixed32Field(tag, data) => data
  }

  lemma StepSuitable(sch: Schema, f: Field, t: seq<byte>, off: nat)
    requires Suits(sch, f) && off + |FieldBytes(f)| < TWO_63
    ensures FieldBytes(f) != []
    ensures StepAt(sch, FieldBytes(f) + t, off) == Next(RecordOf(sch, f), |FieldBytes(f)|)
  {
    hide StepAt, StepBody, IsTag, Varint.Word, FieldBytes;
    TagOf(f);
    var after := AfterTag(f);
    Assoc3(f.tag, after, t);
    StepAtTag(sch, f.tag, after + t, WireType(f), off);
    BodySuitable(sch, f, t, off);
  }

  lemma BodySuitable(sch: Schema, f: Field, t: seq<byte>, off: nat)
    requires Suits(sch, f) && off + |FieldBytes(f)| < TWO_63 && f.tag != []
    ensures StepBody(sch, Number32(f), WireType(f), |f.tag|, FieldBytes(f) + t, off)
         == Next(RecordOf(sch, f), |FieldBytes(f)|)
  {
    hide IsTag, Varint.Word, StepDelimited, StepNumber, StepUnknown, ToInt32;
    var s, n := FieldBytes(f) + t, |f.tag|;
    if Number32(f) > |sch| {
      UnknownSuitable(f, t, off);
    } else if f.BytesField? {
      assert s[n..] == f.len + (f.data + t);
      DelimitedSuitable(Number32(f), n, f.len, f.data, t, off + n);
    } else {
      assert s[n..] == f.value + t;
      NumberSuitable(Number32(f), sch[Number32(f) - 1].inPlace, n, f.value, t);
    }
  }

  lemma DelimitedSuitable(num: nat, n: nat, len: seq<byte>, data: seq<byte>, t: seq<byte>, off: nat)
    requires Varint.IsVarint(len) && Varint.Word(len) == |data| && off + |len| + |data| < TWO_63
    ensures StepDelimited(num, n, len + (data + t), off) == Next(Delimited(num, data), n + |len| + |data|)
  {
    hide Varint.Word, Varint.IsVarint, Varint.Read;
    Varint.ReadComplete(len, data + t);
    assert (len + (data + t))[|len|..|len| + |data|] == data;
  }

  lemma NumberSuitable(num: nat, inPlace: bool, n: nat, value: seq<byte>, t: seq<byte>)
    requires Varint.IsVarint(value)
    ensures StepNumber(num, inPlace, n, value + t) == Next(Number(num, Varint.Word(value)), n + |value|)
  {
    hide Varint.Word, Varint.IsVarint, Varint.Read;
    Varint.ReadComplete(value, t);
  }

  lemma UnknownSuitable(f: Field, t: seq<byte>, off: nat)
    requires ValidField(f) && off + |FieldBytes(f)| < TWO_63
    ensures StepUnknown(FieldBytes(f) + t, off) == Next(Unknown(FieldBytes(f)), |FieldBytes(f)|)
  {
    hide FieldBytes, SkipFrom, ValidField;
    SkipOverField(f, t, 0, 0);
    assert (FieldBytes(f) + t)[..|FieldBytes(f)|] == FieldBytes(f);
  }

  // A concatenation of suitable fields is read as their records in order.
  lemma {:induction false} ParseSuitable(sch: Schema, fs: seq<Field>, off: nat)
    requires AllSuit(sch, fs) && off + |BytesOf(fs)| < TWO_63
    ensures Parse(sch, BytesOf(fs), off) == Parsed(RecordsOf(sch, fs), None)
    decreases |fs|
  {
    hide StepAt, Suits, FieldBytes, RecordOf;
    if fs != [] {
      var bs, t := FieldBytes(fs[0]), BytesOf(fs[1..]);
      StepSuitable(sch, fs[0], t, off);
      assert (bs + t)[|bs|..] == t;
      ParseSuitable(sch, fs[1..], off + |bs|);
      assert [RecordOf(sch, fs[0])] + RecordsOf(sch, fs[1..]) == RecordsOf(sch, fs);
    }
  }

  // ----- whatever is read as one record is a suitable field

  lemma StepSound(sch: Schema, s: seq<byte>, off: nat) returns (f: Field)
    requires StepAt(sch, s, off).Next?
    ensures Suits(sch, f) && StepAt(sch, s, off) == Next(RecordOf(sch, f), |FieldBytes(f)|)
    ensures FieldBytes(f) == s[..StepAt(sch, s, off).n]
  {
    var tag := Varint.Read(s);
    TagSound(s);
    Varint.ReadSound(s);
    f := BodySound(sch, s[..tag.n], tag.value % 8, s, off);
  }

  lemma BodySound(sch: Schema, tag: seq<byte>, wireType: nat, s: seq<byte>, off: nat) returns (f: Field)
    requires 0 < |tag| <= |s| && tag == s[..|tag|] && IsTag(tag, wireType) && ToInt32(Varint.Word(tag) / 8) > 0
    requires StepBody(sch, ToInt32(Varint.Word(tag) / 8), wireType, |tag|, s, off).Next?
    ensures var step := StepBody(sch, ToInt32(Varint.Word(tag) / 8), wireType, |tag|, s, off);
            Suits(sch, f) && step == Next(RecordOf(sch, f), |FieldBytes(f)|) && FieldBytes(f) == s[..step.n]
  {
    hide Varint.Word, ToInt32, Varint.IsVarint, Varint.Read, Skip;
    var num, rest := ToInt32(Varint.Word(tag) / 8), s[|tag|..];
    if num > |sch| {
      f := FieldSound(s);
      TagIsPrefix(f, tag, s);
    } else if sch[num - 1].LengthDelimited? {
      Varint.ReadSound(rest);
      var len := Varint.Read(rest);
      f := BytesField(tag, rest[..len.n], rest[len.n..len.n + len.value]);
      assert FieldBytes(f) == s[..|tag| + len.n + len.value];
    } else {
      Varint.ReadSound(rest);
      f := VarintField(tag, rest[..Varint.Read(rest).n]);
      assert FieldBytes(f) == s[..|tag| + Varint.Read(rest).n];
    }
  }

  // Two tags at the start of the same bytes are the same tag.
  lemma TagIsPrefix(f: Field, tag: seq<byte>, s: seq<byte>)
    requires ValidField(f) && |FieldBytes(f)| <= |s| && FieldBytes(f) == s[..|FieldBytes(f)|]
    requires Varint.IsVarint(tag) && |tag| <= |s| && tag == s[..|tag|]
    ensures f.tag == tag
  {
    hide FieldBytes, ValidField, IsTag, Varint.IsVarint;
    TagOf(f);
    var n := |FieldBytes(f)|;
    Assoc3(f.tag, AfterTag(f), s[n..]);
    SameVarint(f.tag, AfterTag(f) + s[n..], tag, s[|tag|..]);
  }

  lemma SameVarint(a: seq<byte>, s: seq<byte>, b: seq<byte>, t: seq<byte>)
    requires Varint.IsVarint(a) && Varint.IsVarint(b) && a + s == b + t
    ensures a == b
  {
    hide Varint.IsVarint, Varint.Word, Varint.Read;
    Varint.ReadComplete(a, s);
    Varint.ReadComplete(b, t);
    assert a == (a + s)[..|a|];
    assert b == (b + t)[..|b|];
  }

  lemma {:induction false} ParseSound(sch: Schema, s: seq<byte>, off: nat) returns (fs: seq<Field>)
    requires Accepts(sch, s, off)
    ensures AllSuit(sch, fs) && BytesOf(fs) == s
    decreases |s|
  {
    hide StepAt, Suits, FieldBytes;
    if s == [] {
      fs := [];
    } else {
      var f := StepSound(sch, s, off);
      var n := StepAt(sch, s, off).n;
      var rest := ParseSound(sch, s[n..], off + n);
      fs := [f] + rest;
      assert fs[1..] == rest && s[..n] + s[n..] == s;
    }
  }

  // ----- the main result

  ghost predicate FieldStream(sch: Schema, s: seq<byte>) {
    exists fs :: AllSuit(sch, fs) && BytesOf(fs) == s
  }

  // An input is accepted exactly when it is a concatenation of suitable fields; `ParseSuitable` says that it is
  // then read as their records.
  lemma AcceptsIffGrammar(sch: Schema, s: seq<byte>)
    requires |s| < TWO_63
    ensures Accepts(sch, s, 0) <==> FieldStream(sch, s)
  {
    hide Parse, Suits, RecordOf, BytesOf;
    if Accepts(sch, s, 0) {
      var fs := ParseSound(sch, s, 0);
    }
    if FieldStream(sch, s) {
      var fs :| AllSuit(sch, fs) && BytesOf(fs) == s;
      ParseSuitable(sch, fs, 0);
    }
  }

  // A field is taken for number n exactly when its own number is n modulo 2^32.
  lemma NumberIff(f: Field, n: nat)
    requires 0 < n < TWO_31
    ensures Number32(f) == n <==> Varint.Word(f.tag) / 8 % TWO_32 == n
  {
  }

  // Field 2^32 + 1 is read as field 1.
  lemma AliasedNumber(sch: Schema)
    requires sch != [] && sch[0].LengthDelimited?
    ensures var tag := [0x8a, 0x80, 0x80, 0x80, 0x80, 0x01];
            && Varint.IsVarint(tag) && Varint.Word(tag) / 8 == TWO_32 + 1
            && StepAt(sch, tag + [0x00], 0) == Next(Delimited(1, []), 7)
  {
    hide StepAt, Varint.Digits, Varint.Word;
    var tag := [0x8a, 0x80, 0x80, 0x80, 0x80, 0x01];
    AliasedWord(tag);
    AliasedField(sch, tag);
  }

  lemma AliasedField(sch: Schema, tag: seq<byte>)
    requires sch != [] && sch[0].LengthDelimited?
    requires |tag| <= 10 && Varint.IsVarint(tag) && Varint.Word(tag) == 8 * (TWO_32 + 1) + 2
    ensures StepAt(sch, tag + [0x00], 0) == Next(Delimited(1, []), |tag| + 1)
  {
    hide StepAt, Varint.IsVarint, Varint.Word;
    OneByteTag(0);
    var f := BytesField(tag, [0x00], []);
    assert FieldBytes(f) + [] == tag + [0x00];
    StepSuitable(sch, f, [], 0);
  }

  lemma AliasedWord(tag: seq<byte>)
    requires tag == [0x8a, 0x80, 0x80, 0x80, 0x80, 0x01]
    ensures Varint.Word(tag) == 8 * (TWO_32 + 1) + 2
  {
    assert tag[1..][1..][1..] == [0x80, 0x80, 0x01];
    assert Varint.Digits([0x80, 0x80, 0x01]) == 16384 by {
      assert [0x80, 0x80, 0x01][1..] == [0x80, 0x01] && [0x80, 0x01][1..] == [0x01] && [0x01][1..] == [];
      assert Varint.Digits([0x80, 0x01]) == 128;
    }
    assert Varint.Digits(tag[1..]) == 128 * Varint.Digits(tag[1..][1..]);
  }
}
