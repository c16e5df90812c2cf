// A message as the sequence of records on the wire, for any schema of consecutively numbered fields.
// `Unmarshal` of each generated type is this reading followed by assigning the records to its fields.
module Records {
  import opened Wrappers
  import opened MachineWord
  import opened WireErrors
  import opened FieldGrammar
  import Varint

  // How field i + 1 is written. A varint field is `inPlace` when the loop accumulates into the message
  // itself, so that a failed read leaves the bits seen so far in it.
  datatype Kind = LengthDelimited | Integer(inPlace: bool)

  type Schema = s: seq<Kind> | |s| <= 15

  datatype Record =
    | Delimited(num: nat, data: seq<byte>)
    | Number(num: nat, value: uint64)
    | Unknown(bytes: seq<byte>)

  // One pass of the outer loop: a record and its width, or an error and what it had already assigned.
  datatype Step = Next(rec: Record, n: nat) | Stop(partial: seq<Record>, err: Error)

  // `off` is the cursor: an overlong length is told apart from a short input by the wrap of off + length.
  function StepAt(sch: Schema, s: seq<byte>, off: nat): (r: Step)
    ensures r.Next? ==> 0 < r.n <= |s|
  {
    var tag := Varint.Read(s);
    if tag.err.Some? then Stop([], tag.err.value)
    else StepField(sch, tag.value, tag.n, s, off)
  }

  function StepField(sch: Schema, wire: uint64, n: nat, s: seq<byte>, off: nat): (r: Step)
    requires 0 < n <= |s|
    ensures r.Next? ==> 0 < r.n <= |s|
  {
    var num := ToInt32(wire / 8);
    if wire % 8 == 4 then Stop([], EndGroupForNonGroup)
    else if num <= 0 then Stop([], IllegalTag(num, wire))
    else StepBody(sch, num, wire % 8, n, s, off)
  }

  // The switch on the field number, n bytes of tag being behind the cursor.
  function StepBody(sch: Schema, num: nat, wireType: nat, n: nat, s: seq<byte>, off: nat): (r: Step)
    requires 0 < num && 0 < n <= |s|
    ensures r.Next? ==> 0 < r.n <= |s|
  {
    if num > |sch| then StepUnknown(s, off)
    else if sch[num - 1].LengthDelimited? then
      if wireType != 2 then Stop([], WrongWireType(wireType, num))
      else StepDelimited(num, n, s[n..], off + n)
    else
      if wireType != 0 then Stop([], WrongWireType(wireType, num))
      else StepNumber(num, sch[num - 1].inPlace, n, s[n..])
  }

  function StepDelimited(num: nat, n: nat, rest: seq<byte>, off: nat): (r: Step)
    ensures r.Next? ==> n < r.n <= n + |rest|
  {
    var len := Varint.Read(rest);
    if len.err.Some? then Stop([], len.err.value)
    else if len.value >= TWO_63 || off + len.n + len.value >= TWO_63 then Stop([], InvalidLength)
    else if len.n + len.value > |rest| then Stop([], UnexpectedEOF)
    else Next(Delimited(num, rest[len.n..len.n + len.value]), n + len.n + len.value)
  }

  function StepNumber(num: nat, inPlace: bool, n: nat, rest: seq<byte>): (r: Step)
    ensures r.Next? ==> n < r.n <= n + |rest|
  {
    var v := Varint.Read(rest);
    if v.err.Some? then Stop(if inPlace then [Number(num, v.value)] else [], v.err.value)
    else Next(Number(num, v.value), n + v.n)
  }

  function StepUnknown(s: seq<byte>, off: nat): (r: Step)
    ensures r.Next? ==> 0 < r.n <= |s|
  {
    match Skip(s)
    case SkipError(e) => Stop([], e)
    case Skipped(k) =>
      if off + k >= TWO_63 then Stop([], InvalidLength)
      else if k > |s| then Stop([], UnexpectedEOF)
      else Next(Unknown(s[..k]), k)
  }

  datatype Parsed = Parsed(recs: seq<Record>, err: Option<Error>)

  function Parse(sch: Schema, s: seq<byte>, off: nat): Parsed
    decreases |s|
  {
    if s == [] then Parsed([], None)
    else
      match StepAt(sch, s, off)
      case Stop(partial, e) => Parsed(partial, Some(e))
      case Next(rec, n) =>
        var rest := Parse(sch, s[n..], off + n);
        Parsed([rec] + rest.recs, rest.err)
  }

  predicate Accepts(sch: Schema, s: seq<byte>, off: nat) {
    Parse(sch, s, off).err.None?
  }

  // ----- decoding: the records are assigned to the message one after the other

  function Fold<M>(assign: (M, Record) -> M, m: M, recs: seq<Record>): M
    decreases |recs|
  {
    if recs == [] then m else Fold(assign, assign(m, recs[0]), recs[1..])
  }

  datatype Decoded<M> = Decoded(msg: M, err: Option<Error>)

  // Unmarshalling s into m; on an error the message keeps what was assigned before it.
  function DecodeInto<M>(sch: Schema, assign: (M, Record) -> M, m: M, s: seq<byte>, off: nat): Decoded<M> {
    var p := Parse(sch, s, off);
    Decoded(Fold(assign, m, p.recs), p.err)
  }

  // ----- writing

  function EncodeRecord(r: Record): seq<byte> {
    match r
    case Delimited(num, data) => Varint.Encode(8 * num + 2) + Varint.Encode(|data|) + data
    case Number(num, value) => Varint.Encode(8 * num) + Varint.Encode(value)
    case Unknown(bytes) => bytes
  }

  function EncodeAll(recs: seq<Record>): seq<byte> {
    if recs == [] then [] else EncodeRecord(recs[0]) + EncodeAll(recs[1..])
  }

  // A field of the grammar whose number, truncated to 32 bits, is positive and not in the schema.
  predicate IsUnknownField(sch: Schema, f: Field) {
    ValidField(f) && ToInt32(Varint.Word(f.tag) / 8) > |sch|
  }

  // The records a schema can produce.
  ghost predicate Fits(sch: Schema, r: Record) {
    match r
    case Delimited(num, data) => 1 <= num <= |sch| && sch[num - 1].LengthDelimited? && |data| < TWO_63
    case Number(num, _) => 1 <= num <= |sch| && sch[num - 1].Integer?
    case Unknown(bytes) => exists f :: IsUnknownField(sch, f) && FieldBytes(f) == bytes
  }

  ghost predicate AllFit(sch: Schema, recs: seq<Record>) {
    forall i :: 0 <= i < |recs| ==> Fits(sch, recs[i])
  }

  // ----- what every `Unmarshal` repeats

  // The tag: a varint, split into field number and wire type.
  method ReadTag(dAtA: seq<byte>, from: nat, ghost sch: Schema)
    returns (fieldNum: int, wireType: nat, iNdEx: nat, err: Option<Error>)
    requires from < |dAtA|
    ensures err.Some? ==> StepAt(sch, dAtA[from..], from) == Stop([], err.value)
    ensures err.None? ==>
              && fieldNum > 0 && from < iNdEx <= |dAtA| && dAtA[from..][iNdEx - from..] == dAtA[iNdEx..]
              && StepAt(sch, dAtA[from..], from)
              == StepBody(sch, fieldNum, wireType, iNdEx - from, dAtA[from..], from)
  {
    hide StepBody;
    var wire: uint64;
    fieldNum, wireType := 0, 0;
    wire, iNdEx, err := Varint.ReadVarint(dAtA, from);
    if err.Some? {
      return;
    }
    fieldNum := ToInt32(wire / 8);
    wireType := wire % 8;
    if wireType == 4 {
      err := Some(EndGroupForNonGroup);
    } else if fieldNum <= 0 {
      err := Some(IllegalTag(fieldNum, wire));
    }
  }

  // The length-delimited case: a length, then a slice of that many bytes.
  method ReadDelimited(dAtA: seq<byte>, from: nat, ghost num: nat, ghost n: nat)
    returns (data: seq<byte>, iNdEx: nat, err: Option<Error>)
    requires n <= from <= |dAtA| < TWO_63
    ensures match StepDelimited(num, n, dAtA[from..], from)
            case Stop(partial, e) => err == Some(e) && partial == []
            case Next(rec, k) => err == None && rec == Delimited(num, data) && iNdEx == from - n + k <= |dAtA|
  {
    hide Varint.Read;
    data, iNdEx := [], from;
    var word: uint64;
    word, iNdEx, err := Varint.ReadVarint(dAtA, from);
    if err.Some? {
      return;
    }
    var intStringLen := ToInt64(word);
    if intStringLen < 0 {
      err := Some(InvalidLength);
      return;
    }
    LengthSum(iNdEx, intStringLen);
    var postIndex := ToInt64(iNdEx + intStringLen);
    if postIndex < 0 {
      err := Some(InvalidLength);
      return;
    }
    if postIndex > |dAtA| {
      err := Some(UnexpectedEOF);
      return;
    }
    data := dAtA[iNdEx..postIndex];
    assert data == dAtA[from..][iNdEx - from..postIndex - from];
    iNdEx := postIndex;
  }

  // The default case: from the start of the tag, skip one field and keep its bytes.
  method ReadUnknown(dAtA: seq<byte>, from: nat) returns (bytes: seq<byte>, iNdEx: nat, err: Option<Error>)
    requires from <= |dAtA| < TWO_63
    ensures match StepUnknown(dAtA[from..], from)
            case Stop(partial, e) => err == Some(e) && partial == []
            case Next(rec, k) => err == None && rec == Unknown(bytes) && iNdEx == from + k <= |dAtA|
  {
    bytes, iNdEx, err := [], from, None;
    var skippy := SkipField(dAtA[from..]);
    match skippy {
      case SkipError(e) =>
        err := Some(e);
      case Skipped(k) =>
        LengthSum(from, k);
        var next := ToInt64(from + k);
        if next < 0 {
          err := Some(InvalidLength);
        } else if next > |dAtA| {
          err := Some(UnexpectedEOF);
        } else {
          bytes, iNdEx := dAtA[from..next], next;
          assert bytes == dAtA[from..][..k];
        }
    }
  }
}
