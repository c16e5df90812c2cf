// `messaging.Message`: size, backward writer, reader, and the laws that connect them.
module Message {
  import opened Wrappers
  import opened MachineWord
  import opened WireErrors
  import opened Records
  import opened Marshalling
  import RecordProofs
  import Varint

  // The state of a message. Strings are raw bytes; a nil slice and an empty one are the same value.
  datatype Msg = Msg(
    channel: seq<byte>,
    subtopic: seq<byte>,
    publisher: seq<byte>,
    protocol: seq<byte>,
    payload: seq<byte>,
    created: int64,
    unrecognized: seq<byte>)

  const ZERO := Msg([], [], [], [], [], 0, [])

  const SCHEMA: Schema :=
    [LengthDelimited, LengthDelimited, LengthDelimited, LengthDelimited, LengthDelimited, Integer(true)]

  // Assigning one record. Known fields keep the last value; unknown bytes accumulate.
  function Assign(m: Msg, r: Record): Msg {
    match r
    case Delimited(1, data) => m.(channel := data)
    case Delimited(2, data) => m.(subtopic := data)
    case Delimited(3, data) => m.(publisher := data)
    case Delimited(4, data) => m.(protocol := data)
    case Delimited(5, data) => m.(payload := data)
    case Number(6, value) => m.(created := ToInt64(value))
    case Unknown(bytes) => m.(unrecognized := m.unrecognized + bytes)
    case _ => m
  }

  function AssignAll(m: Msg, recs: seq<Record>): Msg {
    Fold(Assign, m, recs)
  }

  function Decode(m: Msg, s: seq<byte>, off: nat): Decoded<Msg> {
    DecodeInto(SCHEMA, Assign, m, s, off)
  }

  // The records written for a message, in field order, and its encoding: those records, then the unknown bytes.
  function KnownRecords(m: Msg): seq<Record> {
    Optional(1, m.channel) + (Optional(2, m.subtopic) + (Optional(3, m.publisher) + (Optional(4, m.protocol)
    + (Optional(5, m.payload) + NonZero(6, ToUint64(m.created))))))
  }

  function Encode(m: Msg): seq<byte> {
    EncodeAll(Optional(1, m.channel)) + (EncodeAll(Optional(2, m.subtopic))
    + (EncodeAll(Optional(3, m.publisher)) + (EncodeAll(Optional(4, m.protocol))
    + (EncodeAll(Optional(5, m.payload)) + (EncodeAll(NonZero(6, ToUint64(m.created))) + m.unrecognized)))))
  }

  class Message {
    var channel: seq<byte>
    var subtopic: seq<byte>
    var publisher: seq<byte>
    var protocol: seq<byte>
    var payload: seq<byte>
    var created: int64
    var unrecognized: seq<byte>

    constructor ()
      ensures Value() == ZERO
    {
      channel, subtopic, publisher, protocol, payload := [], [], [], [], [];
      created, unrecognized := 0, [];
    }

    function Value(): Msg
      reads this
    {
      Msg(channel, subtopic, publisher, protocol, payload, created, unrecognized)
    }

    method Size() returns (n: nat)
      ensures n == |Encode(Value())|
    {
      n := 0;
      n := n + SizeOptional(|channel|);
      n := n + SizeOptional(|subtopic|);
      n := n + SizeOptional(|publisher|);
      n := n + SizeOptional(|protocol|);
      n := n + SizeOptional(|payload|);
      n := n + SizeNonZero(ToUint64(created));
      n := n + |unrecognized|;
      SizeOptionalExact(1, channel);
      SizeOptionalExact(2, subtopic);
      SizeOptionalExact(3, publisher);
      SizeOptionalExact(4, protocol);
      SizeOptionalExact(5, payload);
      SizeNonZeroExact(6, ToUint64(created));
    }

    // Fills the end of dAtA[:len] and reports how many bytes were written.
    method MarshalToSizedBuffer(dAtA: array<byte>, len: nat) returns (n: nat)
      requires |Encode(Value())| <= len <= dAtA.Length && len < TWO_63
      modifies dAtA
      ensures n == |Encode(Value())|
      ensures dAtA[..] == old(dAtA[..len - n]) + Encode(Value()) + old(dAtA[len..])
    {
      hide Optional, NonZero, EncodeAll, Filled;
      ghost var orig := dAtA[..];
      ghost var done := unrecognized;
      var i := len;
      FilledStart(orig, len);
      i := PutBytes(dAtA, i, unrecognized, orig, []);
      assert unrecognized + [] == done;
      i := PutNonZero(dAtA, i, 0x30, ToUint64(created), orig, done);
      done := EncodeAll(NonZero(6, ToUint64(created))) + done;
      i := PutOptional(dAtA, i, 0x2a, payload, orig, done);
      done := EncodeAll(Optional(5, payload)) + done;
      i := PutOptional(dAtA, i, 0x22, protocol, orig, done);
      done := EncodeAll(Optional(4, protocol)) + done;
      i := PutOptional(dAtA, i, 0x1a, publisher, orig, done);
      done := EncodeAll(Optional(3, publisher)) + done;
      i := PutOptional(dAtA, i, 0x12, subtopic, orig, done);
      done := EncodeAll(Optional(2, subtopic)) + done;
      i := PutOptional(dAtA, i, 0x0a, channel, orig, done);
      n := len - i;
      FilledEnd(dAtA[..], orig, i, Encode(Value()));
    }

    method Marshal() returns (dAtA: array<byte>)
      requires |Encode(Value())| < TWO_63
      ensures fresh(dAtA) && dAtA[..] == Encode(Value())
    {
      hide Encode;
      var size := Size();
      dAtA := new byte[size];
      var n := MarshalToSizedBuffer(dAtA, size);
    }

    // Fills the first Size() bytes of a larger buffer.
    method MarshalTo(dAtA: array<byte>) returns (n: nat)
      requires |Encode(Value())| <= dAtA.Length < TWO_63
      modifies dAtA
      ensures n == |Encode(Value())|
      ensures dAtA[..] == Encode(Value()) + old(dAtA[n..])
    {
      hide Encode;
      var size := Size();
      n := MarshalToSizedBuffer(dAtA, size);
    }

    // One pass of the outer loop.
    method UnmarshalField(dAtA: seq<byte>, from: nat) returns (iNdEx: nat, err: Option<Error>)
      requires from < |dAtA| < TWO_63
      modifies this
      ensures match StepAt(SCHEMA, dAtA[from..], from)
              case Stop(partial, e) => err == Some(e) && Value() == AssignAll(old(Value()), partial)
              case Next(rec, n) =>
                err == None && iNdEx == from + n <= |dAtA| && Value() == Assign(old(Value()), rec)
    {
      hide StepAt, StepDelimited, StepUnknown;
      var fieldNum, wireType;
      fieldNum, wireType, iNdEx, err := ReadTag(dAtA, from, SCHEMA);
      if err.Some? {
        return;
      }
      ghost var n := iNdEx - from;
      if 1 <= fieldNum <= 5 {
        if wireType != 2 {
          err := Some(WrongWireType(wireType, fieldNum));
          return;
        }
        var data;
        data, iNdEx, err := ReadDelimited(dAtA, iNdEx, fieldNum, n);
        if err.Some? {
          return;
        }
        match fieldNum {
          case 1 => channel := data;
          case 2 => subtopic := data;
          case 3 => publisher := data;
          case 4 => protocol := data;
          case _ => payload := data;
        }
      } else if fieldNum == 6 {
        if wireType != 0 {
          err := Some(WrongWireType(wireType, fieldNum));
          return;
        }
        var word: uint64;
        word, iNdEx, err := Varint.ReadVarint(dAtA, iNdEx);
        created := ToInt64(word);
        RecordProofs.FoldOne(Assign, old(Value()), Number(6, word));
      } else {
        var bytes;
        bytes, iNdEx, err := ReadUnknown(dAtA, from);
        if err.Some? {
          return;
        }
        unrecognized := unrecognized + bytes;
      }
    }

    method Unmarshal(dAtA: seq<byte>) returns (err: Option<Error>)
      requires |dAtA| < TWO_63
      modifies this
      ensures Decoded(Value(), err) == Decode(old(Value()), dAtA, 0)
    {
      hide StepAt, Assign;
      var l := |dAtA|;
      var iNdEx := 0;
      while iNdEx < l
        invariant iNdEx <= l
        invariant Decode(old(Value()), dAtA, 0) == Decode(Value(), dAtA[iNdEx..], iNdEx)
      {
        var from := iNdEx;
        iNdEx, err := UnmarshalField(dAtA, from);
        if err.Some? {
          return;
        }
        assert dAtA[from..][iNdEx - from..] == dAtA[iNdEx..];
      }
      err := None;
    }
  }
}
