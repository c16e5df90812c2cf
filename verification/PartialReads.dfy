// What a message holds after an input that breaks off within a field: integers read in place keep the bits read
// until then, everything else is as before the field.
module PartialReads {
  import opened Wrappers
  import opened MachineWord
  import opened WireErrors
  import opened Records
  import opened Rejections
  import RecordProofs
  import Varint
  import AuthorizeRes
  import IssueReq
  import MembersRes
  import Message

  lemma OneByteVarint(b: byte)
    requires b < 128
    ensures Varint.IsVarint([b]) && Varint.Word([b]) == b
  {
    assert [b][1..] == [];
    assert Varint.Digits([b][1..]) == 0;
  }

  // The parse of an integer field that does not end.
  lemma IntegerBreaksOff(sch: Schema, num: nat, rest: seq<byte>, c: seq<byte>, e: Error, off: nat)
    requires 1 <= num <= |sch| && sch[num - 1].Integer? && Unfinished(rest, c, e)
    ensures Parse(sch, [8 * num] + rest, off)
         == Parsed(if sch[num - 1].inPlace then [Number(num, Varint.Word(c))] else [], Some(e))
  {
    hide StepAt, Varint.Word, Varint.IsVarint, Unfinished;
    OneByteVarint(8 * num);
    NumberRejected(sch, [8 * num], num, rest, c, e, off);
  }

  lemma StringBreaksOff(sch: Schema, num: nat, rest: seq<byte>, c: seq<byte>, e: Error, off: nat)
    requires 1 <= num <= |sch| && sch[num - 1].LengthDelimited? && Unfinished(rest, c, e)
    ensures Parse(sch, [8 * num + 2] + rest, off) == Parsed([], Some(e))
  {
    hide StepAt, Varint.Word, Varint.IsVarint, Unfinished;
    OneByteVarint(8 * num + 2);
    LengthRejected(sch, [8 * num + 2], num, rest, c, e, off);
  }

  // Field 6 of a message is read in place ...
  lemma CreatedBreaksOff(m: Message.Msg, rest: seq<byte>, c: seq<byte>, e: Error, off: nat)
    requires Unfinished(rest, c, e)
    ensures Message.Decode(m, [0x30] + rest, off)
         == Decoded(m.(created := ToInt64(Varint.Word(c))), Some(e))
  {
    hide Parse, Unfinished, Varint.Word;
    IntegerBreaksOff(Message.SCHEMA, 6, rest, c, e, off);
    RecordProofs.FoldOne(Message.Assign, m, Number(6, Varint.Word(c)));
  }

  // ... and a string that breaks off leaves the message as it was.
  lemma ChannelBreaksOff(m: Message.Msg, rest: seq<byte>, c: seq<byte>, e: Error, off: nat)
    requires Unfinished(rest, c, e)
    ensures Message.Decode(m, [0x0a] + rest, off) == Decoded(m, Some(e))
  {
    hide Parse, Unfinished;
    StringBreaksOff(Message.SCHEMA, 1, rest, c, e, off);
  }

  lemma PageBreaksOff(m: MembersRes.Msg, rest: seq<byte>, c: seq<byte>, e: Error, off: nat)
    requires Unfinished(rest, c, e)
    ensures MembersRes.Decode(m, [0x08] + rest, off) == Decoded(m.(total := Varint.Word(c)), Some(e))
    ensures MembersRes.Decode(m, [0x10] + rest, off) == Decoded(m.(offset := Varint.Word(c)), Some(e))
    ensures MembersRes.Decode(m, [0x18] + rest, off) == Decoded(m.(limit := Varint.Word(c)), Some(e))
  {
    hide Parse, Unfinished, Varint.Word;
    IntegerBreaksOff(MembersRes.SCHEMA, 1, rest, c, e, off);
    IntegerBreaksOff(MembersRes.SCHEMA, 2, rest, c, e, off);
    IntegerBreaksOff(MembersRes.SCHEMA, 3, rest, c, e, off);
    RecordProofs.FoldOne(MembersRes.Assign, m, Number(1, Varint.Word(c)));
    RecordProofs.FoldOne(MembersRes.Assign, m, Number(2, Varint.Word(c)));
    RecordProofs.FoldOne(MembersRes.Assign, m, Number(3, Varint.Word(c)));
  }

  lemma TypeBreaksOff(m: IssueReq.Msg, rest: seq<byte>, c: seq<byte>, e: Error, off: nat)
    requires Unfinished(rest, c, e)
    ensures IssueReq.Decode(m, [0x18] + rest, off) == Decoded(m.(kind := Varint.Word(c) % TWO_32), Some(e))
  {
    hide Parse, Unfinished, Varint.Word;
    IntegerBreaksOff(IssueReq.SCHEMA, 3, rest, c, e, off);
    RecordProofs.FoldOne(IssueReq.Assign, m, Number(3, Varint.Word(c)));
  }

  // The flag is read into a variable of its own and assigned only when it is there.
  lemma FlagBreaksOff(m: AuthorizeRes.Msg, rest: seq<byte>, c: seq<byte>, e: Error, off: nat)
    requires Unfinished(rest, c, e)
    ensures AuthorizeRes.Decode(m, [0x08] + rest, off) == Decoded(m, Some(e))
  {
    hide Parse, Unfinished, Varint.Word;
    IntegerBreaksOff(AuthorizeRes.SCHEMA, 1, rest, c, e, off);
  }

  // The same behind any accepted input, whose fields are all assigned by then.
  lemma MessageBreaksOff(m: Message.Msg, a: seq<byte>, rest: seq<byte>, c: seq<byte>, e: Error)
    requires |a| < TWO_63 && Message.Decode(m, a, 0).err == None && Unfinished(rest, c, e)
    ensures Message.Decode(m, a + ([0x30] + rest), 0)
         == Decoded(Message.Decode(m, a, 0).msg.(created := ToInt64(Varint.Word(c))), Some(e))
  {
    hide Message.Decode, Unfinished, Varint.Word;
    CreatedBreaksOff(Message.Decode(m, a, 0).msg, rest, c, e, |a|);
    DecodeIs(m, a, [0x30] + rest);
  }

  lemma DecodeIs(m: Message.Msg, a: seq<byte>, b: seq<byte>)
    requires |a| < TWO_63 && Message.Decode(m, a, 0).err == None
    ensures Message.Decode(m, a + b, 0) == Message.Decode(Message.Decode(m, a, 0).msg, b, |a|)
  {
    hide DecodeInto;
    RecordProofs.MergeByConcatenation(Message.SCHEMA, Message.Assign, m, a, b, 0);
  }
}
