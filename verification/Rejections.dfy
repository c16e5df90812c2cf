// What is reported of an input that is rejected, and what has been assigned by then, stated on the bytes.
module Rejections {
  import opened Wrappers
  import opened MachineWord
  import opened WireErrors
  import opened FieldGrammar
  import opened SkipProofs
  import opened Records
  import opened MessageGrammar
  import opened Varint

  // ----- varints that do not end

  predicate AllContinue(c: seq<byte>) {
    forall i :: 0 <= i < |c| ==> c[i] >= 128
  }

  lemma {:induction false} RawTruncated(c: seq<byte>, k: nat)
    requires AllContinue(c) && |c| + k < 10
    ensures ReadRaw(c, k) == Reading(Digits(c), |c|, Some(UnexpectedEOF))
    decreases |c|
  {
    if c != [] { RawTruncated(c[1..], k + 1); }
  }

  lemma {:induction false} RawOverlong(c: seq<byte>, t: seq<byte>, k: nat)
    requires AllContinue(c) && |c| + k == 10
    ensures ReadRaw(c + t, k) == Reading(Digits(c), |c|, Some(IntOverflow))
    decreases |c|
  {
    if c != [] {
      assert (c + t)[0] == c[0] && (c + t)[1..] == c[1..] + t;
      RawOverlong(c[1..], t, k + 1);
    }
  }

  // An input that ends within a varint, and a varint of more than ten bytes, with the bits read until then.
  lemma ReadTruncated(c: seq<byte>)
    requires AllContinue(c) && |c| < 10
    ensures Read(c) == Value(Word(c), |c|, Some(UnexpectedEOF))
  {
    RawTruncated(c, 0);
  }

  lemma ReadOverlong(c: seq<byte>, t: seq<byte>)
    requires AllContinue(c) && |c| == 10
    ensures Read(c + t) == Value(Word(c), 10, Some(IntOverflow))
  {
    RawOverlong(c, t, 0);
  }

  // The error of a varint that does not end, and the text that shows it.
  ghost predicate Unfinished(s: seq<byte>, c: seq<byte>, e: Error) {
    AllContinue(c) && c <= s
    && ((|c| < 10 && s == c && e == UnexpectedEOF) || (|c| == 10 && e == IntOverflow))
  }

  lemma ReadUnfinished(s: seq<byte>, c: seq<byte>, e: Error)
    requires Unfinished(s, c, e)
    ensures Read(s) == Value(Word(c), |c|, Some(e))
  {
    hide Read, Word;
    if |c| < 10 {
      ReadTruncated(c);
    } else {
      ReadOverlong(c, s[|c|..]);
      assert c + s[|c|..] == s;
    }
  }

  // A varint is not read exactly when it does not end, and the error says how.
  lemma UnfinishedIff(s: seq<byte>, e: Error)
    ensures Read(s).err == Some(e) <==> exists c :: Unfinished(s, c, e)
  {
    hide Unfinished, Word;
    if c :| Unfinished(s, c, e) {
      ReadUnfinished(s, c, e);
    }
    if Read(s).err == Some(e) {
      var c := RawUnfinished(s, 0);
      assert Unfinished(s, c, e) by { IsUnfinished(s, c, e); }
    }
  }

  lemma IsUnfinished(s: seq<byte>, c: seq<byte>, e: Error)
    requires AllContinue(c) && c <= s
    requires (|c| < 10 && s == c && e == UnexpectedEOF) || (|c| == 10 && e == IntOverflow)
    ensures Unfinished(s, c, e)
  {
  }

  lemma {:induction false} RawUnfinished(s: seq<byte>, k: nat) returns (c: seq<byte>)
    requires k <= 10 && ReadRaw(s, k).err.Some?
    ensures AllContinue(c) && c <= s
    ensures var e := ReadRaw(s, k).err.value;
            (|c| + k < 10 && s == c && e == UnexpectedEOF) || (|c| + k == 10 && e == IntOverflow)
    decreases |s|
  {
    if k == 10 || s == [] {
      c := [];
    } else {
      var rest := RawUnfinished(s[1..], k + 1);
      c := [s[0]] + rest;
    }
  }

  // ----- one field of a message

  lemma TagUnfinished(sch: Schema, s: seq<byte>, c: seq<byte>, e: Error, off: nat)
    requires Unfinished(s, c, e)
    ensures StepAt(sch, s, off) == Stop([], e)
  {
    hide Read;
    ReadUnfinished(s, c, e);
  }

  // An end tag outside a group, a number that is not positive in 32 bits, the wrong wire type for a known number.
  lemma TagRejected(sch: Schema, tag: seq<byte>, rest: seq<byte>, off: nat)
    requires IsVarint(tag)
    ensures var wire := Word(tag);
            var num := ToInt32(wire / 8);
            && (wire % 8 == 4 ==> StepAt(sch, tag + rest, off) == Stop([], EndGroupForNonGroup))
            && (wire % 8 != 4 && num <= 0 ==> StepAt(sch, tag + rest, off) == Stop([], IllegalTag(num, wire)))
            && (wire % 8 != 4 && 1 <= num <= |sch| && wire % 8 != (if sch[num - 1].LengthDelimited? then 2 else 0) ==>
                  StepAt(sch, tag + rest, off) == Stop([], WrongWireType(wire % 8, num)))
  {
    hide Read, Word, IsVarint, ToInt32;
    ReadComplete(tag, rest);
  }

  // A tag with a known number and its wire type.
  predicate Announces(sch: Schema, tag: seq<byte>, num: nat) {
    && IsVarint(tag) && 1 <= num <= |sch| && ToInt32(Word(tag) / 8) == num
    && Word(tag) % 8 == if sch[num - 1].LengthDelimited? then 2 else 0
  }

  lemma StepAnnounced(sch: Schema, tag: seq<byte>, rest: seq<byte>, num: nat, off: nat)
    requires Announces(sch, tag, num)
    ensures tag != [] && StepAt(sch, tag + rest, off)
         == if sch[num - 1].LengthDelimited? then StepDelimited(num, |tag|, rest, off + |tag|)
            else StepNumber(num, sch[num - 1].inPlace, |tag|, rest)
  {
    hide Read, Word, ToInt32, StepDelimited, StepNumber;
    ReadComplete(tag, rest);
    assert (tag + rest)[|tag|..] == rest;
  }

  // An integer that does not end: one read in place keeps the bits read until then, another is not assigned.
  lemma NumberRejected(sch: Schema, tag: seq<byte>, num: nat, rest: seq<byte>, c: seq<byte>, e: Error, off: nat)
    requires Announces(sch, tag, num) && sch[num - 1].Integer? && Unfinished(rest, c, e)
    ensures StepAt(sch, tag + rest, off) == Stop(if sch[num - 1].inPlace then [Number(num, Word(c))] else [], e)
  {
    hide Announces, Read, Word, StepAt, Unfinished;
    StepAnnounced(sch, tag, rest, num, off);
    ReadUnfinished(rest, c, e);
  }

  // A length that does not end.
  lemma LengthRejected(sch: Schema, tag: seq<byte>, num: nat, rest: seq<byte>, c: seq<byte>, e: Error, off: nat)
    requires Announces(sch, tag, num) && sch[num - 1].LengthDelimited? && Unfinished(rest, c, e)
    ensures StepAt(sch, tag + rest, off) == Stop([], e)
  {
    hide Announces, Read, Word, StepAt, Unfinished;
    StepAnnounced(sch, tag, rest, num, off);
    ReadUnfinished(rest, c, e);
  }

  // A length that is negative as an int or takes the cursor beyond one, and data that is not all there.
  lemma DataRejected(sch: Schema, tag: seq<byte>, num: nat, len: seq<byte>, rest: seq<byte>, off: nat)
    requires Announces(sch, tag, num) && sch[num - 1].LengthDelimited? && IsVarint(len)
    ensures var end := off + |tag| + |len| + Word(len);
            var step := StepAt(sch, tag + (len + rest), off);
            && (Word(len) >= TWO_63 || end >= TWO_63 ==> step == Stop([], InvalidLength))
            && (end < TWO_63 && Word(len) > |rest| ==> step == Stop([], UnexpectedEOF))
  {
    hide Announces, Read, Word, StepAt, IsVarint;
    StepAnnounced(sch, tag, len + rest, num, off);
    ReadComplete(len, rest);
  }

  // A field that is not known: what the skip makes of it.
  lemma UnknownRejected(sch: Schema, tag: seq<byte>, rest: seq<byte>, off: nat)
    requires IsVarint(tag) && Word(tag) % 8 != 4 && ToInt32(Word(tag) / 8) > |sch|
    ensures var s := tag + rest;
            match Skip(s)
            case SkipError(e) => StepAt(sch, s, off) == Stop([], e)
            case Skipped(n) =>
              && (off + n >= TWO_63 ==> StepAt(sch, s, off) == Stop([], InvalidLength))
              && (off + n < TWO_63 && n > |s| ==> StepAt(sch, s, off) == Stop([], UnexpectedEOF))
  {
    hide Read, Word, IsVarint, ToInt32, Skip;
    ReadComplete(tag, rest);
  }

  // ----- skipping: groups left open and a token that is not one

  datatype Open = Open(tag: seq<byte>, body: Fields)

  predicate ValidOpens(os: seq<Open>) {
    forall i :: 0 <= i < |os| ==> IsTag(os[i].tag, 3) && ValidFields(os[i].body)
  }

  function OpensBytes(os: seq<Open>): seq<byte> {
    if os == [] then [] else os[0].tag + (FieldsBytes(os[0].body) + OpensBytes(os[1..]))
  }

  lemma {:induction false} SkipOpens(os: seq<Open>, rest: seq<byte>, depth: nat, done: nat)
    requires ValidOpens(os) && done + |OpensBytes(os)| < TWO_63
    ensures SkipFrom(OpensBytes(os) + rest, depth, done) == SkipFrom(rest, depth + |os|, done + |OpensBytes(os)|)
    decreases |os|
  {
    hide SkipFrom, IsTag, ValidFields, FieldsBytes;
    if os == [] {
      assert [] + rest == rest;
    } else {
      var body, inner := FieldsBytes(os[0].body), OpensBytes(os[1..]);
      Assoc3(os[0].tag, body + inner, rest);
      Assoc3(body, inner, rest);
      SkipOpening(os[0].tag, body + (inner + rest), depth, done);
      SkipOverFields(os[0].body, inner + rest, depth + 1, done + |os[0].tag|);
      SkipOpens(os[1..], rest, depth + 1, done + |os[0].tag| + |body|);
    }
  }

  // A field that would end at `end`, behind the end of the input: too far for an int, or within an open group.
  predicate Beyond(end: nat, depth: nat, e: Error) {
    if end >= TWO_63 then e == InvalidLength else depth > 0 && e == UnexpectedEOF
  }

  // Texts at which the walk stops, given the number of groups open and the bytes walked over, and the error.
  ghost predicate BadText(s: seq<byte>, depth: nat, done: nat, e: Error) {
    || (s == [] && depth > 0 && e == UnexpectedEOF)
    || (s != [] && exists c :: Unfinished(s, c, e))
    || exists tag, rest :: s == tag + rest && IsVarint(tag) && BadAfterTag(tag, rest, depth, done + |tag|, e)
  }

  ghost predicate BadAfterTag(tag: seq<byte>, rest: seq<byte>, depth: nat, done: nat, e: Error) {
    match Word(tag) % 8
    case 0 => exists c :: Unfinished(rest, c, e)
    case 1 => |rest| < 8 && Beyond(done + 8, depth, e)
    case 2 =>
      || (exists c :: Unfinished(rest, c, e))
      || exists len, data :: rest == len + data && IsVarint(len) && BadLength(len, data, depth, done + |len|, e)
    case 3 => false
    case 4 => depth == 0 && e == UnexpectedEndOfGroup
    case 5 => |rest| < 4 && Beyond(done + 4, depth, e)
    case w => e == IllegalWireType(w)
  }

  predicate BadLength(len: seq<byte>, data: seq<byte>, depth: nat, done: nat, e: Error) {
    if Word(len) >= TWO_63 then e == InvalidLength else Word(len) > |data| && Beyond(done + Word(len), depth, e)
  }

  lemma BadTagStops(tag: seq<byte>, rest: seq<byte>, depth: nat, done: nat, e: Error)
    requires IsVarint(tag) && BadAfterTag(tag, rest, depth, done + |tag|, e) && done + |tag| + |rest| < TWO_63
    ensures SkipFrom(tag + rest, depth, done) == SkipError(e)
  {
    hide Read, Word, Digits;
    ReadComplete(tag, rest);
    assert (tag + rest)[|tag|..] == rest && tag + rest != [];
    var w := Word(tag) % 8;
    if (w == 0 || w == 2) && exists c :: Unfinished(rest, c, e) {
      var c :| Unfinished(rest, c, e);
      ReadUnfinished(rest, c, e);
    } else if w == 2 {
      var len, data :| rest == len + data && IsVarint(len) && BadLength(len, data, depth, done + |tag| + |len|, e);
      ReadComplete(len, data);
    }
  }

  lemma BadTextStops(s: seq<byte>, depth: nat, done: nat, e: Error)
    requires BadText(s, depth, done, e) && done + |s| < TWO_63
    ensures SkipFrom(s, depth, done) == SkipError(e)
  {
    hide BadAfterTag, Unfinished, Read, Word;
    if tag, rest :| s == tag + rest && IsVarint(tag) && BadAfterTag(tag, rest, depth, done + |tag|, e) {
      BadTagStops(tag, rest, depth, done, e);
    } else if s != [] {
      var c :| Unfinished(s, c, e);
      ReadUnfinished(s, c, e);
    }
  }

  // Whatever groups are open and whatever fields they hold so far, the walk reports the error of the first text
  // that is not a token.
  lemma SkipRejects(os: seq<Open>, bad: seq<byte>, e: Error)
    requires ValidOpens(os) && |OpensBytes(os)| + |bad| < TWO_63 && BadText(bad, |os|, |OpensBytes(os)|, e)
    ensures Skip(OpensBytes(os) + bad) == SkipError(e)
  {
    hide SkipFrom, BadText;
    SkipOpens(os, bad, 0, 0);
    BadTextStops(bad, |os|, |OpensBytes(os)|, e);
  }

  // ----- truncated inputs

  lemma {:induction false} RawPrefix(p: seq<byte>, t: seq<byte>, k: nat)
    requires ReadRaw(p + t, k).err.None?
    ensures ReadRaw(p, k) == ReadRaw(p + t, k)
         || (ReadRaw(p, k).err == Some(UnexpectedEOF) && ReadRaw(p + t, k).n > |p|)
    decreases |p|
  {
    if p == [] {
      assert p + t == t;
    } else {
      assert (p + t)[0] == p[0] && (p + t)[1..] == p[1..] + t;
      if p[0] >= 128 { RawPrefix(p[1..], t, k + 1); }
    }
  }

  // The start of a text that is read: read the same, or reported as ending too early.
  lemma ReadPrefix(p: seq<byte>, t: seq<byte>)
    requires Read(p + t).err.None?
    ensures Read(p) == Read(p + t) || (Read(p).err == Some(UnexpectedEOF) && Read(p + t).n > |p|)
  {
    RawPrefix(p, t, 0);
  }

  lemma TokenPrefix(p: seq<byte>, t: seq<byte>, depth: nat)
    requires TokenAt(p + t, depth).Token?
    ensures TokenAt(p, depth) == TokenAt(p + t, depth)
         || (TokenAt(p, depth) == BadToken(UnexpectedEOF) && TokenAt(p + t, depth).width > |p|)
  {
    hide Read;
    ReadPrefix(p, t);
    var tag := Read(p + t);
    if Read(p) == tag {
      assert (p + t)[tag.n..] == p[tag.n..] + t;
      if tag.value % 8 == 0 || tag.value % 8 == 2 { ReadPrefix(p[tag.n..], t); }
    }
  }

  lemma {:induction false} SkipPrefix(p: seq<byte>, t: seq<byte>, depth: nat, done: nat)
    requires SkipFrom(p + t, depth, done).Skipped?
    ensures SkipFrom(p, depth, done) == SkipFrom(p + t, depth, done)
         || (SkipFrom(p, depth, done) == SkipError(UnexpectedEOF) && SkipFrom(p + t, depth, done).n - done > |p|)
    decreases |p|
  {
    hide TokenAt;
    if p != [] {
      TokenPrefix(p, t, depth);
      var token := TokenAt(p + t, depth);
      if TokenAt(p, depth) == token && token.depth > 0 && token.width <= |p| {
        assert (p + t)[token.width..] == p[token.width..] + t;
        SkipPrefix(p[token.width..], t, token.depth, done + token.width);
      }
    }
  }

  lemma StepPrefix(sch: Schema, p: seq<byte>, t: seq<byte>, off: nat)
    requires p != [] && StepAt(sch, p + t, off).Next?
    ensures var whole := StepAt(sch, p + t, off);
            if whole.n <= |p| then StepAt(sch, p, off) == whole
            else StepAt(sch, p, off).Stop? && StepAt(sch, p, off).err == UnexpectedEOF
  {
    hide Read, SkipFrom, ToInt32;
    ReadPrefix(p, t);
    StepCoversTag(sch, p + t, off);
    var tag := Read(p + t);
    if Read(p) == tag {
      var rest := p[tag.n..];
      assert (p + t)[tag.n..] == rest + t;
      var num := ToInt32(tag.value / 8);
      if num > |sch| {
        SkipPrefix(p, t, 0, 0);
        UnknownPrefix(p, t, off);
      } else {
        ReadPrefix(rest, t);
        if sch[num - 1].LengthDelimited? { DelimitedPrefix(num, tag.n, rest, t, off + tag.n); }
      }
    }
  }

  lemma StepCoversTag(sch: Schema, s: seq<byte>, off: nat)
    requires StepAt(sch, s, off).Next?
    ensures StepAt(sch, s, off).n >= Read(s).n
  {
    hide Read, ToInt32;
    if StepUnknown(s, off).Next? { SkipCoversTag(s); }
  }

  lemma SkipCoversTag(s: seq<byte>)
    requires Skip(s).Skipped?
    ensures Skip(s).n >= Read(s).n
  {
    hide Read;
  }

  lemma DelimitedPrefix(num: nat, n: nat, p: seq<byte>, t: seq<byte>, off: nat)
    requires StepDelimited(num, n, p + t, off).Next?
    ensures var whole := StepDelimited(num, n, p + t, off);
            if whole.n <= n + |p| then StepDelimited(num, n, p, off) == whole
            else StepDelimited(num, n, p, off) == Stop([], UnexpectedEOF)
  {
    hide Read;
    ReadPrefix(p, t);
    var len := Read(p + t);
    if Read(p) == len && len.n + len.value <= |p| {
      assert (p + t)[len.n..len.n + len.value] == p[len.n..len.n + len.value];
    }
  }

  lemma UnknownPrefix(p: seq<byte>, t: seq<byte>, off: nat)
    requires StepUnknown(p + t, off).Next?
    ensures var whole := StepUnknown(p + t, off);
            if whole.n <= |p| then StepUnknown(p, off) == whole else StepUnknown(p, off) == Stop([], UnexpectedEOF)
  {
    hide SkipFrom;
    SkipPrefix(p, t, 0, 0);
    var k := Skip(p + t).n;
    if k <= |p| { assert (p + t)[..k] == p[..k]; }
  }

  // An accepted input cut off anywhere is accepted too or reported as ending too early, never as anything else,
  // and the records read of it are the first of the whole.
  lemma {:induction false} TruncatedInput(sch: Schema, p: seq<byte>, t: seq<byte>, off: nat)
    requires Accepts(sch, p + t, off)
    ensures var cut, whole := Parse(sch, p, off), Parse(sch, p + t, off);
            && (cut.err == None || cut.err == Some(UnexpectedEOF))
            && (cut.err == None ==> cut.recs <= whole.recs)
    decreases |p|
  {
    hide StepAt;
    if p != [] {
      StepPrefix(sch, p, t, off);
      var step := StepAt(sch, p + t, off);
      if step.n <= |p| {
        assert (p + t)[step.n..] == p[step.n..] + t;
        TruncatedInput(sch, p[step.n..], t, off + step.n);
      }
    }
  }
}
