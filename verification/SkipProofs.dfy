// `skipMessage` recognises exactly the fields of the grammar, at their full length.
module SkipProofs {
  import opened MachineWord
  import opened FieldGrammar
  import Varint

  lemma TokenAfterTag(tag: seq<byte>, rest: seq<byte>, wireType: nat, depth: nat)
    requires IsTag(tag, wireType)
    ensures TokenAt(tag + rest, depth) == TokenBody(wireType, |tag|, rest, depth)
    ensures (tag + rest)[|tag|..] == rest && tag != []
  {
    Varint.ReadComplete(tag, rest);
  }

  // ----- completeness: every field is stepped over as one unit

  lemma LeafToken(f: Field, rest: seq<byte>, depth: nat)
    requires ValidField(f) && !f.GroupField?
    ensures TokenAt(FieldBytes(f) + rest, depth) == Token(|FieldBytes(f)|, depth)
    ensures FieldBytes(f) != []
  {
    hide TokenAt, IsTag, Varint.IsVarint, Varint.Word, Varint.Read;
    match f
    case VarintField(tag, value) =>
      assert FieldBytes(f) + rest == tag + (value + rest);
      TokenAfterTag(tag, value + rest, 0, depth);
      Varint.ReadComplete(value, rest);
    case Fixed64Field(tag, data) =>
      assert FieldBytes(f) + rest == tag + (data + rest);
      TokenAfterTag(tag, data + rest, 1, depth);
    case BytesField(tag, len, data) =>
      assert FieldBytes(f) + rest == tag + (len + (data + rest));
      TokenAfterTag(tag, len + (data + rest), 2, depth);
      Varint.ReadComplete(len, data + rest);
    case Fixed32Field(tag, data) =>
      assert FieldBytes(f) + rest == tag + (data + rest);
      TokenAfterTag(tag, data + rest, 5, depth);
  }

  // One iteration of the skip, given its token.
  lemma SkipStep(s: seq<byte>, depth: nat, done: nat, width: nat, depth': nat)
    requires s != [] && TokenAt(s, depth) == Token(width, depth')
    requires width <= |s| && done + width < TWO_63
    ensures SkipFrom(s, depth, done)
         == if depth' == 0 then Skipped(done + width) else SkipFrom(s[width..], depth', done + width)
  {
    hide TokenAt;
  }

  lemma SkipOverLeaf(f: Field, rest: seq<byte>, depth: nat, done: nat)
    requires ValidField(f) && !f.GroupField? && done + |FieldBytes(f)| < TWO_63
    ensures var n := |FieldBytes(f)|;
            SkipFrom(FieldBytes(f) + rest, depth, done)
            == if depth == 0 then Skipped(done + n) else SkipFrom(rest, depth, done + n)
  {
    hide SkipFrom, TokenAt;
    LeafToken(f, rest, depth);
    assert (FieldBytes(f) + rest)[|FieldBytes(f)|..] == rest;
    SkipStep(FieldBytes(f) + rest, depth, done, |FieldBytes(f)|, depth);
  }

  lemma SkipOpening(tag: seq<byte>, rest: seq<byte>, depth: nat, done: nat)
    requires IsTag(tag, 3) && done + |tag| < TWO_63
    ensures SkipFrom(tag + rest, depth, done) == SkipFrom(rest, depth + 1, done + |tag|)
  {
    hide SkipFrom, TokenAt, IsTag;
    TokenAfterTag(tag, rest, 3, depth);
    SkipStep(tag + rest, depth, done, |tag|, depth + 1);
  }

  lemma SkipClosing(end: seq<byte>, rest: seq<byte>, depth: nat, done: nat)
    requires IsTag(end, 4) && done + |end| < TWO_63 && depth > 0
    ensures SkipFrom(end + rest, depth, done)
         == if depth == 1 then Skipped(done + |end|) else SkipFrom(rest, depth - 1, done + |end|)
  {
    hide SkipFrom, TokenAt, IsTag;
    TokenAfterTag(end, rest, 4, depth);
    SkipStep(end + rest, depth, done, |end|, depth - 1);
  }

  lemma Assoc3(a: seq<byte>, b: seq<byte>, c: seq<byte>)
    ensures (a + b) + c == a + (b + c)
  {
  }

  lemma {:induction false} SkipOverField(f: Field, rest: seq<byte>, depth: nat, done: nat)
    requires ValidField(f) && done + |FieldBytes(f)| < TWO_63
    ensures var n := |FieldBytes(f)|;
            SkipFrom(FieldBytes(f) + rest, depth, done)
            == if depth == 0 then Skipped(done + n) else SkipFrom(rest, depth, done + n)
    decreases f
  {
    hide SkipFrom, IsTag;
    if f.GroupField? {
      var body := FieldsBytes(f.body);
      Assoc3(f.tag + body, f.end, rest);
      Assoc3(f.tag, body, f.end + rest);
      SkipOpening(f.tag, body + (f.end + rest), depth, done);
      SkipOverFields(f.body, f.end + rest, depth + 1, done + |f.tag|);
      SkipClosing(f.end, rest, depth + 1, done + |f.tag| + |body|);
    } else {
      SkipOverLeaf(f, rest, depth, done);
    }
  }

  lemma {:induction false} SkipOverFields(fs: Fields, rest: seq<byte>, depth: nat, done: nat)
    requires ValidFields(fs) && depth > 0 && done + |FieldsBytes(fs)| < TWO_63
    ensures SkipFrom(FieldsBytes(fs) + rest, depth, done) == SkipFrom(rest, depth, done + |FieldsBytes(fs)|)
    decreases fs
  {
    hide SkipFrom, ValidField, FieldBytes;
    match fs
    case Nil =>
      assert FieldsBytes(fs) + rest == rest;
    case Cons(f, tail) =>
      Assoc3(FieldBytes(f), FieldsBytes(tail), rest);
      SkipOverField(f, FieldsBytes(tail) + rest, depth, done);
      SkipOverFields(tail, rest, depth, done + |FieldBytes(f)|);
  }

  // ----- soundness: what was stepped over is a field

  lemma TagSound(s: seq<byte>)
    requires Varint.Read(s).err.None?
    ensures var r := Varint.Read(s); IsTag(s[..r.n], r.value % 8)
  {
    Varint.ReadSound(s);
  }

  // A token of width w within the input: a whole field, the opening of a group or the closing of one.
  lemma TokenSound(s: seq<byte>, depth: nat) returns (f: Field)
    requires TokenAt(s, depth).Token? && TokenAt(s, depth).width <= |s|
    ensures var t := TokenAt(s, depth); var bs := s[..t.width];
            || (t.depth == depth && ValidField(f) && FieldBytes(f) == bs)
            || (t.depth == depth + 1 && IsTag(bs, 3))
            || (t.depth == depth - 1 && IsTag(bs, 4))
  {
    TagSound(s);
    var r := Varint.Read(s);
    f := LeafSound(s[..r.n], r.value % 8, s[r.n..], depth);
    var t := TokenAt(s, depth);
    assert s[..t.width] == s[..r.n] + s[r.n..][..t.width - r.n];
    if t.depth != depth { assert s[..t.width] == s[..r.n]; }
  }

  lemma LeafSound(tag: seq<byte>, wireType: nat, rest: seq<byte>, depth: nat) returns (f: Field)
    requires IsTag(tag, wireType)
    requires var t := TokenBody(wireType, |tag|, rest, depth); t.Token? && t.width - |tag| <= |rest|
    ensures var t := TokenBody(wireType, |tag|, rest, depth);
            t.depth == depth ==> ValidField(f) && FieldBytes(f) == tag + rest[..t.width - |tag|]
  {
    hide IsTag, Varint.IsVarint, Varint.Word, Varint.Read;
    if wireType == 0 {
      Varint.ReadSound(rest);
      f := VarintField(tag, rest[..Varint.Read(rest).n]);
    } else if wireType == 1 {
      f := Fixed64Field(tag, rest[..8]);
    } else if wireType == 2 {
      f := BytesSound(tag, rest);
    } else if wireType == 5 {
      f := Fixed32Field(tag, rest[..4]);
    } else {
      f := Fixed32Field([], []);
    }
  }

  lemma BytesSound(tag: seq<byte>, rest: seq<byte>) returns (f: Field)
    requires IsTag(tag, 2) && Varint.Read(rest).err.None?
    requires var len := Varint.Read(rest); len.value < TWO_63 && len.n + len.value <= |rest|
    ensures var len := Varint.Read(rest); ValidField(f) && FieldBytes(f) == tag + rest[..len.n + len.value]
  {
    hide IsTag, Varint.IsVarint, Varint.Word, Varint.Read;
    Varint.ReadSound(rest);
    var len := Varint.Read(rest);
    f := BytesField(tag, rest[..len.n], rest[len.n..len.n + len.value]);
    assert rest[..len.n] + rest[len.n..len.n + len.value] == rest[..len.n + len.value];
  }

  // Inside d groups the walk is a body and an end tag for each of them, innermost first.
  datatype Frame = Frame(body: Fields, end: seq<byte>)

  predicate ValidFrames(frames: seq<Frame>) {
    forall i :: 0 <= i < |frames| ==> ValidFields(frames[i].body) && IsTag(frames[i].end, 4)
  }

  function FramesBytes(frames: seq<Frame>): seq<byte> {
    if frames == [] then [] else FieldsBytes(frames[0].body) + frames[0].end + FramesBytes(frames[1..])
  }

  // One more field at the front of the innermost body.
  function Push(f: Field, frames: seq<Frame>): seq<Frame>
    requires frames != []
  {
    [Frame(Cons(f, frames[0].body), frames[0].end)] + frames[1..]
  }

  lemma PushBytes(f: Field, frames: seq<Frame>)
    requires frames != [] && ValidField(f) && ValidFrames(frames)
    ensures ValidFrames(Push(f, frames)) && FramesBytes(Push(f, frames)) == FieldBytes(f) + FramesBytes(frames)
  {
    hide IsTag, FieldBytes, ValidField;
    assert Push(f, frames)[1..] == frames[1..];
    Assoc3(FieldBytes(f), FieldsBytes(frames[0].body), frames[0].end);
    Assoc3(FieldBytes(f), FieldsBytes(frames[0].body) + frames[0].end, FramesBytes(frames[1..]));
  }

  // Closing the innermost frame makes it a group.
  function Close(tag: seq<byte>, frames: seq<Frame>): Field
    requires frames != []
  {
    GroupField(tag, frames[0].body, frames[0].end)
  }

  lemma CloseBytes(tag: seq<byte>, frames: seq<Frame>)
    requires frames != [] && IsTag(tag, 3) && ValidFrames(frames)
    ensures ValidField(Close(tag, frames)) && ValidFrames(frames[1..])
    ensures FieldBytes(Close(tag, frames)) + FramesBytes(frames[1..]) == tag + FramesBytes(frames)
  {
    hide IsTag;
  }

  // The first token of a successful walk, and what is left of it.
  lemma SkipUnfolds(s: seq<byte>, depth: nat, done: nat)
    requires SkipFrom(s, depth, done).Skipped? && SkipFrom(s, depth, done).n - done <= |s|
    ensures s != [] && TokenAt(s, depth).Token?
    ensures var t, r := TokenAt(s, depth), SkipFrom(s, depth, done);
            && t.width <= r.n - done
            && (if t.depth == 0 then r.n == done + t.width else r == SkipFrom(s[t.width..], t.depth, done + t.width))
  {
    hide TokenAt;
  }

  lemma {:induction false} FramesSound(s: seq<byte>, depth: nat, done: nat) returns (frames: seq<Frame>)
    requires depth > 0
    requires SkipFrom(s, depth, done).Skipped? && SkipFrom(s, depth, done).n - done <= |s|
    ensures |frames| == depth && ValidFrames(frames)
    ensures FramesBytes(frames) == s[..SkipFrom(s, depth, done).n - done]
    decreases |s|
  {
    hide SkipFrom, TokenAt, IsTag, ValidField, FieldBytes;
    SkipUnfolds(s, depth, done);
    var t := TokenAt(s, depth);
    var f := TokenSound(s, depth);
    var bs, rest := s[..t.width], s[t.width..];
    var n := SkipFrom(s, depth, done).n - done;
    assert bs + rest[..n - t.width] == s[..n];
    if t.depth == 0 {
      frames := [Frame(Nil, bs)];
    } else {
      var inner := FramesSound(rest, t.depth, done + t.width);
      frames := Grow(bs, f, inner, t.depth - depth);
    }
  }

  // The frames around one more token: a field, an opening tag (delta 1) or a closing one (delta -1).
  lemma Grow(bs: seq<byte>, f: Field, inner: seq<Frame>, delta: int) returns (frames: seq<Frame>)
    requires |inner| > 0 && ValidFrames(inner)
    requires || (delta == 0 && ValidField(f) && FieldBytes(f) == bs)
             || (delta == 1 && IsTag(bs, 3) && |inner| > 1)
             || (delta == -1 && IsTag(bs, 4))
    ensures |frames| == |inner| - delta && ValidFrames(frames) && FramesBytes(frames) == bs + FramesBytes(inner)
  {
    hide IsTag, FieldBytes;
    if delta == 0 {
      frames := Push(f, inner);
      PushBytes(f, inner);
    } else if delta == 1 {
      CloseBytes(bs, inner);
      frames := Push(Close(bs, inner), inner[1..]);
      PushBytes(Close(bs, inner), inner[1..]);
    } else {
      frames := [Frame(Nil, bs)] + inner;
      assert frames[1..] == inner;
    }
  }

  lemma FieldSound(s: seq<byte>) returns (f: Field)
    requires Skip(s).Skipped? && Skip(s).n <= |s|
    ensures ValidField(f) && FieldBytes(f) == s[..Skip(s).n]
  {
    hide SkipFrom, TokenAt, IsTag, ValidFrames, FieldBytes, ValidField, Close;
    SkipUnfolds(s, 0, 0);
    var t := TokenAt(s, 0);
    f := TokenSound(s, 0);
    if t.depth > 0 {
      var n := Skip(s).n;
      var frames := FramesSound(s[t.width..], 1, t.width);
      f := Close(s[..t.width], frames);
      CloseBytes(s[..t.width], frames);
      assert FramesBytes(frames[1..]) == [] && FieldBytes(f) + [] == FieldBytes(f);
      assert s[..t.width] + s[t.width..][..n - t.width] == s[..n];
    }
  }

  // ----- the main results

  ghost predicate StartsWithField(s: seq<byte>, n: nat) {
    n <= |s| && exists f :: ValidField(f) && FieldBytes(f) == s[..n]
  }

  // A depth counter recognises the nested grammar: skip answers n exactly when the first n bytes are one field.
  lemma SkipRecognisesFields(s: seq<byte>, n: nat)
    requires n <= |s| < TWO_63
    ensures Skip(s) == Skipped(n) <==> StartsWithField(s, n)
  {
    hide SkipFrom, FieldBytes, ValidField;
    if Skip(s) == Skipped(n) {
      var f := FieldSound(s);
    }
    if StartsWithField(s, n) {
      var f :| ValidField(f) && FieldBytes(f) == s[..n];
      SkipOverField(f, s[n..], 0, 0);
      assert s[..n] + s[n..] == s;
    }
  }

  // The length depends on the field's own bytes only.
  lemma SkipLocal(s: seq<byte>, t: seq<byte>)
    requires Skip(s).Skipped? && Skip(s).n <= |s|
    ensures Skip(s + t) == Skip(s)
  {
    hide SkipFrom, FieldBytes, ValidField;
    var n := Skip(s).n;
    var f := FieldSound(s);
    SkipOverField(f, s[n..] + t, 0, 0);
    assert s[..n] + (s[n..] + t) == s + t;
  }

  lemma OneByteTag(b: byte)
    requires b < 128
    ensures IsTag([b], b % 8) && Varint.Word([b]) == b
  {
    assert [b][1..] == [];
    assert Varint.Digits([b][1..]) == 0;
  }
}
