// The nested grammar can be read in one way only, so it is decided which accepted fields the Protocol Buffers
// specification accepts too: those in which every group ends under its own number (section 'Groups').
module GroupNumbers {
  import opened MachineWord
  import opened FieldGrammar
  import opened SkipProofs
  import opened MessageGrammar
  import Varint

  // Every group, at every depth, is closed by an end tag with the number of its start tag.
  predicate Closed(f: Field) {
    f.GroupField? ==> Varint.Word(f.tag) / 8 == Varint.Word(f.end) / 8 && AllClosed(f.body)
  }

  predicate AllClosed(fs: Fields) {
    fs.Cons? ==> Closed(fs.head) && AllClosed(fs.tail)
  }

  // ----- one reading

  // Equal texts that start with the tags of two fields start with the same tag.
  lemma SameTag(f: Field, t: seq<byte>, g: Field, u: seq<byte>)
    requires ValidField(f) && ValidField(g) && FieldBytes(f) + t == FieldBytes(g) + u
    ensures f.tag == g.tag && WireType(f) == WireType(g)
    ensures AfterTag(f) + t == AfterTag(g) + u
  {
    hide FieldBytes, ValidField, AfterTag, WireType, Varint.IsVarint;
    TagOf(f);
    TagOf(g);
    Assoc3(f.tag, AfterTag(f), t);
    Assoc3(g.tag, AfterTag(g), u);
    SameVarint(f.tag, AfterTag(f) + t, g.tag, AfterTag(g) + u);
    SameRest(f.tag, AfterTag(f) + t, AfterTag(g) + u);
  }

  lemma SameRest(a: seq<byte>, s: seq<byte>, t: seq<byte>)
    requires a + s == a + t
    ensures s == t
  {
    assert s == (a + s)[|a|..];
    assert t == (a + t)[|a|..];
  }

  lemma SameHead(a: seq<byte>, s: seq<byte>, b: seq<byte>, t: seq<byte>)
    requires |a| == |b| && a + s == b + t
    ensures a == b && s == t
  {
    assert a == (a + s)[..|a|];
    assert b == (b + t)[..|b|];
    SameRest(a, s, t);
  }

  lemma SameVarintAndRest(a: seq<byte>, s: seq<byte>, b: seq<byte>, t: seq<byte>)
    requires Varint.IsVarint(a) && Varint.IsVarint(b) && a + s == b + t
    ensures a == b && s == t
  {
    SameVarint(a, s, b, t);
    SameRest(a, s, t);
  }

  // The grammar is unambiguous: a text starts with one field at most, of one shape.
  lemma {:induction false} FieldUnique(f: Field, t: seq<byte>, g: Field, u: seq<byte>)
    requires ValidField(f) && ValidField(g) && FieldBytes(f) + t == FieldBytes(g) + u
    ensures f == g && t == u
    decreases f
  {
    hide FieldBytes, IsTag, Varint.IsVarint, Varint.Word;
    SameTag(f, t, g, u);
    match f
    case VarintField(_, value) => SameVarintAndRest(value, t, g.value, u);
    case Fixed64Field(_, data) => SameHead(data, t, g.data, u);
    case BytesField(_, len, data) =>
      Assoc3(len, data, t);
      Assoc3(g.len, g.data, u);
      SameVarintAndRest(len, data + t, g.len, g.data + u);
      SameHead(data, t, g.data, u);
    case GroupField(_, body, end) =>
      Assoc3(FieldsBytes(body), end, t);
      Assoc3(FieldsBytes(g.body), g.end, u);
      FieldsUnique(body, end, t, g.body, g.end, u);
    case Fixed32Field(_, data) => SameHead(data, t, g.data, u);
  }

  // The body of a group stops at the first end tag of its own depth.
  lemma {:induction false} FieldsUnique(
      fs: Fields, end: seq<byte>, t: seq<byte>, gs: Fields, end': seq<byte>, u: seq<byte>)
    requires ValidFields(fs) && ValidFields(gs) && IsTag(end, 4) && IsTag(end', 4)
    requires FieldsBytes(fs) + (end + t) == FieldsBytes(gs) + (end' + u)
    ensures fs == gs && end == end' && t == u
    decreases fs
  {
    hide FieldBytes, ValidField, Varint.IsVarint, Varint.Word;
    if fs.Nil? && gs.Nil? {
      assert FieldsBytes(fs) + (end + t) == end + t && FieldsBytes(gs) + (end' + u) == end' + u;
      SameVarintAndRest(end, t, end', u);
    } else if fs.Nil? {
      assert FieldsBytes(fs) + (end + t) == end + t;
      Assoc3(FieldBytes(gs.head), FieldsBytes(gs.tail), end' + u);
      NotAnEndTag(gs.head, FieldsBytes(gs.tail) + (end' + u), end, t);
    } else if gs.Nil? {
      assert FieldsBytes(gs) + (end' + u) == end' + u;
      Assoc3(FieldBytes(fs.head), FieldsBytes(fs.tail), end + t);
      NotAnEndTag(fs.head, FieldsBytes(fs.tail) + (end + t), end', u);
    } else {
      var rest, rest' := FieldsBytes(fs.tail) + (end + t), FieldsBytes(gs.tail) + (end' + u);
      Assoc3(FieldBytes(fs.head), FieldsBytes(fs.tail), end + t);
      Assoc3(FieldBytes(gs.head), FieldsBytes(gs.tail), end' + u);
      FieldUnique(fs.head, rest, gs.head, rest');
      FieldsUnique(fs.tail, end, t, gs.tail, end', u);
    }
  }

  // No field starts with an end tag.
  lemma NotAnEndTag(f: Field, t: seq<byte>, end: seq<byte>, u: seq<byte>)
    requires ValidField(f) && IsTag(end, 4)
    ensures FieldBytes(f) + t != end + u
  {
    hide FieldBytes, ValidField, AfterTag, Varint.IsVarint, Varint.Word;
    if FieldBytes(f) + t == end + u {
      TagOf(f);
      Assoc3(f.tag, AfterTag(f), t);
      SameVarint(f.tag, AfterTag(f) + t, end, u);
    }
  }

  // So an accepted message is a concatenation of fields in one way only.
  lemma {:induction false} MessageUnique(fs: seq<Field>, gs: seq<Field>)
    requires forall i :: 0 <= i < |fs| ==> ValidField(fs[i])
    requires forall i :: 0 <= i < |gs| ==> ValidField(gs[i])
    requires BytesOf(fs) == BytesOf(gs)
    ensures fs == gs
    decreases |fs|
  {
    hide FieldBytes, ValidField;
    if fs == [] {
      if gs != [] { NotEmpty(gs[0]); }
    } else {
      NotEmpty(fs[0]);
      FieldUnique(fs[0], BytesOf(fs[1..]), gs[0], BytesOf(gs[1..]));
      MessageUnique(fs[1..], gs[1..]);
      assert fs == [fs[0]] + fs[1..] && gs == [gs[0]] + gs[1..];
    }
  }

  lemma NotEmpty(f: Field)
    requires ValidField(f)
    ensures FieldBytes(f) != []
  {
    hide ValidField;
    TagOf(f);
  }

  // ----- the condition

  // What the specification accepts as one field.
  ghost predicate StartsWithClosedField(s: seq<byte>, n: nat) {
    n <= |s| && exists g :: ValidField(g) && Closed(g) && FieldBytes(g) == s[..n]
  }

  // What is skipped as one field is one field of the specification exactly when every group in it is closed
  // under its own number.
  lemma ClosedIff(s: seq<byte>, f: Field)
    requires |s| < TWO_63 && ValidField(f) && |FieldBytes(f)| <= |s| && FieldBytes(f) == s[..|FieldBytes(f)|]
    ensures Skip(s) == Skipped(|FieldBytes(f)|)
    ensures StartsWithClosedField(s, |FieldBytes(f)|) <==> Closed(f)
  {
    hide FieldBytes, ValidField, Closed, SkipFrom;
    var n := |FieldBytes(f)|;
    SkipOverField(f, s[n..], 0, 0);
    assert s[..n] + s[n..] == s;
    if StartsWithClosedField(s, n) {
      var g :| ValidField(g) && Closed(g) && FieldBytes(g) == s[..n];
      FieldUnique(f, [], g, []);
    }
  }

  // Only depths are compared: group 7 is closed by the end tag of group 8, which the specification does not allow.
  lemma GroupsEndUnderAnyNumber()
    ensures Varint.Word([0x3b]) / 8 == 7 && Varint.Word([0x44]) / 8 == 8
    ensures Skip([0x3b, 0x44]) == Skipped(2) && !StartsWithClosedField([0x3b, 0x44], 2)
  {
    hide SkipFrom, IsTag, Varint.Word, StartsWithClosedField;
    OneByteTag(0x3b);
    OneByteTag(0x44);
    var f := GroupField([0x3b], Nil, [0x44]);
    assert FieldBytes(f) == [0x3b, 0x44];
    ClosedIff([0x3b, 0x44], f);
  }
}
