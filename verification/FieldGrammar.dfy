// The wire grammar of one field, with groups nested to any depth, and `skipMessage`, which walks it
// with a single depth counter.
module FieldGrammar {
  import opened Wrappers
  import opened MachineWord
  import opened WireErrors
  import Varint

  // A field as the specification's section 'Message Structure' writes it; tags, lengths and values are
  // varints of any admissible length. The closing tag of a group is any tag of wire type 4: the code
  // does not compare its number with the opening one.
  datatype Field =
    | VarintField(tag: seq<byte>, value: seq<byte>)
    | Fixed64Field(tag: seq<byte>, data: seq<byte>)
    | BytesField(tag: seq<byte>, len: seq<byte>, data: seq<byte>)
    | GroupField(tag: seq<byte>, body: Fields, end: seq<byte>)
    | Fixed32Field(tag: seq<byte>, data: seq<byte>)

  datatype Fields = Nil | Cons(head: Field, tail: Fields)

  predicate IsTag(bs: seq<byte>, wireType: nat) {
    Varint.IsVarint(bs) && Varint.Word(bs) % 8 == wireType
  }

  predicate ValidField(f: Field) {
    match f
    case VarintField(tag, value) => IsTag(tag, 0) && Varint.IsVarint(value)
    case Fixed64Field(tag, data) => IsTag(tag, 1) && |data| == 8
    case BytesField(tag, len, data) =>
      && IsTag(tag, 2) && Varint.IsVarint(len)
      && Varint.Word(len) == |data| < TWO_63
    case GroupField(tag, body, end) => IsTag(tag, 3) && ValidFields(body) && IsTag(end, 4)
    case Fixed32Field(tag, data) => IsTag(tag, 5) && |data| == 4
  }

  predicate ValidFields(fs: Fields) {
    fs.Cons? ==> ValidField(fs.head) && ValidFields(fs.tail)
  }

  function FieldBytes(f: Field): seq<byte> {
    match f
    case VarintField(tag, value) => tag + value
    case Fixed64Field(tag, data) => tag + data
    case BytesField(tag, len, data) => tag + len + data
    case GroupField(tag, body, end) => tag + FieldsBytes(body) + end
    case Fixed32Field(tag, data) => tag + data
  }

  function FieldsBytes(fs: Fields): seq<byte> {
    match fs
    case Nil => []
    case Cons(f, rest) => FieldBytes(f) + FieldsBytes(rest)
  }

  // One iteration of the skip loop: the bytes stepped over and the depth after it.
  datatype Token = Token(width: nat, depth: nat) | BadToken(err: Error)

  function TokenAt(s: seq<byte>, depth: nat): (r: Token)
    ensures r.Token? ==> r.width > 0
  {
    var tag := Varint.Read(s);
    if tag.err.Some? then BadToken(tag.err.value)
    else TokenBody(tag.value % 8, tag.n, s[tag.n..], depth)
  }

  // What a tag of that wire type, n bytes long, is followed by.
  function TokenBody(wireType: nat, n: nat, rest: seq<byte>, depth: nat): (r: Token)
    ensures r.Token? ==> r.width >= n
  {
    match wireType
    case 0 =>
      var v := Varint.Read(rest);
      if v.err.Some? then BadToken(v.err.value) else Token(n + v.n, depth)
    case 1 => Token(n + 8, depth)
    case 2 =>
      var len := Varint.Read(rest);
      if len.err.Some? then BadToken(len.err.value)
      else if len.value >= TWO_63 then BadToken(InvalidLength)
      else Token(n + len.n + len.value, depth)
    case 3 => Token(n, depth + 1)
    case 4 => if depth == 0 then BadToken(UnexpectedEndOfGroup) else Token(n, depth - 1)
    case 5 => Token(n + 4, depth)
    case wt => BadToken(IllegalWireType(wt))
  }

  datatype Skipped = Skipped(n: nat) | SkipError(err: Error)

  // The rest of the skip: `done` bytes are behind the cursor. A width may overshoot the input; that ends
  // the walk successfully at depth 0 (the caller compares with the length) and fails inside a group.
  function SkipFrom(s: seq<byte>, depth: nat, done: nat): (r: Skipped)
    ensures r.Skipped? ==> done < r.n < TWO_63
    decreases |s|
  {
    if s == [] then SkipError(UnexpectedEOF)
    else
      match TokenAt(s, depth)
      case BadToken(e) => SkipError(e)
      case Token(width, depth') =>
        if done + width >= TWO_63 then SkipError(InvalidLength)
        else if depth' == 0 then Skipped(done + width)
        else if width > |s| then SkipError(UnexpectedEOF)
        else SkipFrom(s[width..], depth', done + width)
  }

  function Skip(s: seq<byte>): (r: Skipped)
    ensures r.Skipped? ==> 0 < r.n < TWO_63
  {
    SkipFrom(s, 0, 0)
  }

  // The skip of dAtA with the cursor at i, which may already be past the end.
  function SkipAt(dAtA: seq<byte>, i: nat, depth: nat): Skipped {
    if i <= |dAtA| then SkipFrom(dAtA[i..], depth, i) else SkipError(UnexpectedEOF)
  }

  // The outcome of one iteration: the cursor and depth after it, or the error.
  predicate IsStep(s: seq<byte>, from: nat, level: nat, iNdEx: int, depth: nat, err: Option<Error>) {
    match TokenAt(s, level)
    case BadToken(e) => err == Some(e)
    case Token(width, depth') =>
      if from + width >= TWO_63 then err == Some(InvalidLength)
      else err == None && iNdEx == from + width && depth == depth'
  }

  lemma StepAdvances(dAtA: seq<byte>, from: nat, level: nat, iNdEx: int, depth: nat, err: Option<Error>)
    requires from < |dAtA| && IsStep(dAtA[from..], from, level, iNdEx, depth, err)
    ensures err.Some? ==> SkipAt(dAtA, from, level) == SkipError(err.value)
    ensures err.None? ==> iNdEx > from
    ensures err.None? && depth == 0 ==> SkipAt(dAtA, from, level) == Skipped(iNdEx)
    ensures err.None? && depth > 0 ==> SkipAt(dAtA, from, level) == SkipAt(dAtA, iNdEx, depth)
  {
    if err.None? && iNdEx <= |dAtA| {
      assert dAtA[from..][iNdEx - from..] == dAtA[iNdEx..];
    }
  }

  // The switch of `skipMessage`: one tag and what its wire type says follows, in wrapping arithmetic.
  method StepToken(dAtA: seq<byte>, from: int64, level: nat) returns (iNdEx: int64, depth: nat, err: Option<Error>)
    requires 0 <= from < |dAtA| < TWO_63
    ensures IsStep(dAtA[from..], from, level, iNdEx, depth, err)
  {
    hide Varint.Read;
    iNdEx, depth := from, level;
    var wire, i;
    wire, i, err := Varint.ReadVarint(dAtA, from);
    if err.Some? {
      return;
    }
    iNdEx := i;
    assert dAtA[from..][i - from..] == dAtA[i..];
    var wireType := wire % 8;
    if wireType == 0 {
      iNdEx, err := Varint.SkipVarint(dAtA, i);
    } else if wireType == 1 {
      LengthSum(i, 8);
      iNdEx := ToInt64(iNdEx + 8);
    } else if wireType == 2 {
      iNdEx, err := StepBytes(dAtA, i);
    } else if wireType == 3 {
      depth := depth + 1;
    } else if wireType == 4 {
      if depth == 0 {
        err := Some(UnexpectedEndOfGroup);
        return;
      }
      depth := depth - 1;
    } else if wireType == 5 {
      LengthSum(i, 4);
      iNdEx := ToInt64(iNdEx + 4);
    } else {
      err := Some(IllegalWireType(wireType));
    }
    if err.None? && iNdEx < 0 {
      err := Some(InvalidLength);
    }
  }

  // Wire type 2: a length, then that many bytes, possibly past the end of the input.
  method StepBytes(dAtA: seq<byte>, from: nat) returns (iNdEx: int64, err: Option<Error>)
    requires from <= |dAtA| < TWO_63
    ensures var len := Varint.Read(dAtA[from..]);
            if len.err.Some? then err == len.err
            else if len.value >= TWO_63 then err == Some(InvalidLength)
            else
              err == None
              && (if from + len.n + len.value < TWO_63 then iNdEx == from + len.n + len.value else iNdEx < 0)
  {
    iNdEx := from;
    var word, i;
    word, i, err := Varint.ReadVarint(dAtA, from);
    if err.Some? {
      return;
    }
    var length := ToInt64(word);
    if length < 0 {
      err := Some(InvalidLength);
      return;
    }
    LengthSum(i, length);
    iNdEx := ToInt64(i + length);
  }

  // `skipMessage`.
  method SkipField(dAtA: seq<byte>) returns (r: Skipped)
    requires |dAtA| < TWO_63
    ensures r == Skip(dAtA)
  {
    var l := |dAtA|;
    var iNdEx: int64, depth: nat := 0, 0;
    while iNdEx < l
      invariant 0 <= iNdEx
      invariant Skip(dAtA) == SkipAt(dAtA, iNdEx, depth)
      decreases l - iNdEx
    {
      var i, d, err := StepToken(dAtA, iNdEx, depth);
      StepAdvances(dAtA, iNdEx, depth, i, d, err);
      if err.Some? {
        return SkipError(err.value);
      }
      iNdEx, depth := i, d;
      if depth == 0 {
        return Skipped(iNdEx);
      }
    }
    return SkipError(UnexpectedEOF);
  }
}
