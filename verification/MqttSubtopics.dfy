// Escapes, segments and topics, stated on their characters.
module MqttSubtopics {
  import opened Wrappers
  import opened MqttTopics
  import opened MqttProofs

  // ----- escapes

  const HEX := "0123456789abcdef"
  const HEX_UPPER := "0123456789ABCDEF"

  predicate IsHex(c: char, v: nat) {
    v < 16 && (HEX[v] == c || HEX_UPPER[v] == c)
  }

  lemma HexIff(c: char, v: nat)
    ensures HexValue(c) == Some(v) <==> IsHex(c, v)
  {
    if HexValue(c) == Some(v) {
      var base := if c <= 'F' then 'A' else 'a';
      assert c as nat == if v < 10 then '0' as nat + v else base as nat + v - 10;
      HexDigits(v);
    }
    if IsHex(c, v) {
      HexDigits(v);
    }
  }

  lemma HexDigits(v: nat)
    requires v < 16
    ensures HEX[v] as nat == (if v < 10 then '0' as nat + v else 'a' as nat + v - 10)
    ensures HEX_UPPER[v] as nat == (if v < 10 then '0' as nat + v else 'A' as nat + v - 10)
  {
  }

  // A character of its own, or a percent sign and two hexadecimal digits with their values.
  datatype Piece = Plain(c: char) | Escaped(hi: char, a: nat, lo: char, b: nat)

  predicate ValidPiece(u: Piece) {
    match u
    case Plain(c) => c != '%'
    case Escaped(hi, a, lo, b) => IsHex(hi, a) && IsHex(lo, b)
  }

  function PieceText(u: Piece): string {
    match u
    case Plain(c) => [c]
    case Escaped(hi, _, lo, _) => ['%', hi, lo]
  }

  // A plus sign stands for a space.
  function PieceByte(u: Piece): char
    requires ValidPiece(u)
  {
    match u
    case Plain(c) => if c == '+' then ' ' else c
    case Escaped(_, a, _, b) => (16 * a + b) as char
  }

  predicate AllValid(us: seq<Piece>) {
    forall i :: 0 <= i < |us| ==> ValidPiece(us[i])
  }

  function Text(us: seq<Piece>): string {
    if us == [] then "" else PieceText(us[0]) + Text(us[1..])
  }

  function Bytes(us: seq<Piece>): string
    requires AllValid(us)
  {
    if us == [] then "" else [PieceByte(us[0])] + Bytes(us[1..])
  }

  lemma {:induction false} UnescapeComplete(us: seq<Piece>)
    requires AllValid(us)
    ensures Unescape(Text(us)) == Some(Bytes(us))
    decreases |us|
  {
    if us != [] {
      var rest := Text(us[1..]);
      UnescapeComplete(us[1..]);
      match us[0]
      case Plain(c) =>
        assert ([c] + rest)[1..] == rest;
      case Escaped(hi, a, lo, b) =>
        HexIff(hi, a);
        HexIff(lo, b);
        UnescapeOne(hi, lo, rest);
    }
  }

  lemma {:induction false} UnescapeSound(s: string) returns (us: seq<Piece>)
    requires Unescape(s).Some?
    ensures AllValid(us) && Text(us) == s && Bytes(us) == Unescape(s).value
    decreases |s|
  {
    if s == "" {
      us := [];
    } else if s[0] == '%' {
      var a, b := HexValue(s[1]).value, HexValue(s[2]).value;
      HexIff(s[1], a);
      HexIff(s[2], b);
      var rest := UnescapeSound(s[3..]);
      us := [Escaped(s[1], a, s[2], b)] + rest;
      assert us[1..] == rest && s == ['%', s[1], s[2]] + s[3..];
    } else {
      var rest := UnescapeSound(s[1..]);
      us := [Plain(s[0])] + rest;
      assert us[1..] == rest && s == [s[0]] + s[1..];
    }
  }

  ghost predicate Decodes(s: string, t: string) {
    exists us :: AllValid(us) && Text(us) == s && Bytes(us) == t
  }

  // Unescaping gives t exactly when s is written in such pieces that stand for t; otherwise an escape is broken.
  lemma UnescapeIff(s: string, t: string)
    ensures Unescape(s) == Some(t) <==> Decodes(s, t)
  {
    hide Unescape, AllValid;
    if Unescape(s) == Some(t) {
      var us := UnescapeSound(s);
    }
    if Decodes(s, t) {
      var us :| AllValid(us) && Text(us) == s && Bytes(us) == t;
      UnescapeComplete(us);
    }
  }

  // ----- segments

  // The segments of t between its slashes and dots.
  predicate AreSegments(segs: seq<string>, t: string) {
    && segs != [] && |Join(segs)| == |t|
    && (forall i :: 0 <= i < |segs| ==> '.' !in segs[i] && '/' !in segs[i])
    && forall i :: 0 <= i < |t| ==> Join(segs)[i] == if t[i] == '/' then '.' else t[i]
  }

  lemma SegmentsIff(segs: seq<string>, t: string)
    ensures AreSegments(segs, t) <==> segs == Split(Replace(t, '/', '.'))
  {
    var d := Replace(t, '/', '.');
    ReplaceAt(t, '/', '.');
    if AreSegments(segs, t) {
      assert Join(segs) == d;
      SplitJoin(segs);
    }
    if segs == Split(d) {
      SplitIsDotFree(d);
      JoinSplit(d);
      forall i | 0 <= i < |segs| ensures '/' !in segs[i] {
        if '/' in segs[i] { SplitCharacters(d, i, '/'); }
      }
    }
  }

  // Dropping the empty segments keeps the others, in order.
  lemma {:induction false} NonEmptyConcat(a: seq<string>, b: seq<string>)
    ensures NonEmpty(a + b) == NonEmpty(a) + NonEmpty(b)
    decreases |a|
  {
    if a == [] {
      assert a + b == b;
    } else {
      assert (a + b)[1..] == a[1..] + b;
      NonEmptyConcat(a[1..], b);
    }
  }

  lemma NonEmptyOne(e: string)
    ensures NonEmpty([e]) == if e == "" then [] else [e]
  {
    assert NonEmpty([e][1..]) == [];
  }

  predicate HasWildcard(e: string) {
    exists i :: 0 <= i < |e| && e[i] in ['*', '>']
  }

  // A segment that contains a wildcard and something else.
  predicate IsMalformed(e: string) {
    |e| > 1 && HasWildcard(e)
  }

  lemma MalformedIff(e: string)
    ensures IsMalformed(e) <==> !GoodElement(e)
  {
  }

  ghost predicate Refused(s: string) {
    (forall t :: !Decodes(s, t))
    || exists t, segs, i :: Decodes(s, t) && AreSegments(segs, t) && 0 <= i < |segs| && IsMalformed(segs[i])
  }

  // A subtopic is refused exactly when an escape in it is broken or, once unescaped, some segment between slashes
  // and dots is longer than one character and contains a wildcard.
  lemma ParseRefusedIff(s: string)
    requires s != ""
    ensures Parse(s) == None <==> Refused(s)
  {
    if Unescape(s).None? {
      forall t ensures !Decodes(s, t) { UnescapeIff(s, t); }
    } else {
      var t := Unescape(s).value;
      var segs := Split(Replace(t, '/', '.'));
      UnescapeIff(s, t);
      SegmentsIff(segs, t);
      hide Unescape, Replace, Split, AreSegments;
      if Parse(s) == None {
        var i :| 0 <= i < |segs| && !GoodElement(segs[i]);
        MalformedIff(segs[i]);
      }
      if Refused(s) {
        var t', segs', i :| Decodes(s, t') && AreSegments(segs', t') && 0 <= i < |segs'| && IsMalformed(segs'[i]);
        UnescapeIff(s, t');
        SegmentsIff(segs', t);
        MalformedIff(segs'[i]);
      }
    }
  }

  // What is accepted are its segments without the empty ones, joined by dots.
  lemma ParseIff(s: string, t: string, segs: seq<string>)
    requires s != "" && Decodes(s, t) && AreSegments(segs, t)
    ensures Parse(s).Some? ==> Parse(s).value == Join(NonEmpty(segs))
    ensures Parse(s).Some? <==> forall i :: 0 <= i < |segs| ==> !IsMalformed(segs[i])
  {
    hide Unescape, Replace, Split, AreSegments;
    UnescapeIff(s, t);
    SegmentsIff(segs, t);
    forall i | 0 <= i < |segs| ensures IsMalformed(segs[i]) <==> !GoodElement(segs[i]) {
      MalformedIff(segs[i]);
    }
  }

  // For instance.
  lemma TrailingWildcardIsRefused()
    ensures Parse("a>") == None && Parse(">") == Some(">") && Parse("a*b") == None
  {
    hide Parse;
    OneSegment("a>");
    OneSegment(">");
    OneSegment("a*b");
    assert "a>"[1] == '>' && "a*b"[1] == '*';
    assert IsMalformed("a>") && IsMalformed("a*b");
  }

  lemma OneSegment(e: string)
    requires e != "" && forall i :: 0 <= i < |e| ==> e[i] !in ['.', '/', '%', '+']
    ensures Parse(e) == if IsMalformed(e) then None else Some(e)
  {
    UnescapePlain(e);
    assert Unescape(e).value == e;
    ReplaceAt(e, '/', '.');
    assert Replace(e, '/', '.') == e;
    SplitElement(e);
    NonEmptyOne(e);
    MalformedIff(e);
  }

  // ----- the pattern

  const LOWER := "abcdefghijklmnopqrstuvwxyz"
  const UPPER := "ABCDEFGHIJKLMNOPQRSTUVWXYZ"
  const REST := "0123456789_-"

  lemma LowerIff(c: char)
    ensures c in LOWER <==> 'a' <= c <= 'z'
  {
    if 'a' <= c <= 'z' { LowerAt(c as int - 'a' as int); }
    forall i | 0 <= i < |LOWER| ensures 'a' <= LOWER[i] <= 'z' { LowerAt(i); }
  }

  lemma LowerAt(i: nat)
    requires i < 26
    ensures LOWER[i] as int == 'a' as int + i
  {
  }

  lemma UpperIff(c: char)
    ensures c in UPPER <==> 'A' <= c <= 'Z'
  {
    if 'A' <= c <= 'Z' { UpperAt(c as int - 'A' as int); }
    forall i | 0 <= i < |UPPER| ensures 'A' <= UPPER[i] <= 'Z' { UpperAt(i); }
  }

  lemma UpperAt(i: nat)
    requires i < 26
    ensures UPPER[i] as int == 'A' as int + i
  {
  }

  lemma RestIff(c: char)
    ensures c in REST <==> '0' <= c <= '9' || c == '_' || c == '-'
  {
  }

  lemma WordIff(c: char)
    ensures IsWord(c) <==> c in LOWER || c in UPPER || c in REST
  {
    LowerIff(c);
    UpperIff(c);
    RestIff(c);
  }

  // A topic that matches, with the pattern's two groups: perhaps a slash, then the words, the channel and the path,
  // then perhaps a question mark and characters other than a newline.
  ghost predicate InPattern(topic: string, channel: string, path: string) {
    && channel != "" && (forall c :: c in channel ==> c in LOWER || c in UPPER || c in REST)
    && (path != "" ==> path[0] == '/' && '?' !in path)
    && exists slash, query ::
         && slash in ["", "/"]
         && topic == slash + ("channels/" + (channel + ("/messages" + (path + query))))
         && (query != "" ==> query[0] == '?' && forall i :: 0 <= i < |query| ==> query[i] != '\n')
  }

  lemma MatchesIff(topic: string, channel: string, path: string)
    ensures Matches(topic, channel, path) <==> InPattern(topic, channel, path)
  {
    hide IsWord;
    forall c: char ensures IsWord(c) <==> c in LOWER || c in UPPER || c in REST { WordIff(c); }
    if Matches(topic, channel, path) {
      var slash, query :| slash in ["", "/"] && IsQuery(query)
        && topic == slash + (CHANNELS + (channel + (MESSAGES + (path + query))));
      assert topic == slash + ("channels/" + (channel + ("/messages" + (path + query))));
    }
    if InPattern(topic, channel, path) {
      var slash, query :| slash in ["", "/"]
        && topic == slash + ("channels/" + (channel + ("/messages" + (path + query))))
        && (query != "" ==> query[0] == '?' && forall i :: 0 <= i < |query| ==> query[i] != '\n');
      assert topic == slash + (CHANNELS + (channel + (MESSAGES + (path + query))));
    }
  }

  // ----- topics

  // A message of any other protocol goes to its channel's topic, with the dots of its subtopic as slashes; one
  // that came in over MQTT goes nowhere.
  lemma ForwardIff(msg: Message)
    ensures Forward(msg) == None <==> msg.protocol == "mqtt"
    ensures Forward(msg).Some? ==>
              exists path ::
                Forward(msg).value == "channels/" + msg.channel + "/messages" + path && IsPathOf(path, msg.subtopic)
  {
    if Forward(msg).Some? {
      var path := PathOf(msg.subtopic);
      ReplaceAt(msg.subtopic, '.', '/');
      assert IsPathOf(path, msg.subtopic);
      assert Forward(msg).value == "channels/" + msg.channel + "/messages" + path;
    }
  }

  predicate IsPathOf(path: string, subtopic: string) {
    if subtopic == "" then path == ""
    else
      && |path| == |subtopic| + 1 && path[0] == '/'
      && forall i :: 0 <= i < |subtopic| ==> path[i + 1] == if subtopic[i] == '.' then '/' else subtopic[i]
  }
}
