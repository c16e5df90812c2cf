// Printing and parsing topics are inverse exactly on canonical names.
module MqttProofs {
  import opened Wrappers
  import opened MqttTopics

  // ----- the pattern

  lemma {:induction false} WordPrefixOf(channel: string, rest: string)
    requires AllWord(channel) && (rest == "" || !IsWord(rest[0]))
    ensures WordPrefix(channel + rest) == |channel|
    decreases |channel|
  {
    if channel == "" {
      assert channel + rest == rest;
    } else {
      assert (channel + rest)[1..] == channel[1..] + rest;
      WordPrefixOf(channel[1..], rest);
    }
  }

  lemma {:induction false} BeforeQueryOf(path: string, query: string)
    requires '?' !in path && IsQuery(query)
    ensures BeforeQuery(path + query) == |path|
    decreases |path|
  {
    if path == "" {
      assert path + query == query;
    } else {
      assert (path + query)[1..] == path[1..] + query;
      BeforeQueryOf(path[1..], query);
    }
  }

  // Dropping a prefix that is there.
  lemma Drop(a: string, b: string)
    ensures a <= a + b && (a + b)[|a|..] == b && (a + b)[..|a|] == a
  {
  }

  lemma FindAfterSlash(slash: string, rest: string)
    requires slash in ["", "/"]
    ensures FindSubmatch(slash + (CHANNELS + rest)) == FindChannel(rest)
  {
    hide FindChannel;
    var t := CHANNELS + rest;
    Drop(slash, t);
    Drop(CHANNELS, rest);
    assert t[0] == 'c';
  }

  lemma FindAfterChannel(channel: string, s: string)
    requires IsChannel(channel)
    ensures FindChannel(channel + (MESSAGES + s)) == FindPath(channel, s)
  {
    hide FindPath, WordPrefix;
    WordPrefixOf(channel, MESSAGES + s);
    Drop(channel, MESSAGES + s);
    Drop(MESSAGES, s);
  }

  lemma FindPathComplete(channel: string, path: string, query: string)
    requires IsPath(path) && IsQuery(query)
    ensures FindPath(channel, path + query) == Some(Parts(channel, path))
  {
    hide BeforeQuery;
    Drop(path, query);
    if path == "" {
      assert path + query == query;
    } else {
      BeforeQueryOf(path, query);
    }
  }

  lemma FindPathSound(channel: string, s: string) returns (query: string)
    requires FindPath(channel, s).Some?
    ensures var p := FindPath(channel, s).value;
            p.channel == channel && IsPath(p.path) && IsQuery(query) && s == p.path + query
  {
    hide BeforeQuery;
    var path := FindPath(channel, s).value.path;
    query := s[|path|..];
    if path != "" { assert path[0] == s[0] == '/'; }
  }

  lemma FindComplete(topic: string, channel: string, path: string)
    requires Matches(topic, channel, path)
    ensures FindSubmatch(topic) == Some(Parts(channel, path))
  {
    hide FindSubmatch, FindChannel, FindPath;
    var slash, query :| slash in ["", "/"] && IsQuery(query)
      && topic == slash + (CHANNELS + (channel + (MESSAGES + (path + query))));
    FindAfterSlash(slash, channel + (MESSAGES + (path + query)));
    FindAfterChannel(channel, path + query);
    FindPathComplete(channel, path, query);
  }

  lemma FindChannelSound(s: string) returns (query: string)
    requires FindChannel(s).Some?
    ensures var p := FindChannel(s).value;
            IsChannel(p.channel) && IsPath(p.path) && IsQuery(query)
            && s == p.channel + (MESSAGES + (p.path + query))
  {
    hide FindPath, WordPrefix;
    var n := WordPrefix(s);
    var tail := s[n..][|MESSAGES|..];
    query := FindPathSound(s[..n], tail);
    assert s[n..] == MESSAGES + tail;
    assert s == s[..n] + s[n..];
  }

  lemma FindSound(topic: string)
    requires FindSubmatch(topic).Some?
    ensures Matches(topic, FindSubmatch(topic).value.channel, FindSubmatch(topic).value.path)
  {
    hide FindChannel;
    var slash := if topic != "" && topic[0] == '/' then "/" else "";
    var t := if topic != "" && topic[0] == '/' then topic[1..] else topic;
    assert topic == slash + t;
    var rest := t[|CHANNELS|..];
    var query := FindChannelSound(rest);
    assert t == CHANNELS + rest;
    assert slash in ["", "/"] && IsQuery(query);
  }

  // The scanner finds precisely what the pattern describes; in particular a topic matches in one way at most.
  lemma FindIffMatches(topic: string, channel: string, path: string)
    ensures FindSubmatch(topic) == Some(Parts(channel, path)) <==> Matches(topic, channel, path)
  {
    hide FindSubmatch, Matches;
    if FindSubmatch(topic) == Some(Parts(channel, path)) { FindSound(topic); }
    if Matches(topic, channel, path) { FindComplete(topic, channel, path); }
  }

  // ----- split, filter, join

  predicate DotFree(elems: seq<string>) {
    forall i :: 0 <= i < |elems| ==> '.' !in elems[i]
  }

  lemma {:induction false} SplitIsDotFree(s: string)
    ensures DotFree(Split(s))
  {
    if s != "" { SplitIsDotFree(s[1..]); }
  }

  lemma {:induction false} JoinSplit(s: string)
    ensures Join(Split(s)) == s
  {
    if s != "" {
      JoinSplit(s[1..]);
      var rest := Split(s[1..]);
      if s[0] == '.' {
        assert ([""] + rest)[1..] == rest;
        assert "" + "." + Join(rest) == s;
      } else {
        assert ([[s[0]] + rest[0]] + rest[1..])[1..] == rest[1..];
        JoinExtends(s[0], rest);
      }
    }
  }

  lemma JoinExtends(c: char, elems: seq<string>)
    requires elems != []
    ensures Join([[c] + elems[0]] + elems[1..]) == [c] + Join(elems)
  {
    var longer := [[c] + elems[0]] + elems[1..];
    assert longer[1..] == elems[1..];
    if |elems| > 1 {
      assert [c] + elems[0] + "." + Join(elems[1..]) == [c] + (elems[0] + "." + Join(elems[1..]));
    }
  }

  lemma {:induction false} SplitElement(elem: string)
    requires '.' !in elem
    ensures Split(elem) == [elem]
  {
    if elem != "" {
      assert '.' !in elem[1..];
      SplitElement(elem[1..]);
      assert [elem[0]] + elem[1..] == elem;
    }
  }

  lemma {:induction false} SplitAtDot(elem: string, rest: string)
    requires '.' !in elem
    ensures Split(elem + "." + rest) == [elem] + Split(rest)
    decreases |elem|
  {
    var s := elem + "." + rest;
    if elem == "" {
      assert s[1..] == rest;
    } else {
      assert '.' !in elem[1..];
      assert s[1..] == elem[1..] + "." + rest;
      SplitAtDot(elem[1..], rest);
      assert [elem[0]] + elem[1..] == elem;
    }
  }

  lemma {:induction false} SplitJoin(elems: seq<string>)
    requires elems != [] && DotFree(elems)
    ensures Split(Join(elems)) == elems
    decreases |elems|
  {
    if |elems| == 1 {
      SplitElement(elems[0]);
    } else {
      SplitJoin(elems[1..]);
      SplitAtDot(elems[0], Join(elems[1..]));
    }
  }

  lemma {:induction false} NonEmptyMembers(elems: seq<string>)
    ensures forall e :: e in NonEmpty(elems) <==> e in elems && e != ""
    decreases |elems|
  {
    if elems != [] { NonEmptyMembers(elems[1..]); }
  }

  lemma {:induction false} NonEmptyIdentity(elems: seq<string>)
    requires "" !in elems
    ensures NonEmpty(elems) == elems
    decreases |elems|
  {
    if elems != [] { NonEmptyIdentity(elems[1..]); }
  }

  // Dropping empty elements never lengthens the joined string, and shortens it when the first is empty.
  lemma {:induction false} NonEmptyShortens(elems: seq<string>)
    requires elems != []
    ensures |Join(NonEmpty(elems))| <= |Join(elems)|
    ensures elems[0] == "" && |elems| > 1 ==> |Join(NonEmpty(elems))| < |Join(elems)|
    decreases |elems|
  {
    if |elems| > 1 {
      NonEmptyShortens(elems[1..]);
      var rest := NonEmpty(elems[1..]);
      if elems[0] != "" {
        assert ([elems[0]] + rest)[1..] == rest;
      } else {
        assert [] + rest == rest;
      }
    } else {
      assert NonEmpty(elems[1..]) == [];
    }
  }

  // Joining adds no character but dots.
  lemma {:induction false} JoinAddsOnlyDots(elems: seq<string>, c: char)
    requires c != '.' && c in Join(elems)
    ensures exists i :: 0 <= i < |elems| && c in elems[i]
    decreases |elems|
  {
    if |elems| > 1 && c !in elems[0] {
      assert c in Join(elems[1..]);
      JoinAddsOnlyDots(elems[1..], c);
      var i :| 0 <= i < |elems[1..]| && c in elems[1..][i];
      assert c in elems[i + 1];
    }
  }

  lemma {:induction false} SplitCharacters(s: string, i: nat, c: char)
    requires i < |Split(s)| && c in Split(s)[i]
    ensures c in s
  {
    if s != "" {
      var rest := Split(s[1..]);
      if s[0] == '.' {
        SplitCharacters(s[1..], i - 1, c);
      } else if i > 0 {
        SplitCharacters(s[1..], i, c);
      } else if c != s[0] {
        assert c in rest[0];
        SplitCharacters(s[1..], 0, c);
      }
    }
  }

  // ----- replacing and unescaping

  lemma {:induction false} ReplaceAt(s: string, from: char, to: char)
    ensures forall i :: 0 <= i < |s| ==> Replace(s, from, to)[i] == if s[i] == from then to else s[i]
  {
    if s != "" { ReplaceAt(s[1..], from, to); }
  }

  // Dots to slashes and back, when there were no slashes.
  lemma ReplaceBack(s: string)
    requires '/' !in s
    ensures Replace(Replace(s, '.', '/'), '/', '.') == s
  {
    var t := Replace(s, '.', '/');
    ReplaceAt(s, '.', '/');
    ReplaceAt(t, '/', '.');
    forall i | 0 <= i < |s| ensures Replace(t, '/', '.')[i] == s[i] {
      assert s[i] != '/';
    }
  }

  lemma {:induction false} UnescapePlain(s: string)
    requires '%' !in s
    ensures Unescape(s).Some? && |Unescape(s).value| == |s|
    ensures forall i :: 0 <= i < |s| ==> Unescape(s).value[i] == if s[i] == '+' then ' ' else s[i]
    decreases |s|
  {
    if s != "" {
      assert s[0] != '%' && '%' !in s[1..];
      UnescapePlain(s[1..]);
    }
  }

  lemma {:induction false} UnescapeShortens(s: string)
    requires Unescape(s).Some?
    ensures |Unescape(s).value| <= |s|
    ensures '%' in s ==> |Unescape(s).value| < |s|
    decreases |s|
  {
    if s != "" {
      if s[0] == '%' {
        UnescapeShortens(s[3..]);
      } else {
        UnescapeShortens(s[1..]);
        assert '%' in s ==> '%' in s[1..];
      }
    }
  }

  function HexDigit(v: nat): char
    requires v < 16
  {
    if v < 10 then ('0' as nat + v) as char else ('A' as nat + v - 10) as char
  }

  // Every byte written as a percent sign and two hexadecimal digits.
  function Escape(s: string): string
    requires forall i :: 0 <= i < |s| ==> s[i] as nat < 256
  {
    if s == "" then ""
    else ['%', HexDigit(s[0] as nat / 16), HexDigit(s[0] as nat % 16)] + Escape(s[1..])
  }

  // Unescaping inverts escaping, for every byte string.
  lemma {:induction false} UnescapeEscape(s: string)
    requires forall i :: 0 <= i < |s| ==> s[i] as nat < 256
    ensures Unescape(Escape(s)) == Some(s)
    decreases |s|
  {
    if s != "" {
      var e := Escape(s);
      assert e[3..] == Escape(s[1..]);
      UnescapeEscape(s[1..]);
      HexInverse(s[0] as nat / 16);
      HexInverse(s[0] as nat % 16);
      assert [s[0]] + s[1..] == s;
    }
  }

  lemma HexInverse(v: nat)
    requires v < 16
    ensures HexValue(HexDigit(v)) == Some(v)
  {
  }

  // ----- normal form

  // One character, which may be a wildcard, or more without any.
  predicate IsSegment(e: string) {
    |e| == 1 || (|e| > 1 && '*' !in e && '>' !in e)
  }

  // Empty, or such segments between dots.
  predicate Normal(s: string) {
    s == "" || forall i :: 0 <= i < |Split(s)| ==> IsSegment(Split(s)[i])
  }

  lemma NormalMeans(s: string)
    requires Normal(s) && s != ""
    ensures "" !in Split(s) && AllGood(Split(s))
  {
  }

  lemma ParseIsNormal(subtopic: string)
    requires Parse(subtopic).Some?
    ensures Normal(Parse(subtopic).value) && '/' !in Parse(subtopic).value
  {
    if subtopic != "" {
      var d := Replace(Unescape(subtopic).value, '/', '.');
      var elems := Split(d);
      var kept := NonEmpty(elems);
      var r := Join(kept);
      NonEmptyMembers(elems);
      SplitIsDotFree(d);
      if '/' in r {
        ReplaceAt(Unescape(subtopic).value, '/', '.');
        JoinAddsOnlyDots(kept, '/');
        var i :| 0 <= i < |kept| && '/' in kept[i];
        assert kept[i] in kept && kept[i] in elems;
        var j :| 0 <= j < |elems| && elems[j] == kept[i];
        SplitCharacters(d, j, '/');
      }
      if kept != [] {
        forall i | 0 <= i < |kept| ensures '.' !in kept[i] && IsSegment(kept[i]) {
          assert kept[i] in kept && kept[i] in elems && kept[i] != "";
        }
        SplitJoin(kept);
      }
    }
  }

  // A leading slash and any text: the parse of a path is shorter than the path, by at least two if it has a
  // percent sign, and has no plus sign that was not escaped.
  lemma ParsePathShortens(path: string)
    requires path != "" && path[0] == '/' && Parse(path).Some?
    ensures |Parse(path).value| < |path|
    ensures '%' in path ==> |Parse(path).value| + 1 < |path|
  {
    var s := Unescape(path).value;
    UnescapeShortens(path);
    assert s[0] == '/';
    var d := Replace(s, '/', '.');
    assert d[0] == '.';
    JoinSplit(d);
    NonEmptyShortens(Split(d));
  }

  lemma ParseHasNoPlus(path: string)
    requires path != "" && '%' !in path && Parse(path).Some?
    ensures '+' !in Parse(path).value
  {
    UnescapePlain(path);
    var s := Unescape(path).value;
    var d := Replace(s, '/', '.');
    ReplaceAt(s, '/', '.');
    assert '+' !in d;
    var elems := Split(d);
    NonEmptyMembers(elems);
    if '+' in Join(NonEmpty(elems)) {
      JoinAddsOnlyDots(NonEmpty(elems), '+');
      var i :| 0 <= i < |NonEmpty(elems)| && '+' in NonEmpty(elems)[i];
      assert NonEmpty(elems)[i] in NonEmpty(elems) && NonEmpty(elems)[i] in elems;
      var j :| 0 <= j < |elems| && elems[j] == NonEmpty(elems)[i];
      SplitCharacters(d, j, '+');
    }
  }

  // Parsing what slashes and dots separate into good segments gives those segments.
  lemma ParsePlain(s: string)
    requires s != "" && '%' !in s && '+' !in s
    requires var elems := Split(Replace(s, '/', '.')); AllGood(elems)
    ensures Parse(s) == Some(Join(NonEmpty(Split(Replace(s, '/', '.')))))
  {
    UnescapePlain(s);
    assert Unescape(s).value == s;
  }

  lemma PlainIsFixed(r: string)
    requires Normal(r) && '/' !in r && '%' !in r && '+' !in r
    ensures Parse(r) == Some(r)
  {
    if r != "" {
      NormalMeans(r);
      ReplaceAt(r, '/', '.');
      assert Replace(r, '/', '.') == r;
      ParsePlain(r);
      NonEmptyIdentity(Split(r));
      JoinSplit(r);
    }
  }

  lemma FixedIsPlain(r: string)
    requires Parse(r) == Some(r)
    ensures '%' !in r && '+' !in r
  {
    if r != "" {
      UnescapeShortens(r);
      var d := Replace(Unescape(r).value, '/', '.');
      JoinSplit(d);
      NonEmptyShortens(Split(d));
      if '+' in r { ParseHasNoPlus(r); }
    }
  }

  // A result is fixed by parsing it again exactly when it contains no escape.
  lemma ParseIsIdempotentIff(subtopic: string)
    requires Parse(subtopic).Some?
    ensures var r := Parse(subtopic).value; Parse(r) == Some(r) <==> '%' !in r && '+' !in r
  {
    hide Parse, Normal;
    var r := Parse(subtopic).value;
    ParseIsNormal(subtopic);
    if Parse(r) == Some(r) { FixedIsPlain(r); }
    if '%' !in r && '+' !in r { PlainIsFixed(r); }
  }

  lemma UnescapeOne(a: char, b: char, rest: string)
    requires HexValue(a).Some? && HexValue(b).Some? && Unescape(rest).Some?
    ensures Unescape(['%', a, b] + rest)
         == Some([(16 * HexValue(a).value + HexValue(b).value) as char] + Unescape(rest).value)
  {
    var s := ['%', a, b] + rest;
    assert s[3..] == rest && s[1] == a && s[2] == b;
  }

  // An escaped escape is taken off one layer at a time.
  lemma EscapedResultIsNotFixed()
    ensures Parse("%2541") == Some("%41") && Parse("%41") == Some("A")
  {
    assert Unescape("%41") == Some("A") by {
      UnescapeOne('4', '1', "");
      assert ['%', '4', '1'] + "" == "%41" && ['A'] + "" == "A";
    }
    assert Unescape("%2541") == Some("%41") by {
      UnescapePlain("41");
      assert Unescape("41").value == "41";
      UnescapeOne('2', '5', "41");
      assert ['%', '2', '5'] + "41" == "%2541" && ['%'] + "41" == "%41";
    }
    PlainElement("A");
    PlainElement("%41");
  }

  lemma PlainElement(elem: string)
    requires elem != "" && '.' !in elem && '/' !in elem && '*' !in elem && '>' !in elem
    ensures Split(Replace(elem, '/', '.')) == [elem] && AllGood([elem]) && Join(NonEmpty([elem])) == elem
  {
    ReplaceAt(elem, '/', '.');
    assert Replace(elem, '/', '.') == elem;
    SplitElement(elem);
    assert NonEmpty([elem][1..]) == [];
  }

  // ----- round trip

  // Names that survive: the channel a word, the subtopic normal and free of what topics and URLs reserve.
  ghost predicate Canonical(channel: string, subtopic: string) {
    IsChannel(channel) && Normal(subtopic)
    && '/' !in subtopic && '?' !in subtopic && '%' !in subtopic && '+' !in subtopic
  }

  function PathOf(subtopic: string): string {
    if subtopic == "" then "" else "/" + Replace(subtopic, '.', '/')
  }

  lemma TopicMatches(channel: string, subtopic: string)
    requires IsChannel(channel) && '?' !in subtopic
    ensures FindSubmatch(TopicOf(channel, subtopic)) == Some(Parts(channel, PathOf(subtopic)))
  {
    hide FindSubmatch;
    var path := PathOf(subtopic);
    ReplaceAt(subtopic, '.', '/');
    assert TopicOf(channel, subtopic) == "" + (CHANNELS + (channel + (MESSAGES + (path + ""))));
    assert "" in ["", "/"] && IsQuery("");
    FindComplete(TopicOf(channel, subtopic), channel, path);
  }

  lemma ParsePath(subtopic: string)
    requires subtopic != "" && Normal(subtopic) && '/' !in subtopic && '%' !in subtopic && '+' !in subtopic
    ensures Parse(PathOf(subtopic)) == Some(subtopic)
  {
    NormalMeans(subtopic);
    var slashed := Replace(subtopic, '.', '/');
    var path := "/" + slashed;
    ReplaceAt(subtopic, '.', '/');
    ReplaceBack(subtopic);
    assert path[1..] == slashed;
    assert Replace(path, '/', '.') == "." + subtopic;
    assert ("." + subtopic)[1..] == subtopic;
    var elems := [""] + Split(subtopic);
    assert Split("." + subtopic) == elems;
    assert elems[1..] == Split(subtopic);
    NonEmptyIdentity(Split(subtopic));
    assert NonEmpty(elems) == [] + Split(subtopic) == Split(subtopic);
    NoneIn(slashed, subtopic);
    ParsePlain(path);
    JoinSplit(subtopic);
  }

  lemma NoneIn(slashed: string, subtopic: string)
    requires |slashed| == |subtopic| && '%' !in subtopic && '+' !in subtopic
    requires forall i :: 0 <= i < |subtopic| ==> slashed[i] == if subtopic[i] == '.' then '/' else subtopic[i]
    ensures '%' !in slashed && '+' !in slashed
  {
  }

  lemma CanonicalRoundTrip(channel: string, subtopic: string)
    requires Canonical(channel, subtopic)
    ensures Receive(TopicOf(channel, subtopic)) == Some(Message(channel, subtopic, PROTOCOL))
  {
    hide Parse, FindSubmatch, TopicOf;
    TopicMatches(channel, subtopic);
    if subtopic != "" {
      ParsePath(subtopic);
    } else {
      assert Parse("") == Some("") by { ParseNothing(); }
    }
  }

  lemma ParseNothing()
    ensures Parse("") == Some("")
  {
  }

  // With the channel recovered, the path found is the printed one cut at the first '?'.
  lemma PathIsCut(channel: string, subtopic: string) returns (query: string)
    requires IsChannel(channel) && FindSubmatch(TopicOf(channel, subtopic)).Some?
    ensures PathOf(subtopic) == FindSubmatch(TopicOf(channel, subtopic)).value.path + query
    ensures '?' in PathOf(subtopic) ==> query != ""
  {
    hide FindSubmatch, FindChannel, FindPath;
    var path := PathOf(subtopic);
    assert TopicOf(channel, subtopic) == "" + (CHANNELS + (channel + (MESSAGES + path)));
    FindAfterSlash("", channel + (MESSAGES + path));
    FindAfterChannel(channel, path);
    query := FindPathSound(channel, path);
    if query == "" {
      assert path == FindPath(channel, path).value.path;
    }
  }

  lemma InPath(subtopic: string, c: char)
    requires c in subtopic && c != '.'
    ensures c in PathOf(subtopic)
  {
    ReplaceAt(subtopic, '.', '/');
    var i :| 0 <= i < |subtopic| && subtopic[i] == c;
    assert PathOf(subtopic)[i + 1] == c;
  }

  lemma RoundTripIsCanonical(channel: string, subtopic: string)
    requires Receive(TopicOf(channel, subtopic)) == Some(Message(channel, subtopic, PROTOCOL))
    ensures Canonical(channel, subtopic)
  {
    hide FindSubmatch, Parse, Normal, PathOf;
    var path := FindSubmatch(TopicOf(channel, subtopic)).value.path;
    FindSound(TopicOf(channel, subtopic));
    ParseIsNormal(path);
    if subtopic != "" {
      var query := PathIsCut(channel, subtopic);
      if path == "" { ParseNothing(); }
      PathLength(subtopic);
      ParsePathShortens(path);
      assert path == PathOf(subtopic);
      SurvivingCharacters(path, subtopic);
    }
  }

  lemma PathLength(subtopic: string)
    requires subtopic != ""
    ensures |PathOf(subtopic)| == |subtopic| + 1 && PathOf(subtopic)[0] == '/'
  {
  }

  // A path printed for a subtopic and parsed to it has no query mark, no escape and no plus sign.
  lemma SurvivingCharacters(path: string, subtopic: string)
    requires subtopic != "" && path == PathOf(subtopic) && '?' !in path && Parse(path) == Some(subtopic)
    ensures '?' !in subtopic && '%' !in subtopic && '+' !in subtopic
  {
    hide Parse, PathOf;
    PathLength(subtopic);
    ParsePathShortens(path);
    ParseHasNoPlus(path);
    if c :| c in ['?', '%'] && c in subtopic {
      InPath(subtopic, c);
    }
  }

  // A message that is forwarded comes back with its channel and subtopic exactly when both are canonical.
  lemma RoundTrip(msg: Message)
    requires Forward(msg).Some?
    ensures Receive(Forward(msg).value) == Some(msg.(protocol := PROTOCOL)) <==> Canonical(msg.channel, msg.subtopic)
  {
    hide Receive, Canonical, TopicOf;
    var channel, subtopic := msg.channel, msg.subtopic;
    if Canonical(channel, subtopic) { CanonicalRoundTrip(channel, subtopic); }
    if Receive(TopicOf(channel, subtopic)) == Some(Message(channel, subtopic, PROTOCOL)) {
      RoundTripIsCanonical(channel, subtopic);
    }
  }

  // ----- the handler

  ghost predicate Carries(topic: string, channel: string, subtopic: string) {
    exists path :: Matches(topic, channel, path) && Parse(path) == Some(subtopic)
  }

  // A channel and subtopic are published exactly when the topic has them by the pattern.
  lemma ReceiveIff(topic: string, channel: string, subtopic: string)
    ensures Receive(topic) == Some(Message(channel, subtopic, PROTOCOL)) <==> Carries(topic, channel, subtopic)
  {
    hide Matches, FindSubmatch, Parse;
    if FindSubmatch(topic).Some? {
      FindIffMatches(topic, FindSubmatch(topic).value.channel, FindSubmatch(topic).value.path);
    }
    if Carries(topic, channel, subtopic) {
      var path :| Matches(topic, channel, path) && Parse(path) == Some(subtopic);
      FindIffMatches(topic, channel, path);
    }
  }

  // The parsing half of `Publish`: what is published is what the topic carries, it is in normal form, and it is
  // not forwarded back.
  method Received(topic: string) returns (r: Option<Message>)
    ensures r == Receive(topic)
    ensures forall channel, subtopic ::
              r == Some(Message(channel, subtopic, PROTOCOL)) <==> Carries(topic, channel, subtopic)
    ensures r.Some? ==> Forward(r.value) == None
    ensures r.Some? ==> IsChannel(r.value.channel) && Normal(r.value.subtopic) && '/' !in r.value.subtopic
  {
    hide FindSubmatch, Parse, Normal, Carries, IsChannel;
    forall channel, subtopic
      ensures Receive(topic) == Some(Message(channel, subtopic, PROTOCOL)) <==> Carries(topic, channel, subtopic)
    {
      ReceiveIff(topic, channel, subtopic);
    }
    var channelParts := FindSubmatch(topic);
    if channelParts.None? {
      return None;
    }
    FindSound(topic);
    var subtopic := ParseSubtopic(channelParts.value.path);
    if subtopic.None? {
      return None;
    }
    ParseIsNormal(channelParts.value.path);
    return Some(Message(channelParts.value.channel, subtopic.value, PROTOCOL));
  }
}
