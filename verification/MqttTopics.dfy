// MQTT topics: the forwarder that prints a message's channel and subtopic, and the handler that reads them
// back. Strings are byte strings; a character is a byte.
module MqttTopics {
  import opened Wrappers

  const PROTOCOL := "mqtt"
  const CHANNELS := "channels/"
  const MESSAGES := "/messages"

  datatype Message = Message(channel: string, subtopic: string, protocol: string)

  // ----- printing

  function Replace(s: string, from: char, to: char): (r: string)
    ensures |r| == |s|
  {
    if s == "" then "" else [if s[0] == from then to else s[0]] + Replace(s[1..], from, to)
  }

  function TopicOf(channel: string, subtopic: string): string {
    CHANNELS + channel + MESSAGES + (if subtopic == "" then "" else "/" + Replace(subtopic, '.', '/'))
  }

  // `handle`: messages that came in over MQTT are not sent out again.
  function Forward(msg: Message): Option<string> {
    if msg.protocol == PROTOCOL then None else Some(TopicOf(msg.channel, msg.subtopic))
  }

  // ----- the pattern ^\/?channels\/([\w\-]+)\/messages(\/[^?]*)?(\?.*)?$

  predicate IsWord(c: char) {
    'a' <= c <= 'z' || 'A' <= c <= 'Z' || '0' <= c <= '9' || c == '_' || c == '-'
  }

  predicate AllWord(s: string) {
    forall i :: 0 <= i < |s| ==> IsWord(s[i])
  }

  predicate IsChannel(s: string) {
    s != "" && AllWord(s)
  }

  // The optional groups: a path without '?', and a query whose '.' does not match a newline.
  predicate IsPath(s: string) {
    s == "" || (s[0] == '/' && '?' !in s)
  }

  predicate IsQuery(s: string) {
    s == "" || (s[0] == '?' && '\n' !in s)
  }

  ghost predicate Matches(topic: string, channel: string, path: string) {
    IsChannel(channel) && IsPath(path)
    && exists slash, query :: slash in ["", "/"] && IsQuery(query)
         && topic == slash + (CHANNELS + (channel + (MESSAGES + (path + query))))
  }

  datatype Parts = Parts(channel: string, path: string)

  // The length of the longest prefix of word characters, and of the part before the first '?'.
  function WordPrefix(s: string): (n: nat)
    ensures n <= |s| && AllWord(s[..n]) && (n < |s| ==> !IsWord(s[n]))
  {
    if s == "" || !IsWord(s[0]) then 0 else WordPrefix(s[1..]) + 1
  }

  function BeforeQuery(s: string): (n: nat)
    ensures n <= |s| && '?' !in s[..n] && (n < |s| ==> s[n] == '?')
  {
    if s == "" || s[0] == '?' then 0 else BeforeQuery(s[1..]) + 1
  }

  // `FindStringSubmatch`, reading from left to right: an optional slash and the fixed word, then the channel
  // and the second fixed word, then the optional path and query.
  function FindSubmatch(topic: string): Option<Parts> {
    var t := if topic != "" && topic[0] == '/' then topic[1..] else topic;
    if CHANNELS <= t then FindChannel(t[|CHANNELS|..]) else None
  }

  function FindChannel(s: string): Option<Parts> {
    var n := WordPrefix(s);
    if n > 0 && MESSAGES <= s[n..] then FindPath(s[..n], s[n..][|MESSAGES|..]) else None
  }

  function FindPath(channel: string, s: string): Option<Parts> {
    var k := if s != "" && s[0] == '/' then BeforeQuery(s) else 0;
    if IsQuery(s[k..]) then Some(Parts(channel, s[..k])) else None
  }

  // ----- parsing a subtopic

  function HexValue(c: char): Option<nat> {
    if '0' <= c <= '9' then Some(c as nat - '0' as nat)
    else if 'a' <= c <= 'f' then Some(c as nat - 'a' as nat + 10)
    else if 'A' <= c <= 'F' then Some(c as nat - 'A' as nat + 10)
    else None
  }

  // `url.QueryUnescape`
  function Unescape(s: string): Option<string>
    decreases |s|
  {
    if s == "" then Some("")
    else if s[0] == '%' then
      if |s| < 3 || HexValue(s[1]).None? || HexValue(s[2]).None? then None
      else
        match Unescape(s[3..])
        case None => None
        case Some(rest) => Some([(16 * HexValue(s[1]).value + HexValue(s[2]).value) as char] + rest)
    else
      match Unescape(s[1..])
      case None => None
      case Some(rest) => Some([if s[0] == '+' then ' ' else s[0]] + rest)
  }

  // `strings.Split(s, ".")` and `strings.Join(elems, ".")`
  function Split(s: string): (r: seq<string>)
    ensures r != []
  {
    if s == "" then [""]
    else
      var rest := Split(s[1..]);
      if s[0] == '.' then [""] + rest else [[s[0]] + rest[0]] + rest[1..]
  }

  function Join(elems: seq<string>): string {
    if elems == [] then "" else if |elems| == 1 then elems[0] else elems[0] + "." + Join(elems[1..])
  }

  function NonEmpty(elems: seq<string>): seq<string> {
    if elems == [] then [] else (if elems[0] == "" then [] else [elems[0]]) + NonEmpty(elems[1..])
  }

  // A wildcard is a whole segment or none of it.
  predicate GoodElement(elem: string) {
    |elem| <= 1 || ('*' !in elem && '>' !in elem)
  }

  predicate AllGood(elems: seq<string>) {
    forall i :: 0 <= i < |elems| ==> GoodElement(elems[i])
  }

  // None is a malformed subtopic.
  function Parse(subtopic: string): Option<string> {
    if subtopic == "" then Some("")
    else
      match Unescape(subtopic)
      case None => None
      case Some(s) =>
        var elems := Split(Replace(s, '/', '.'));
        if AllGood(elems) then Some(Join(NonEmpty(elems))) else None
  }

  // `parseSubtopic`
  method ParseSubtopic(subtopic: string) returns (r: Option<string>)
    ensures r == Parse(subtopic)
  {
    hide Unescape, Split, Replace, Join;
    if subtopic == "" {
      return Some(subtopic);
    }
    var unescaped := Unescape(subtopic);
    if unescaped.None? {
      return None;
    }
    var elems := Split(Replace(unescaped.value, '/', '.'));
    var filteredElems: seq<string> := [];
    for i := 0 to |elems|
      invariant forall j :: 0 <= j < i ==> GoodElement(elems[j])
      invariant filteredElems + NonEmpty(elems[i..]) == NonEmpty(elems)
    {
      var elem := elems[i];
      assert elems[i..][1..] == elems[i + 1..];
      if elem == "" {
        continue;
      }
      if |elem| > 1 && ('*' in elem || '>' in elem) {
        return None;
      }
      filteredElems := filteredElems + [elem];
    }
    assert filteredElems + [] == filteredElems;
    return Some(Join(filteredElems));
  }

  // What is published for a topic, if anything.
  function Receive(topic: string): Option<Message> {
    match FindSubmatch(topic)
    case None => None
    case Some(parts) =>
      match Parse(parts.path)
      case None => None
      case Some(subtopic) => Some(Message(parts.channel, subtopic, PROTOCOL))
  }
}
