/** Topic filters and what they match, down to the topic stored in a message. */
module Routing {
  import opened Utf8
  import opened MessageCodec

  const STAR: byte := '*' as int

  datatype Filter = Exact(text: seq<byte>) | Prefix(text: seq<byte>)

  predicate Wild(pattern: seq<byte>) { pattern != [] && pattern[|pattern| - 1] == STAR }

  /** The pattern without its trailing star. */
  function Literal(pattern: seq<byte>): seq<byte> {
    if Wild(pattern) then pattern[..|pattern| - 1] else pattern
  }

  function Parse(pattern: seq<byte>): Filter {
    if Wild(pattern) then Prefix(Literal(pattern)) else Exact(pattern)
  }

  predicate Matches(f: Filter, topic: seq<byte>) {
    match f
    case Exact(t) => t == topic
    case Prefix(p) => p <= topic
  }

  /** The documented rule: the pattern is the topic, or is a prefix of it followed by `*`. */
  ghost predicate Selects(pattern: seq<byte>, topic: seq<byte>) {
    pattern == topic || exists n: nat :: n <= |topic| && pattern == topic[..n] + ['*' as int]
  }

  /** A parsed pattern matches what the documented rule selects. */
  lemma MatchesIsSelects(pattern: seq<byte>, topic: seq<byte>)
    ensures Matches(Parse(pattern), topic) <==> Selects(pattern, topic)
  {
    if Matches(Parse(pattern), topic) && Wild(pattern) {
      assert pattern == topic[..|pattern| - 1] + ['*' as int];
    }
  }

  /** A message whose topic has no NUL and at most 32 bytes is matched exactly by the
      patterns the documented rule selects for that topic. */
  lemma RoutesByRule(pattern: seq<byte>, topic: seq<byte>, payload: seq<byte>)
    requires Valid(topic) && FirstZero(topic) == |topic| <= 32
    ensures Matches(Parse(pattern), TopicStr(New(topic, payload))) <==> Selects(pattern, topic)
  {
    TopicOfNew(topic, payload);
    assert topic[..|topic|] == topic;
    MatchesIsSelects(pattern, topic);
  }

  /** For any topic text, the documented rule is applied to what the record stores of it:
      the text up to its first NUL or 32 bytes, or nothing when that cut splits a character. */
  lemma RoutesByStoredTopic(pattern: seq<byte>, topic: seq<byte>, payload: seq<byte>)
    requires Valid(topic)
    ensures var e := TopicEnd(topic);
      Matches(Parse(pattern), TopicStr(New(topic, payload))) <==>
        Selects(pattern, if IsBoundary(topic, e) then topic[..e] else [])
  {
    TopicOfNew(topic, payload);
    MatchesIsSelects(pattern, TopicStr(New(topic, payload)));
  }

  /** A pattern whose literal part is longer than the topic field matches no message. */
  lemma LongPatternNeverMatches(pattern: seq<byte>, m: Message)
    requires |pattern| > 33 || (|pattern| == 33 && pattern[32] != '*' as int)
    ensures !Matches(Parse(pattern), TopicStr(m))
  {
  }

  /** The timestamp set at publication does not change the routing. */
  lemma TimestampIrrelevant(m: Message, now: nat)
    requires now < 0x1_0000_0000_0000_0000
    ensures TopicStr(m.(timestamp := now)) == TopicStr(m)
  {
  }
}
