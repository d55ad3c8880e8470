/**
 * The topic matcher of `src/core/broker.c`, against the word-wise meaning of
 * `*` (exactly one word) and `#` (zero or more words) of section 3.1.3.3 of
 * AMQP 0-9-1.
 */
module Topics {
  import opened Memory

  /** `match_topic`. */
  predicate MatchTopic(pattern: CString, topic: CString) {
    if pattern == "#" then true
    else if pattern == "*" then '.' !in topic
    else pattern == topic
  }

  // ---------------------------------------------------------------- the reference

  type Words = seq<CString>

  /** The words between the dots; the empty key is one empty word. */
  function Split(key: CString): (words: Words)
    ensures |words| > 0
  {
    if key == [] then [[]]
    else
      var rest := Split(key[1..]);
      if key[0] == '.' then [[]] + rest else [[key[0]] + rest[0]] + rest[1..]
  }

  function Join(words: Words): CString {
    if words == [] then []
    else if |words| == 1 then words[0]
    else words[0] + ['.'] + Join(words[1..])
  }

  predicate WordsMatch(pattern: Words, topic: Words)
    decreases |pattern| + |topic|
  {
    if pattern == [] then topic == []
    else if pattern[0] == "#" then
      WordsMatch(pattern[1..], topic) || (topic != [] && WordsMatch(pattern, topic[1..]))
    else
      topic != [] && (pattern[0] == "*" || pattern[0] == topic[0]) && WordsMatch(pattern[1..], topic[1..])
  }

  predicate Matches(pattern: CString, topic: CString) {
    WordsMatch(Split(pattern), Split(topic))
  }

  predicate Wildcard(word: CString) {
    word == "#" || word == "*"
  }

  predicate HasWildcard(words: Words) {
    exists i :: 0 <= i < |words| && Wildcard(words[i])
  }

  // ---------------------------------------------------------------- words and keys

  lemma {:induction false} JoinSplit(key: CString)
    ensures Join(Split(key)) == key
  {
    if key != [] {
      var rest := Split(key[1..]);
      JoinSplit(key[1..]);
      if key[0] == '.' {
        assert ([[]] + rest)[1..] == rest;
      } else {
        assert ([[key[0]] + rest[0]] + rest[1..])[1..] == rest[1..];
      }
    }
  }

  ghost predicate DotFree(words: Words) {
    forall i :: 0 <= i < |words| ==> '.' !in words[i]
  }

  lemma {:induction false} SplitDotFree(key: CString)
    ensures DotFree(Split(key))
  {
    if key != [] {
      SplitDotFree(key[1..]);
    }
  }

  lemma {:induction false} SplitWord(word: CString, rest: CString)
    requires '.' !in word
    ensures Split(word) == [word]
    ensures Split(word + ['.'] + rest) == [word] + Split(rest)
  {
    if word == [] {
      assert word + ['.'] + rest == ['.'] + rest;
      assert (['.'] + rest)[1..] == rest;
    } else {
      SplitWord(word[1..], rest);
      assert (word + ['.'] + rest)[1..] == word[1..] + ['.'] + rest;
      assert word == [word[0]] + word[1..];
    }
  }

  lemma {:induction false} SplitJoin(words: Words)
    requires DotFree(words) && words != []
    ensures Split(Join(words)) == words
  {
    if |words| == 1 {
      SplitWord(words[0], []);
    } else {
      SplitJoin(words[1..]);
      SplitWord(words[0], Join(words[1..]));
    }
  }

  /** A key is one word exactly when it has no dot. */
  lemma OneWord(key: CString)
    ensures |Split(key)| == 1 <==> '.' !in key
  {
    if '.' !in key {
      SplitWord(key, []);
    } else if |Split(key)| == 1 {
      SplitDotFree(key);
      JoinSplit(key);
    }
  }

  // ---------------------------------------------------------------- the reference on the three accepted shapes

  lemma {:induction false} HashMatchesAll(topic: Words)
    ensures WordsMatch(["#"], topic)
  {
    if topic != [] {
      HashMatchesAll(topic[1..]);
    }
  }

  lemma StarMatchesOne(topic: Words)
    ensures WordsMatch(["*"], topic) <==> |topic| == 1
  {
    var star: Words := ["*"];
    assert star[1..] == [];
    assert topic != [] ==> (WordsMatch(star[1..], topic[1..]) <==> topic[1..] == []);
  }

  lemma {:induction false} WordsMatchThemselves(words: Words)
    ensures WordsMatch(words, words)
  {
    if words != [] {
      WordsMatchThemselves(words[1..]);
      if words[0] == "#" {
        HashSwallows(words[1..], words);
      }
    }
  }

  /** After `#` one word may be skipped. */
  lemma HashSwallows(pattern: Words, topic: Words)
    requires topic != [] && WordsMatch(pattern, topic[1..])
    ensures WordsMatch(["#"] + pattern, topic)
  {
    var p := ["#"] + pattern;
    assert p[1..] == pattern;
    assert WordsMatch(p, topic[1..]);
  }

  lemma {:induction false} PlainMatchesItself(pattern: Words, topic: Words)
    requires !HasWildcard(pattern)
    ensures WordsMatch(pattern, topic) <==> pattern == topic
  {
    if pattern != [] {
      assert !Wildcard(pattern[0]);
      assert forall i :: 0 <= i < |pattern| - 1 ==> pattern[1..][i] == pattern[i + 1];
      if topic != [] {
        PlainMatchesItself(pattern[1..], topic[1..]);
        assert pattern == [pattern[0]] + pattern[1..] && topic == [topic[0]] + topic[1..];
      }
    }
  }

  lemma SplitWildcards()
    ensures Split("#") == ["#"] && Split("*") == ["*"]
  {
    SplitWord("#", []);
    SplitWord("*", []);
  }

  /** Everything the matcher accepts has a right to be accepted. */
  lemma MatcherSound(pattern: CString, topic: CString)
    requires MatchTopic(pattern, topic)
    ensures Matches(pattern, topic)
  {
    SplitWildcards();
    if pattern == "#" {
      HashMatchesAll(Split(topic));
    } else if pattern == "*" {
      SplitWord(topic, []);
    } else {
      WordsMatchThemselves(Split(topic));
    }
  }

  // ---------------------------------------------------------------- where the two agree

  ghost predicate Agree(pattern: CString) {
    forall topic: CString :: MatchTopic(pattern, topic) <==> Matches(pattern, topic)
  }

  /** The patterns the matcher was written for. */
  predicate Supported(pattern: CString) {
    pattern == "#" || pattern == "*" || !HasWildcard(Split(pattern))
  }

  lemma SupportedAgree(pattern: CString, topic: CString)
    requires Supported(pattern)
    ensures MatchTopic(pattern, topic) <==> Matches(pattern, topic)
  {
    SplitWildcards();
    if pattern == "#" {
      HashMatchesAll(Split(topic));
    } else if pattern == "*" {
      OneWord(topic);
      StarMatchesOne(Split(topic));
    } else {
      PlainMatchesItself(Split(pattern), Split(topic));
      JoinSplit(pattern);
      JoinSplit(topic);
    }
  }

  /** A topic for a pattern: every wildcard word replaced by the word `x`. */
  function Instance(pattern: Words): (topic: Words)
    ensures |topic| == |pattern|
    ensures forall i :: 0 <= i < |topic| ==> topic[i] == if Wildcard(pattern[i]) then "x" else pattern[i]
  {
    seq(|pattern|, i requires 0 <= i < |pattern| => if Wildcard(pattern[i]) then "x" else pattern[i])
  }

  lemma {:induction false} InstanceMatches(pattern: Words)
    ensures WordsMatch(pattern, Instance(pattern))
  {
    if pattern != [] {
      InstanceMatches(pattern[1..]);
      assert Instance(pattern)[1..] == Instance(pattern[1..]);
      if pattern[0] == "#" {
        HashSwallows(pattern[1..], Instance(pattern));
        assert ["#"] + pattern[1..] == pattern;
      }
    }
  }

  /** Any other pattern misses a topic it should match. */
  lemma UnsupportedMisses(pattern: CString) returns (topic: CString)
    requires !Supported(pattern)
    ensures Matches(pattern, topic) && !MatchTopic(pattern, topic)
  {
    var words := Split(pattern);
    topic := Join(Instance(words));
    SplitDotFree(pattern);
    SplitJoin(Instance(words));
    InstanceMatches(words);
    var i :| 0 <= i < |words| && Wildcard(words[i]);
    assert Instance(words)[i] != words[i];
  }

  /** The matcher is the reference exactly on the patterns `#`, `*` and those without a wildcard word. */
  lemma AgreeIff(pattern: CString)
    ensures Agree(pattern) <==> Supported(pattern)
  {
    if Supported(pattern) {
      forall topic: CString
        ensures MatchTopic(pattern, topic) <==> Matches(pattern, topic)
      {
        SupportedAgree(pattern, topic);
      }
    } else {
      var topic := UnsupportedMisses(pattern);
    }
  }

  /**
   * What the matcher accepts, for every pattern and topic: on a supported pattern
   * what the reference accepts, on any other the pattern itself and nothing else.
   */
  lemma MatcherIff(pattern: CString, topic: CString)
    ensures MatchTopic(pattern, topic) <==> if Supported(pattern) then Matches(pattern, topic) else topic == pattern
  {
    if Supported(pattern) {
      SupportedAgree(pattern, topic);
    }
  }

  /** A pattern other than `#` and `*` accepts exactly one topic, itself. */
  lemma OneTopic(pattern: CString, topic: CString)
    requires pattern != "#" && pattern != "*"
    ensures MatchTopic(pattern, topic) <==> topic == pattern
  {
  }

  /** The binding key of the example broker is not supported: `test.#` misses a topic it should match. */
  lemma TestHashMisses()
    ensures !Supported("test.#") && !Agree("test.#")
  {
    var test: CString, hash: CString := "test", "#";
    SplitWord(test, hash);
    assert test + ['.'] + hash == "test.#";
    SplitWildcards();
    assert Wildcard(Split("test.#")[1]);
    AgreeIff("test.#");
  }
}
