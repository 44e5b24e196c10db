/** The topic-exchange routing-key matcher and the binding filter built on it. */
module TopicMatch {
  import opened Wrappers

  const SEPARATOR: char := '.'

  function IndexFrom(s: string, c: char, from: nat): (i: int)
    requires from <= |s|
    ensures i == -1 || (from <= i < |s| && s[i] == c)
    ensures forall k :: from <= k < (if i == -1 then |s| else i) ==> s[k] != c
    decreases |s| - from
  {
    if from == |s| then -1
    else if s[from] == c then from
    else IndexFrom(s, c, from + 1)
  }

  /** The position of the first `c` in `s`, or -1. */
  function IndexOf(s: string, c: char): int {
    IndexFrom(s, c, 0)
  }

  // ---------------------------------------------------------------- declarative definition

  /** The dot-separated pieces of a string; there is always at least one. */
  function Pieces(s: string): (ps: seq<string>)
    ensures |ps| >= 1
    decreases |s|
  {
    var i := IndexOf(s, SEPARATOR);
    if i == -1 then [s] else [s[..i]] + Pieces(s[i + 1..])
  }

  /** The words of a routing key or pattern: the empty string has none. */
  function Words(s: string): seq<string> {
    if s == "" then [] else Pieces(s)
  }

  predicate EndsWithDot(s: string) {
    s != "" && s[|s| - 1] == SEPARATOR
  }

  /** The topic exchange rule on word lists: `*` is exactly one word, `#` is zero or more. */
  ghost predicate WordsMatch(p: seq<string>, k: seq<string>) {
    if p == [] then k == []
    else if p[0] == "#" then exists i :: 0 <= i <= |k| && WordsMatch(p[1..], k[i..])
    else k != [] && (p[0] == "*" || p[0] == k[0]) && WordsMatch(p[1..], k[1..])
  }

  predicate AllHash(ws: seq<string>) {
    ws == [] || (ws[0] == "#" && AllHash(ws[1..]))
  }

  predicate AllLoose(ws: seq<string>) {
    ws == [] || ((ws[0] == "#" || ws[0] == "") && AllLoose(ws[1..]))
  }

  /** Some empty pattern word is followed only by `#` and empty words. */
  predicate HasDanglingEmptyWord(ws: seq<string>) {
    ws != [] && (HasDanglingEmptyWord(ws[1..]) || (ws[0] == "" && AllLoose(ws[1..])))
  }

  lemma {:induction false} IndexOfIs(s: string, c: char, i: int)
    requires -1 <= i < |s| && (i >= 0 ==> s[i] == c)
    requires forall k :: 0 <= k < (if i == -1 then |s| else i) ==> s[k] != c
    ensures IndexOf(s, c) == i
  {
  }

  /** Words are what dots separate; only the empty string has none. */
  lemma {:induction false} DotsSeparateWords(a: string, b: string)
    requires '.' !in a
    ensures Words("") == [] && (a != "" ==> Words(a) == [a])
    ensures Words(a + "." + b) == [a] + if b == "" then [""] else Words(b)
    ensures EndsWithDot(b) <==> b != "" && b[|b| - 1] == '.'
  {
    var s := a + "." + b;
    IndexOfIs(a, '.', -1);
    IndexOfIs(s, '.', |a|);
    assert s[..|a|] == a && s[|a| + 1..] == b;
    IndexOfIs("", '.', -1);
    assert Pieces(s) == [a] + Pieces(b) && Pieces("") == [""];
    assert |s| > 0;
  }

  // ---------------------------------------------------------------- the matcher

  /** What the matcher computes, with its branches in the order they are taken. */
  predicate Matches(pattern: string, key: string)
    decreases |pattern|, |key|, 0
  {
    if pattern == "" then key == ""
    else
      var i := IndexOf(pattern, SEPARATOR);
      var j := IndexOf(key, SEPARATOR);
      if i == -1 then
        if pattern == "*" then key != "" && j == -1
        else if pattern == "#" then j == -1 || (key[j + 1..] != "" && Matches(pattern, key[j + 1..]))
        else key == pattern
      else
        var part, rest := pattern[..i], pattern[i + 1..];
        if part == "*" then
          if j == -1 then key != "" && Matches(rest, "")
          else key[j + 1..] != "" && Matches(rest, key[j + 1..])
        else if part == "#" then
          MatchesSomeSuffix(rest, key)
        else if j == -1 then
          key == part && Matches(rest, "")
        else
          key[..j] == part && key[j + 1..] != "" && Matches(rest, key[j + 1..])
  }

  /** The `#` loop: `rest` is tried on the key and on each later non-empty word suffix of it. */
  predicate MatchesSomeSuffix(rest: string, key: string)
    decreases |rest|, |key|, 1
  {
    || Matches(rest, key)
    || var j := IndexOf(key, SEPARATOR);
       j != -1 && key[j + 1..] != "" && MatchesSomeSuffix(rest, key[j + 1..])
  }

  method RoutingKeyMatches(pattern: string, routingKey: string) returns (ret: bool)
    ensures ret <==> Matches(pattern, routingKey)
    decreases |pattern|, |routingKey|
  {
    if pattern == "" {
      return routingKey == "";
    }
    var i := IndexOf(pattern, SEPARATOR);
    var j := IndexOf(routingKey, SEPARATOR);
    if i == -1 {
      if pattern == "*" {
        return routingKey != "" && j == -1;
      } else if pattern == "#" {
        if j == -1 {
          return true;
        }
        if routingKey[j + 1..] == "" { // trailing dot
          return false;
        }
        ret := RoutingKeyMatches(pattern, routingKey[j + 1..]);
        return;
      }
      return routingKey == pattern;
    }
    var part, rest := pattern[..i], pattern[i + 1..];
    if part == "*" {
      if j == -1 {
        if routingKey == "" {
          return false;
        }
        ret := RoutingKeyMatches(rest, "");
        return;
      }
      if routingKey[j + 1..] == "" { // trailing dot
        return false;
      }
      ret := RoutingKeyMatches(rest, routingKey[j + 1..]);
    } else if part == "#" {
      var key := routingKey;
      while true
        invariant MatchesSomeSuffix(rest, routingKey) <==> MatchesSomeSuffix(rest, key)
        decreases |key|
      {
        ret := RoutingKeyMatches(rest, key);
        if ret {
          return;
        }
        j := IndexOf(key, SEPARATOR);
        if j == -1 {
          return false;
        }
        key := key[j + 1..];
        if key == "" { // trailing dot
          return false;
        }
      }
    } else {
      if j == -1 {
        if routingKey != part {
          return false;
        }
        ret := RoutingKeyMatches(rest, "");
        return;
      }
      if routingKey[..j] != part {
        return false;
      }
      if routingKey[j + 1..] == "" { // trailing dot
        return false;
      }
      ret := RoutingKeyMatches(rest, routingKey[j + 1..]);
    }
  }

  // ---------------------------------------------------------------- splitting

  /** Cutting off the first word of a key that has more words and no trailing dot. */
  lemma {:induction false} TailWords(key: string, j: int)
    requires !EndsWithDot(key) && j == IndexOf(key, SEPARATOR) != -1
    ensures key[j + 1..] != "" && !EndsWithDot(key[j + 1..])
    ensures |key[j + 1..]| < |key|
    ensures Words(key) == [key[..j]] + Words(key[j + 1..])
    ensures Words(key)[1..] == Words(key[j + 1..])
  {
    assert key[|key| - 1] != SEPARATOR;
    assert j != |key| - 1;
  }

  /** A pattern without a dangling empty word does not end in a dot, and neither do its suffixes. */
  lemma {:induction false} TailPattern(p: string, i: int)
    requires i == IndexOf(p, SEPARATOR) != -1
    requires !HasDanglingEmptyWord(Words(p))
    ensures p[i + 1..] != ""
    ensures Words(p) == [p[..i]] + Words(p[i + 1..])
    ensures Words(p)[1..] == Words(p[i + 1..])
    ensures !HasDanglingEmptyWord(Words(p[i + 1..]))
    ensures p[..i] == "" ==> !AllLoose(Words(p[i + 1..]))
  {
    assert Words(p)[1..] == Pieces(p[i + 1..]);
    assert HasDanglingEmptyWord([""]);
  }

  /** The words of a string determine it up to its separators: one word means no dot. */
  lemma {:induction false} SingleWord(k: string)
    requires !EndsWithDot(k)
    ensures |Words(k)| == 1 <==> k != "" && IndexOf(k, SEPARATOR) == -1
    ensures |Words(k)| == 1 ==> Words(k) == [k]
  {
    var j := IndexOf(k, SEPARATOR);
    if j != -1 {
      TailWords(k, j);
    }
  }

  // ---------------------------------------------------------------- correctness

  /** Only `#` words can match an exhausted key. */
  lemma {:induction false} MatchesNothingLeft(p: seq<string>)
    ensures WordsMatch(p, []) <==> AllHash(p)
    ensures AllHash(p) ==> AllLoose(p)
  {
    if p != [] {
      MatchesNothingLeft(p[1..]);
      var none: seq<string> := [];
      assert none[0..] == [];
    }
  }

  /** A rest that matches nothing left matches every key. */
  lemma {:induction false} AllHashMatchesAll(p: seq<string>, k: seq<string>)
    requires p != [] && AllHash(p)
    ensures WordsMatch(p, k)
  {
    if p[1..] == [] {
      assert WordsMatch(p[1..], k[|k|..]);
    } else {
      AllHashMatchesAll(p[1..], k);
      assert k[0..] == k;
    }
  }

  /** A key with a trailing dot matches no pattern at all. */
  lemma {:induction false} TrailingDotNeverMatches(pattern: string, key: string)
    requires EndsWithDot(key)
    ensures !Matches(pattern, key)
    decreases |pattern|, |key|, 0
  {
    var i := IndexOf(pattern, SEPARATOR);
    var j := IndexOf(key, SEPARATOR);
    assert SEPARATOR in key;
    var later := key[j + 1..];
    assert later != "" ==> EndsWithDot(later);
    if pattern != "" && later != "" {
      if i == -1 {
        TrailingDotNeverMatches(pattern, later);
      } else {
        TrailingDotNeverMatches(pattern[i + 1..], later);
      }
    }
    if i != -1 && pattern[..i] == "#" {
      TrailingDotNoSuffix(pattern[i + 1..], key);
    }
  }

  lemma {:induction false} TrailingDotNoSuffix(rest: string, key: string)
    requires EndsWithDot(key)
    ensures !MatchesSomeSuffix(rest, key)
    decreases |rest|, |key|, 1
  {
    TrailingDotNeverMatches(rest, key);
    var j := IndexOf(key, SEPARATOR);
    assert SEPARATOR in key;
    if key[j + 1..] != "" {
      TrailingDotNoSuffix(rest, key[j + 1..]);
    }
  }

  /** A pattern of one word. */
  lemma {:induction false} LastWordIsStandard(pattern: string, key: string)
    requires !EndsWithDot(key)
    requires pattern != "" && IndexOf(pattern, SEPARATOR) == -1
    ensures Matches(pattern, key) <==> WordsMatch(Words(pattern), Words(key))
    decreases |key|
  {
    assert Words(pattern) == [pattern] && Words(pattern)[1..] == [];
    if pattern == "#" {
      AllHashMatchesAll(Words(pattern), Words(key));
      var j := IndexOf(key, SEPARATOR);
      if j != -1 {
        TailWords(key, j);
        AllHashMatchesAll(Words(pattern), Words(key[j + 1..]));
        LastWordIsStandard(pattern, key[j + 1..]);
      }
    } else {
      SingleWord(key);
      var k := Words(key);
      assert WordsMatch([], k[if k == [] then 0 else 1..]) <==> |k| <= 1;
    }
  }

  /** A first pattern word that consumes exactly one key word, given the claim for what remains. */
  lemma {:induction false} FirstWordIsStandard(pattern: string, key: string, i: int, later: string)
    requires !EndsWithDot(key) && !HasDanglingEmptyWord(Words(pattern))
    requires i == IndexOf(pattern, SEPARATOR) != -1 && pattern[..i] != "#"
    requires var j := IndexOf(key, SEPARATOR); later == if j == -1 then "" else key[j + 1..]
    requires Matches(pattern[i + 1..], later) <==> WordsMatch(Words(pattern[i + 1..]), Words(later))
    ensures Matches(pattern, key) <==> WordsMatch(Words(pattern), Words(key))
  {
    var rest := pattern[i + 1..];
    TailPattern(pattern, i);
    var j := IndexOf(key, SEPARATOR);
    if j != -1 {
      TailWords(key, j);
    } else if key == "" {
      MatchesNothingLeft(Words(rest));
    } else {
      assert Words(key) == [key] && Words(key)[1..] == [];
    }
  }

  /** On keys without a trailing dot, a pattern without a dangling empty word means what the standard says. */
  lemma {:induction false} MatcherIsStandard(pattern: string, key: string)
    requires !EndsWithDot(key)
    requires !HasDanglingEmptyWord(Words(pattern))
    ensures Matches(pattern, key) <==> WordsMatch(Words(pattern), Words(key))
    decreases |pattern|, |key|, 0
  {
    var i := IndexOf(pattern, SEPARATOR);
    if pattern == "" {
    } else if i == -1 {
      LastWordIsStandard(pattern, key);
    } else {
      TailPattern(pattern, i);
      if pattern[..i] == "#" {
        SuffixLoopIsStandard(pattern[i + 1..], key);
        HashHead(Words(pattern), Words(key));
      } else {
        var j := IndexOf(key, SEPARATOR);
        var later := if j == -1 then "" else key[j + 1..];
        if j != -1 {
          TailWords(key, j);
        }
        MatcherIsStandard(pattern[i + 1..], later);
        FirstWordIsStandard(pattern, key, i, later);
      }
    }
  }

  /** `#` in front of a non-empty rest: trying only the non-empty suffixes loses nothing. */
  lemma {:induction false} HashHead(p: seq<string>, k: seq<string>)
    requires |p| >= 2 && p[0] == "#"
    ensures WordsMatch(p, k) <==> SomeSuffixMatches(p[1..], k)
  {
    if WordsMatch(p, k) {
      var i :| 0 <= i <= |k| && WordsMatch(p[1..], k[i..]);
      if i == |k| {
        MatchesNothingLeft(p[1..]);
        AllHashMatchesAll(p[1..], k);
        assert k[0..] == k;
      }
    }
  }

  /** The rest matches the key or one of its non-empty word suffixes. */
  ghost predicate SomeSuffixMatches(p: seq<string>, k: seq<string>) {
    exists i :: 0 <= i <= |k| && (i == 0 || i < |k|) && WordsMatch(p, k[i..])
  }

  lemma {:induction false} SuffixLoopIsStandard(rest: string, key: string)
    requires !EndsWithDot(key)
    requires !HasDanglingEmptyWord(Words(rest))
    ensures MatchesSomeSuffix(rest, key) <==> SomeSuffixMatches(Words(rest), Words(key))
    decreases |rest|, |key|, 1
  {
    MatcherIsStandard(rest, key);
    var k := Words(key);
    assert k[0..] == k;
    var j := IndexOf(key, SEPARATOR);
    if j == -1 {
      assert |k| <= 1;
    } else {
      TailWords(key, j);
      SuffixLoopIsStandard(rest, key[j + 1..]);
      var k' := Words(key[j + 1..]);
      if SomeSuffixMatches(Words(rest), k) && !WordsMatch(Words(rest), k) {
        var i :| 0 <= i <= |k| && (i == 0 || i < |k|) && WordsMatch(Words(rest), k[i..]);
        assert k[i..] == k'[i - 1..];
      }
      if SomeSuffixMatches(Words(rest), k') {
        var i :| 0 <= i <= |k'| && (i == 0 || i < |k'|) && WordsMatch(Words(rest), k'[i..]);
        assert k[i + 1..] == k'[i..];
      }
    }
  }

  // ---------------------------------------------------------------- the patterns that deviate

  function NonHashCount(ws: seq<string>): nat {
    if ws == [] then 0 else (if ws[0] == "#" then 0 else 1) + NonHashCount(ws[1..])
  }

  /** Every pattern word except `#` consumes a word of the key. */
  lemma {:induction false} EnoughWords(p: seq<string>, k: seq<string>)
    requires WordsMatch(p, k)
    ensures |k| >= NonHashCount(p)
  {
    if p != [] {
      if p[0] == "#" {
        var i :| 0 <= i <= |k| && WordsMatch(p[1..], k[i..]);
        EnoughWords(p[1..], k[i..]);
      } else {
        EnoughWords(p[1..], k[1..]);
      }
    }
  }

  /** A key the matcher accepts although the pattern asks for more words than it has. */
  function DeviatingKey(p: string): string
    decreases |p|
  {
    var i := IndexOf(p, SEPARATOR);
    if AllLoose(Pieces(p)) || i == -1 then ""
    else
      var later := DeviatingKey(p[i + 1..]);
      if p[..i] == "#" then later
      else
        var word := if p[..i] == "*" then "x" else p[..i];
        if later == "" then word else word + [SEPARATOR] + later
  }

  lemma {:induction false} LooseMatchesEmptyKey(p: string)
    requires AllLoose(Pieces(p))
    ensures Matches(p, "")
    decreases |p|
  {
    var i := IndexOf(p, SEPARATOR);
    if p != "" {
      if i == -1 {
        assert Pieces(p)[0] == p;
      } else {
        var rest := p[i + 1..];
        assert Pieces(p)[1..] == Pieces(rest);
        LooseMatchesEmptyKey(rest);
        assert Pieces(p)[0] == p[..i];
        assert MatchesSomeSuffix(rest, "");
      }
    }
  }

  lemma {:induction false} NonHashOfDangling(ws: seq<string>)
    requires HasDanglingEmptyWord(ws)
    ensures NonHashCount(ws) >= 1
  {
    if HasDanglingEmptyWord(ws[1..]) {
      NonHashOfDangling(ws[1..]);
    }
  }

  /** The first separator of `word + "." + later`, for a word without one. */
  lemma {:induction false} IndexOfJoined(word: string, later: string)
    requires SEPARATOR !in word
    ensures IndexOf(word + [SEPARATOR] + later, SEPARATOR) == |word|
  {
    var joined := word + [SEPARATOR] + later;
    assert joined[|word|] == SEPARATOR;
    assert forall i :: 0 <= i < |word| ==> joined[i] == word[i];
  }

  lemma {:induction false} DanglingTail(p: string, i: int)
    requires i == IndexOf(p, SEPARATOR) != -1
    requires HasDanglingEmptyWord(Pieces(p)) && !AllLoose(Pieces(p))
    ensures Pieces(p)[0] == p[..i] && Pieces(p)[1..] == Pieces(p[i + 1..])
    ensures HasDanglingEmptyWord(Pieces(p[i + 1..]))
    ensures AllLoose(Pieces(p[i + 1..])) ==> p[..i] != "" && p[..i] != "#"
  {
    assert Pieces(p)[1..] == Pieces(p[i + 1..]);
  }

  /** One step of the deviating key: a word in front of a key that already deviates. */
  lemma {:induction false} DeviatingStep(p: string, i: int, later: string)
    requires i == IndexOf(p, SEPARATOR) != -1 && p[..i] != "#"
    requires Matches(p[i + 1..], later) && !EndsWithDot(later)
    requires later == "" ==> p[..i] != ""
    ensures var word := if p[..i] == "*" then "x" else p[..i];
            var k := if later == "" then word else word + [SEPARATOR] + later;
            k != "" && !EndsWithDot(k) && Matches(p, k) && |Words(k)| == 1 + |Words(later)|
  {
    var word := if p[..i] == "*" then "x" else p[..i];
    assert SEPARATOR !in word;
    if later == "" {
      assert IndexOf(word, SEPARATOR) == -1;
    } else {
      var k := word + [SEPARATOR] + later;
      IndexOfJoined(word, later);
      assert k[|word| + 1..] == later && k[..|word|] == word;
      assert k[|k| - 1] == later[|later| - 1];
    }
  }

  lemma {:induction false} DeviatingKeyDeviates(p: string)
    requires HasDanglingEmptyWord(Pieces(p))
    ensures var k := DeviatingKey(p);
            && !EndsWithDot(k)
            && (k == "" <==> AllLoose(Pieces(p)))
            && Matches(p, k)
            && |Words(k)| < NonHashCount(Pieces(p))
    decreases |p|
  {
    var i := IndexOf(p, SEPARATOR);
    if AllLoose(Pieces(p)) {
      LooseMatchesEmptyKey(p);
      NonHashOfDangling(Pieces(p));
    } else {
      assert i == -1 ==> Pieces(p) == [p];
      DanglingTail(p, i);
      DeviatingKeyDeviates(p[i + 1..]);
      var later := DeviatingKey(p[i + 1..]);
      if p[..i] == "#" {
        assert MatchesSomeSuffix(p[i + 1..], later);
      } else {
        DeviatingStep(p, i, later);
      }
    }
  }

  /** The matcher agrees with the standard on every key exactly for patterns without a dangling empty word. */
  lemma {:induction false} MatcherExact(pattern: string)
    ensures (forall key: string ::
              Matches(pattern, key) <==> !EndsWithDot(key) && WordsMatch(Words(pattern), Words(key)))
            <==> !HasDanglingEmptyWord(Words(pattern))
  {
    if HasDanglingEmptyWord(Words(pattern)) {
      DeviatingKeyDeviates(pattern);
      var k := DeviatingKey(pattern);
      if WordsMatch(Words(pattern), Words(k)) {
        EnoughWords(Words(pattern), Words(k));
      }
      assert Matches(pattern, k) && !WordsMatch(Words(pattern), Words(k));
    } else {
      forall key: string
        ensures Matches(pattern, key) <==> !EndsWithDot(key) && WordsMatch(Words(pattern), Words(key))
      {
        if EndsWithDot(key) {
          TrailingDotNeverMatches(pattern, key);
        } else {
          MatcherIsStandard(pattern, key);
        }
      }
    }
  }

  /** The pattern "." accepts the empty key, which has no word for it to match. */
  lemma {:induction false} DotAcceptsEmptyKey()
    ensures Matches(".", "") && !WordsMatch(Words("."), Words(""))
  {
    var p := ".";
    assert IndexOf(p, SEPARATOR) == 0;
    assert p[..0] == "" && p[1..] == "";
    assert Words(p)[0] == "";
  }

  // ---------------------------------------------------------------- the binding filter

  datatype ExchangeType = Direct | Fanout | Topic | Headers | Unknown(name: string)

  datatype Criterion<V> =
    | Nothing
    | RoutingKey(key: string)
    | HeadersAll(all: map<string, V>)
    | HeadersAny(any: map<string, V>)

  datatype Binding<V> = Binding(topicName: string, exchangeType: ExchangeType, criterion: Criterion<V>)

  datatype Verdict = Accepted | Rejected | Panicked

  /** Whether one binding of the message's topic selects it. */
  ghost predicate Selects<V>(b: Binding<V>, key: string, headers: Option<map<string, V>>) {
    match b.exchangeType
    case Direct => b.criterion.RoutingKey? && b.criterion.key == key
    case Fanout => true
    case Topic => b.criterion.RoutingKey? && Matches(b.criterion.key, key)
    case Headers =>
      && headers.Some?
      && (match b.criterion
          case HeadersAll(all) => forall h :: h in all ==> h in headers.value && headers.value[h] == all[h]
          case HeadersAny(any) => exists h :: h in any && h in headers.value && headers.value[h] == any[h]
          case _ => false)
    case Unknown(_) => false
  }

  ghost predicate SelectsAt<V>(bs: seq<Binding<V>>, i: nat, topic: string, key: string, headers: Option<map<string, V>>)
  {
    i < |bs| && bs[i].topicName == topic && Selects(bs[i], key, headers)
  }

  ghost predicate UnhandledAt<V>(bs: seq<Binding<V>>, i: nat, topic: string) {
    i < |bs| && bs[i].topicName == topic && bs[i].exchangeType.Unknown?
  }

  method HasAllHeaders<V(==)>(expected: map<string, V>, got: map<string, V>) returns (ok: bool)
    ensures ok <==> forall h :: h in expected ==> h in got && got[h] == expected[h]
  {
    var todo := expected.Keys;
    while todo != {}
      invariant todo <= expected.Keys
      invariant forall h :: h in expected && h !in todo ==> h in got && got[h] == expected[h]
      decreases |todo|
    {
      var name :| name in todo;
      if name !in got || expected[name] != got[name] {
        return false;
      }
      todo := todo - {name};
    }
    return true;
  }

  method HasAnyHeader<V(==)>(expected: map<string, V>, got: map<string, V>) returns (ok: bool)
    ensures ok <==> exists h :: h in expected && h in got && got[h] == expected[h]
  {
    var todo := expected.Keys;
    while todo != {}
      invariant todo <= expected.Keys
      invariant forall h :: h in expected && h !in todo ==> !(h in got && got[h] == expected[h])
      decreases |todo|
    {
      var name :| name in todo;
      if name in got && expected[name] == got[name] {
        return true;
      }
      todo := todo - {name};
    }
    return false;
  }

  /** Accepts a message that is not too old as soon as a binding of its topic selects it; an
      unhandled exchange type panics, but only when no earlier binding has selected the message. */
  method MessageMatches<V(==)>(key: string, headers: Option<map<string, V>>, messageTime: int,
                               topic: string, since: int, bindings: seq<Binding<V>>)
    returns (verdict: Verdict)
    ensures messageTime < since ==> verdict == Rejected
    ensures messageTime >= since ==>
      (verdict == Accepted <==>
       exists i: nat :: SelectsAt(bindings, i, topic, key, headers) &&
                        forall k: nat :: k < i ==> !UnhandledAt(bindings, k, topic))
    ensures messageTime >= since ==>
      (verdict == Panicked <==>
       exists i: nat :: UnhandledAt(bindings, i, topic) &&
                        forall k: nat :: k < i ==> !SelectsAt(bindings, k, topic, key, headers))
  {
    if messageTime < since {
      return Rejected;
    }
    for i := 0 to |bindings|
      invariant forall k: nat :: k < i ==>
        !SelectsAt(bindings, k, topic, key, headers) && !UnhandledAt(bindings, k, topic)
    {
      var binding := bindings[i];
      if binding.topicName == topic {
        var selected := false;
        match binding.exchangeType {
          case Direct =>
            selected := binding.criterion.RoutingKey? && binding.criterion.key == key;
          case Fanout =>
            selected := true;
          case Topic =>
            if binding.criterion.RoutingKey? {
              selected := RoutingKeyMatches(binding.criterion.key, key);
            }
          case Headers =>
            if headers.Some? {
              if binding.criterion.HeadersAll? {
                selected := HasAllHeaders(binding.criterion.all, headers.value);
              } else if binding.criterion.HeadersAny? {
                selected := HasAnyHeader(binding.criterion.any, headers.value);
              }
            }
          case Unknown(_) =>
            assert UnhandledAt(bindings, i, topic);
            return Panicked;
        }
        assert selected <==> SelectsAt(bindings, i, topic, key, headers);
        if selected {
          return Accepted;
        }
      }
    }
    return Rejected;
  }
}
