/** The backtracking search of server.c that decides whether a topic is delivered to a subscriber. */
module Subscription {
  import opened Alphabet
  import opened Astray
  import opened Levels
  import opened Matching
  import opened SearchRule
  import opened TriePaths
  import opened Trie

  /** The node stands for the string q, and every key that goes on from q does so below it. */
  ghost predicate StandsFor<V>(trie: Trie<V>, node: TrieNode<V>, q: string)
    reads trie
  {
    && Over(q, trie.alphabet)
    && Walk(trie.alphabet, Root, q) in trie.nodes
    && trie.nodes[Walk(trie.alphabet, Root, q)] == node
  }

  lemma RootStands<V>(trie: Trie<V>)
    requires trie.Valid()
    ensures StandsFor(trie, trie.root, "")
  {
    WalkEmpty(trie.alphabet, Root, "");
  }

  lemma EndOfKey<V>(trie: Trie<V>, node: TrieNode<V>, q: string)
    requires trie.Valid() && StandsFor(trie, node, q)
    ensures node.endOfWord <==> q in trie.entries
  {
    hide *;
    StandsParts(trie, node, q);
    trie.ValidParts();
    trie.EndFlag(Walk(trie.alphabet, Root, q));
    SpelledAt(trie.alphabet, trie.words, trie.entries, q);
  }

  lemma StandsParts<V>(trie: Trie<V>, node: TrieNode<V>, q: string)
    requires StandsFor(trie, node, q)
    ensures Over(q, trie.alphabet) && Walk(trie.alphabet, Root, q) in trie.nodes
    ensures trie.nodes[Walk(trie.alphabet, Root, q)] == node
  {
  }

  lemma StandsIntro<V>(trie: Trie<V>, node: TrieNode<V>, q: string)
    requires Over(q, trie.alphabet) && Walk(trie.alphabet, Root, q) in trie.nodes
    requires trie.nodes[Walk(trie.alphabet, Root, q)] == node
    ensures StandsFor(trie, node, q)
  {
  }

  lemma WalkOne(alphabet: string, q: string, c: char)
    requires Over(q, alphabet) && c in alphabet
    ensures Over(q + [c], alphabet)
    ensures Walk(alphabet, Root, q + [c]) == Step(Walk(alphabet, Root, q), Position(alphabet, c))
  {
    WalkConcat(alphabet, Root, q, [c]);
    WalkStep(alphabet, Walk(alphabet, Root, q), [c]);
    WalkEmpty(alphabet, Step(Walk(alphabet, Root, q), Position(alphabet, c)), [c][1..]);
  }

  /** What a child slot tells about the stored keys. */
  lemma SlotTells<V>(trie: Trie<V>, node: TrieNode<V>, q: string, c: char)
    requires trie.Valid() && StandsFor(trie, node, q) && c in trie.alphabet
    ensures Position(trie.alphabet, c) < node.children.Length
    ensures var child := node.children[Position(trie.alphabet, c)];
            if child == null then NoneBelow(trie.entries.Keys, q + [c]) else StandsFor(trie, child, q + [c])
  {
    hide *;
    var i := Position(trie.alphabet, c);
    StandsParts(trie, node, q);
    trie.ValidParts();
    trie.ChildInSlot(Walk(trie.alphabet, Root, q), i);
    WalkOne(trie.alphabet, q, c);
    if node.children[i] == null {
      trie.NodesArePrefixes(q + [c]);
      NoneBelowIntro(trie.entries.Keys, q + [c]);
    } else {
      StandsIntro(trie, node.children[i], q + [c]);
    }
  }

  lemma NoneBelowIntro(keys: set<string>, q: string)
    requires !Reached(keys, q)
    ensures NoneBelow(keys, q)
  {
  }

  lemma NodeReached<V>(trie: Trie<V>, node: TrieNode<V>, q: string)
    requires trie.Valid() && StandsFor(trie, node, q)
    ensures Reached(trie.entries.Keys, q)
  {
    hide *;
    StandsParts(trie, node, q);
    trie.NodesArePrefixes(q);
  }

  /** The inner loops of is_subscribed: from a position to the next slash or the end of the string. */
  method SkipToBoundary(t: string, start: nat) returns (pos: nat)
    requires start <= |t|
    ensures start <= pos <= |t| && '/' !in t[start..pos] && (pos < |t| ==> t[pos] == '/')
  {
    pos := start;
    while pos < |t| && t[pos] != '/'
      invariant start <= pos <= |t| && '/' !in t[start..pos]
    {
      assert t[start..pos + 1] == t[start..pos] + [t[pos]];
      pos := pos + 1;
    }
  }

  /** The last loop of is_subscribed: follows the characters of the topic's first level. It goes astray at a
      character outside the alphabet. */
  method FollowLevel<V>(ghost trie: Trie<V>, node: TrieNode<V>, ghost path: string, t: string)
    returns (topics: TrieNode?<V>, rest: string, astray: bool)
    requires trie.Valid() && trie.alphabet == TOPIC_ALPHABET && StandsFor(trie, node, path)
    ensures astray <==> LevelStrays(trie.entries.Keys, TOPIC_ALPHABET, path, t[..LevelEnd(t)])
    ensures !astray && topics == null ==>
              NoneBelow(trie.entries.Keys, path + t[..LevelEnd(t)]) && path + t[..LevelEnd(t)] != ""
    ensures !astray && topics != null ==>
              && rest == t[LevelEnd(t)..] && StandsFor(trie, topics, path + t[..LevelEnd(t)])
              && Over(t[..LevelEnd(t)], TOPIC_ALPHABET)
  {
    hide *;
    var current: TrieNode<V> := node;
    rest := t;
    ghost var m := 0;
    assert path + t[..0] == path;
    NothingOver(t);
    while |rest| > 0 && rest[0] != '/'
      invariant m <= |t| && rest == t[m..] && '/' !in t[..m] && Over(t[..m], TOPIC_ALPHABET)
      invariant StandsFor(trie, current, path + t[..m])
      decreases |rest|
    {
      var idx := GetIndexFromAlphabet(TOPIC_ALPHABET, rest[0]);
      LevelGoesOn(t, m, path);
      if idx == -1 {
        NodeReached(trie, current, path + t[..m]);
        StraysHere(trie.entries.Keys, TOPIC_ALPHABET, path, t, m);
        return null, rest, true;
      }
      SlotTells(trie, current, path + t[..m], rest[0]);
      OverOneMore(t, m, TOPIC_ALPHABET);
      var next := current.children[idx];
      if next == null {
        StaysWithin(trie.entries.Keys, TOPIC_ALPHABET, path, t, m);
        return null, rest, false;
      }
      current := next;
      rest := rest[1..];
      m := m + 1;
    }
    FirstLevel(t, m);
    AllWithin(trie.entries.Keys, TOPIC_ALPHABET, path, t[..LevelEnd(t)]);
    return current, rest, false;
  }

  lemma NothingOver(t: string)
    ensures Over(t[..0], TOPIC_ALPHABET)
  {
  }

  lemma OverOneMore(t: string, m: nat, alphabet: string)
    requires m < |t| && Over(t[..m], alphabet) && t[m] in alphabet
    ensures Over(t[..m + 1], alphabet)
  {
    assert t[..m + 1] == t[..m] + [t[m]];
  }

  lemma StraysHere(keys: set<string>, alphabet: string, path: string, t: string, m: nat)
    requires m < LevelEnd(t) && t[m] !in alphabet && Over(t[..m], alphabet) && Reached(keys, path + t[..m])
    ensures LevelStrays(keys, alphabet, path, t[..LevelEnd(t)])
  {
    hide Over, Reached, LevelEnd;
    assert t[..LevelEnd(t)][m] == t[m] && t[..LevelEnd(t)][..m] == t[..m];
  }

  /** No key goes on with the character at m, so the walk ends there, before any other character. */
  lemma StaysWithin(keys: set<string>, alphabet: string, path: string, t: string, m: nat)
    requires m < LevelEnd(t) && Over(t[..m + 1], alphabet) && NoneBelow(keys, path + t[..m + 1])
    ensures !LevelStrays(keys, alphabet, path, t[..LevelEnd(t)])
    ensures NoneBelow(keys, path + t[..LevelEnd(t)]) && path + t[..LevelEnd(t)] != ""
  {
    hide LevelEnd, NoneBelow, Reached;
    var level := t[..LevelEnd(t)];
    forall i | 0 <= i <= |level| ensures i <= m ==> level[i] in alphabet
      ensures i > m ==> NoneBelow(keys, path + level[..i]) && !Reached(keys, path + level[..i])
    {
      if i <= m {
        assert level[i] == t[..m + 1][i];
      } else {
        assert path + level[..i] == path + t[..m + 1] + level[m + 1..i];
        NotReached(keys, path + t[..m + 1], level[m + 1..i]);
      }
    }
    assert level[..|level|] == level;
  }

  lemma AllWithin(keys: set<string>, alphabet: string, path: string, level: string)
    requires Over(level, alphabet)
    ensures !LevelStrays(keys, alphabet, path, level)
  {
  }

  lemma {:induction false} LevelEndBeyond(t: string, m: nat)
    requires m < |t| && '/' !in t[..m] && t[m] != '/'
    ensures m < LevelEnd(t)
    decreases m
  {
    if m > 0 {
      assert t[0] == t[..m][0];
      assert t[1..][..m - 1] == t[..m][1..];
      LevelEndBeyond(t[1..], m - 1);
    }
  }

  lemma OneMoreChar(t: string, m: nat)
    requires m < |t|
    ensures t[..m + 1] == t[..m] + [t[m]] && t[m + 1..] == t[m..][1..] && t[m] == t[m..][0]
  {
  }

  lemma Shifted(path: string, a: string, b: string)
    requires a <= b
    ensures path + a <= path + b
  {
  }

  lemma LevelGoesOn(t: string, m: nat, path: string)
    requires m < |t| && '/' !in t[..m] && t[m] != '/'
    ensures path + t[..m] + [t[m]] == path + t[..m + 1]
    ensures '/' !in t[..m + 1] && t[m + 1..] == t[m..][1..] && t[m] == t[m..][0]
    ensures path + t[..m + 1] <= path + t[..LevelEnd(t)] && m < LevelEnd(t)
  {
    LevelEndBeyond(t, m);
    OneMoreChar(t, m);
    Shifted(path, t[..m + 1], t[..LevelEnd(t)]);
    hide *;
    assert path + t[..m] + [t[m]] == path + (t[..m] + [t[m]]);
  }

  /** is_subscribed. The first call is on the root with the whole topic; every later call is on the rest
      of the topic behind some of its levels. The loop over the lengths of `*` is in TryStar. The search
      goes astray where it reads the slot -1; there is no telling what it answers then. */
  method IsSubscribed<V>(ghost trie: Trie<V>, node: TrieNode<V>, ghost q: string, topic: string, ghost first: bool)
    returns (answer: Answer)
    requires trie.Valid() && trie.alphabet == TOPIC_ALPHABET && StandsFor(trie, node, q)
    requires first || AtBoundary(topic)
    ensures answer == Astray <==> Strays(trie.entries.Keys, TOPIC_ALPHABET, q, topic)
    ensures answer != Astray ==> (answer == Yes <==> SomeCall(trie.entries.Keys, q, topic, first))
    decreases |topic|, 1
  {
    hide *;
    WildcardLetters();
    ghost var keys := trie.entries.Keys;
    var topics, t, idx := node, topic, 0;
    ghost var path := q;
    StraysUnfold(keys, TOPIC_ALPHABET, q, topic);

    // The end of the topic.
    if |topic| == 0 {
      EndOfKey(trie, node, q);
      SomeCallOnEmpty(keys, q, topic, first);
      return if node.endOfWord then Yes else No;
    }

    // Go over the slash.
    if topic[0] == '/' {
      t := topic[1..];
      idx := GetIndexFromAlphabet(TOPIC_ALPHABET, '/');
      SlotTells(trie, topics, q, '/');
      SomeCallOnSlash(keys, q, topic, first);
      if topics.children[idx] != null {
        topics := topics.children[idx];
        path := q + "/";
      } else {
        NoneBelowNothing(keys, q + "/", t, false);
        NoneOnward(keys, TOPIC_ALPHABET, q + "/", t);
        return No;
      }
    } else {
      BoundaryCases(topic);
      SomeCallOnLevel(keys, q, topic);
    }
    SomeLevelsUnfold(keys, path, t, LevelEnd(t));
    OnwardParts(keys, TOPIC_ALPHABET, path, t, LevelEnd(t));

    // The + wildcard.
    idx := GetIndexFromAlphabet(TOPIC_ALPHABET, '+');
    SlotTells(trie, topics, path, '+');
    if topics.children[idx] != null {
      var pos := SkipToBoundary(t, 0);
      FirstLevel(t, pos);
      answer := IsSubscribed(trie, topics.children[idx], path + "+", t[pos..], false);
      if answer != No {
        return;
      }
    } else {
      NoneBelowNothing(keys, path + "+", t[LevelEnd(t)..], false);
      NowhereToStray(keys, TOPIC_ALPHABET, path + "+", t[LevelEnd(t)..]);
    }

    // The * wildcard.
    idx := GetIndexFromAlphabet(TOPIC_ALPHABET, '*');
    SlotTells(trie, topics, path, '*');
    if topics.children[idx] != null {
      answer := TryStar(trie, topics.children[idx], path, t);
      if answer != No {
        return;
      }
    } else {
      NoStarBelow(keys, path, t);
      NoStarToStray(keys, TOPIC_ALPHABET, path, t);
    }

    // No wildcard.
    var below, rest, astray := FollowLevel(trie, topics, path, t);
    if astray {
      return Astray;
    }
    if below == null {
      NoneBelowNothing(keys, path + t[..LevelEnd(t)], t[LevelEnd(t)..], false);
      NowhereToStray(keys, TOPIC_ALPHABET, path + t[..LevelEnd(t)], t[LevelEnd(t)..]);
      return No;
    }
    BoundaryAtEnd(t);
    answer := IsSubscribed(trie, below, path + t[..LevelEnd(t)], rest, false);
  }

  /** The loop of is_subscribed over the number of levels a `*` takes; `star` is the child for `*`. */
  method TryStar<V>(ghost trie: Trie<V>, star: TrieNode<V>, ghost path: string, t: string) returns (answer: Answer)
    requires trie.Valid() && trie.alphabet == TOPIC_ALPHABET && StandsFor(trie, star, path + "*")
    ensures answer == Astray <==> StarStrays(trie.entries.Keys, TOPIC_ALPHABET, path, t, |Split(t)| + 1)
    ensures answer != Astray ==> (answer == Yes <==> SomeStar(trie.entries.Keys, path, t, |Split(t)| + 1))
    decreases |t|, 0
  {
    hide *;
    ghost var keys := trie.entries.Keys;
    var pos := 0;
    ghost var k := if AtBoundary(t) then 1 else 0;
    StarStart(keys, path, t, k);
    StarStraysMore(keys, TOPIC_ALPHABET, path, t, k + 1);
    while pos < |t|
      invariant pos <= |t| && StarAt(t, pos, k)
      invariant StarMin(Split(t)) <= k + 1 <= |Split(t)| + 1 && !SomeStar(keys, path, t, k + 1)
      invariant !StarStrays(keys, TOPIC_ALPHABET, path, t, k + 1)
      decreases |t| - pos
    {
      ghost var was := pos;
      if t[pos] == '/' {
        pos := pos + 1;
      }
      ghost var start := pos;
      pos := SkipToBoundary(t, pos);
      StarMoves(t, was, k, start, pos);
      k := k + 1;
      StarRest(t, pos, k);
      StarStraysNext(keys, TOPIC_ALPHABET, path, t, k - 1);
      StarStraysMore(keys, TOPIC_ALPHABET, path, t, k + 1);
      SomeStarStep(keys, path, t, k - 1);
      answer := IsSubscribed(trie, star, path + "*", t[pos..], false);
      if answer == Yes {
        SomeStarFound(keys, path, t, k);
      }
      if answer != No {
        return;
      }
    }
    StarEnds(t, k);
    return No;
  }

  lemma WildcardLetters()
    ensures '/' in TOPIC_ALPHABET && '+' in TOPIC_ALPHABET && '*' in TOPIC_ALPHABET
  {
    TopicAlphabetHasWildcards();
  }

  lemma BoundaryAtEnd(t: string)
    ensures AtBoundary(t[LevelEnd(t)..])
    ensures t != "" && t[0] != '/' ==> LevelEnd(t) > 0
  {
  }
}
