/** What subscribing and unsubscribing change about the topics a subscriber is sent. */
module PatternLaws {
  import opened Alphabet
  import opened Astray
  import opened Matching
  import opened SearchRule
  import opened Subscriber
  import opened Subscription
  import opened TriePaths

  /** The search in a subscriber's trie, from the root. */
  method Asked(sub: Sub, topic: string) returns (answer: Answer)
    requires sub.View().valid
    ensures answer == Astray <==> Strays(sub.View().keys, TOPIC_ALPHABET, "", topic)
    ensures answer != Astray ==> (answer == Yes <==> Wants(sub.View().keys, topic))
  {
    hide *;
    sub.ViewIs();
    RootStands(sub.subscriptions);
    RootCall(sub.View().keys, topic);
    answer := IsSubscribed(sub.subscriptions, sub.subscriptions.root, "", topic, true);
  }

  /** Searching, unsubscribing and searching again: no topic is gained, and a topic is lost exactly if the
      pattern was there and took it, and no other pattern does. */
  method AskAroundRemoval(sub: Sub, pattern: string, topic: string) returns (before: Answer, after: Answer)
    requires sub.View().valid && sub.subscriptions != null && !GoesAstray(sub.View().keys, TOPIC_ALPHABET, pattern)
    modifies sub.subscriptions.Repr
    ensures Over(topic, TOPIC_ALPHABET) ==> before != Astray && after != Astray
    ensures before != Astray && after == Yes ==> before == Yes
    ensures before != Astray && after != Astray ==>
              (before == Yes && after == No <==>
                 && pattern in old(sub.View()).keys && Delivers(pattern, topic)
                 && forall w | w in old(sub.View()).keys && w != pattern :: !Delivers(w, topic))
  {
    hide *;
    ghost var keys := sub.View().keys;
    NeitherStrays(keys, keys - {pattern}, topic);
    OnePatternMoreOrLess(keys, pattern, topic);
    OnePatternMoreOrLess(keys - {pattern}, pattern, topic);
    before := Asked(sub, topic);
    sub.RemoveSubscription(pattern);
    after := Asked(sub, topic);
    PutBack(keys, pattern);
  }

  /** Searching, subscribing and searching again: no topic is lost, and one is gained exactly if the pattern takes it
      and no other did. */
  method AskAroundInsertion(sub: Sub, pattern: string, topic: string) returns (before: Answer, after: Answer, ok: bool)
    requires sub.View().valid && sub.subscriptions != null
    modifies sub.subscriptions.Repr
    ensures ok <==> Over(pattern, TOPIC_ALPHABET)
    ensures ok && Over(topic, TOPIC_ALPHABET) ==> before != Astray && after != Astray
    ensures ok && before == Yes ==> after != No
    ensures ok && before != Astray && after != Astray ==>
              (before == No && after == Yes <==>
                 Delivers(pattern, topic) && forall w | w in old(sub.View()).keys :: !Delivers(w, topic))
  {
    hide *;
    ghost var keys := sub.View().keys;
    NeitherStrays(keys, keys + {pattern}, topic);
    OnePatternMoreOrLess(keys, pattern, topic);
    NotWanted(keys, topic);
    before := Asked(sub, topic);
    ok := sub.AddSubscription(pattern);
    after := No;
    if ok {
      after := Asked(sub, topic);
    }
  }

  lemma NeitherStrays(a: set<string>, b: set<string>, topic: string)
    ensures Over(topic, TOPIC_ALPHABET) ==>
              !Strays(a, TOPIC_ALPHABET, "", topic) && !Strays(b, TOPIC_ALPHABET, "", topic)
  {
    hide *;
    if Over(topic, TOPIC_ALPHABET) {
      OverNeverStrays(a, TOPIC_ALPHABET, "", topic);
      OverNeverStrays(b, TOPIC_ALPHABET, "", topic);
    }
  }

  lemma PutBack(keys: set<string>, pattern: string)
    ensures keys - {pattern} + {pattern} == keys || keys - {pattern} == keys
  {
  }

  lemma NotWanted(keys: set<string>, topic: string)
    ensures Wants(keys, topic) == !forall w | w in keys :: !Delivers(w, topic)
  {
  }
}
