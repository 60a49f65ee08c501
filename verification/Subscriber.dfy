/** The record the server keeps of a subscriber. */
module Subscriber {
  import opened Alphabet
  import opened Hashing
  import opened Options
  import opened Trie
  import opened TriePaths

  /** sub_t: the id, the socket (-1 while disconnected) and the trie of subscriptions, which
      a record gets when it is added to the server. */
  class Sub {
    const id: CString
    var sockFd: int
    var subscriptions: Trie?<char>

    constructor (id: CString, sockFd: int)
      ensures this.id == id && this.sockFd == sockFd && subscriptions == null
    {
      this.id := id;
      this.sockFd := sockFd;
      subscriptions := null;
    }

    /** The objects of the record. */
    ghost function Footprint(): set<object>
      reads this, subscriptions
    {
      {this} + if subscriptions != null then {subscriptions} + subscriptions.Repr else {}
    }

    ghost function View(): SubView
      reads this, subscriptions, if subscriptions != null then subscriptions.Repr else {}
    {
      SubView(id, sockFd, subscriptions, Footprint(),
              subscriptions != null && this !in subscriptions.Repr
              && subscriptions.Valid() && subscriptions.alphabet == TOPIC_ALPHABET,
              if subscriptions != null then subscriptions.entries.Keys else {},
              if subscriptions != null then subscriptions.size else 0)
    }

    lemma ViewIs()
      ensures View().id == id && View().sockFd == sockFd && View().trie == subscriptions
      ensures View().foot == Footprint() && this in Footprint()
      ensures View().valid ==>
                subscriptions != null && subscriptions.Valid() && subscriptions.alphabet == TOPIC_ALPHABET
      ensures View().valid ==> subscriptions in subscriptions.Repr && this !in subscriptions.Repr
      ensures View().valid ==> View().keys == subscriptions.entries.Keys && View().foot == {this} + subscriptions.Repr
      ensures View().valid ==> View().size == subscriptions.size
      ensures (subscriptions != null && this !in subscriptions.Repr && subscriptions.Valid()
               && subscriptions.alphabet == TOPIC_ALPHABET) ==> View().valid
    {
    }

    /** The empty trie a record gets when it joins the server. */
    method CreateSubscriptions()
      modifies this`subscriptions
      ensures View().valid && View().keys == {} && View().size == 0 && View().id == id && View().sockFd == sockFd
      ensures subscriptions != null && View().foot == {this} + subscriptions.Repr && fresh(subscriptions.Repr)
    {
      subscriptions := new Trie<char>(TOPIC_ALPHABET);
      ViewIs();
    }

    /** rmv_subscription: removes the topic if it is stored. */
    method RemoveSubscription(topic: string)
      requires View().valid && subscriptions != null && !GoesAstray(View().keys, TOPIC_ALPHABET, topic)
      modifies subscriptions.Repr
      ensures View() == old(View()).(keys := old(View()).keys - {topic},
                                     size := old(View()).size - if topic in old(View()).keys then 1 else 0)
      ensures subscriptions == old(subscriptions) && subscriptions.Repr == old(subscriptions.Repr)
    {
      hide *;
      ViewIs();
      var found, astray := subscriptions.Search(topic);
      if found != None {
        subscriptions.Remove(topic);
      }
      ViewIs();
      assert old(View()).keys - {topic} == View().keys;
      SameView(View(), old(View()).(keys := old(View()).keys - {topic},
                                    size := old(View()).size - if topic in old(View()).keys then 1 else 0));
    }

    /** add_subscription: inserts the topic whether or not it is stored. A topic outside the alphabet ends
        the program. */
    method AddSubscription(topic: string) returns (ok: bool)
      requires View().valid && subscriptions != null
      modifies subscriptions.Repr
      ensures ok <==> Over(topic, TOPIC_ALPHABET)
      ensures ok ==> fresh(View().foot - old(View().foot)) && old(View().foot) <= View().foot
      ensures ok ==> subscriptions == old(subscriptions) && fresh(subscriptions.Repr - old(subscriptions.Repr))
      ensures ok ==> View() == old(View()).(keys := old(View()).keys + {topic}, size := old(View()).size + 1,
                                            foot := View().foot)
      ensures ok ==> subscriptions.entries == old(subscriptions.entries)[topic := 'T']
    {
      hide TOPIC_ALPHABET, View, Footprint, Trie.Valid, Over;
      ViewIs();
      ok := subscriptions.Insert(topic, TOPIC_VALUE);
      if ok {
        ViewIs();
        assert View().keys == old(View()).keys + {topic};
        SameView(View(), old(View()).(keys := old(View()).keys + {topic}, size := old(View()).size + 1,
                                      foot := View().foot));
      }
    }
  }

  /** A record as a value. */
  datatype SubView = SubView(
    id: CString, sockFd: int, trie: Trie?<char>, foot: set<object>, valid: bool, keys: set<string>, size: int)

  lemma SameView(a: SubView, b: SubView)
    requires a.id == b.id && a.sockFd == b.sockFd && a.trie == b.trie && a.foot == b.foot && a.valid == b.valid
    requires a.keys == b.keys && a.size == b.size
    ensures a == b
  {
  }
}
