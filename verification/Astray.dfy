/** When the subscription search goes astray: it looks up a character outside the alphabet, for which
    there is no slot, and reads the slot -1. */
module Astray {
  import opened Alphabet
  import opened Levels
  import opened Matching
  import opened SearchRule
  import opened TriePaths

  datatype Answer = Yes | No | Astray

  /** The literal walk over a level comes to a character outside the alphabet while there still are nodes. */
  ghost predicate LevelStrays(keys: set<string>, alphabet: string, path: string, level: string) {
    exists m | 0 <= m < |level| ::
      level[m] !in alphabet && Over(level[..m], alphabet) && Reached(keys, path + level[..m])
  }

  /** The search for the rest t of a topic goes astray below a path. */
  ghost predicate Strays(keys: set<string>, alphabet: string, path: string, t: string)
    decreases Rank(t), 0
  {
    t != "" && OnwardStrays(keys, alphabet, if t[0] == '/' then path + "/" else path, Behind(t))
  }

  /** The ways on, once the slash is behind: a `+`, a `*`, the literal walk. Each is tried as long as none of
      those before it finds a pattern. */
  ghost predicate OnwardStrays(keys: set<string>, alphabet: string, path: string, t: string)
    decreases 2 * |t| + 1, 1
  {
    RestsRankLower(t);
    || Strays(keys, alphabet, path + "+", t[LevelEnd(t)..])
    || (!SomeCall(keys, path + "+", t[LevelEnd(t)..], false) &&
        (|| StarStrays(keys, alphabet, path, t, |Split(t)| + 1)
         || (!SomeStar(keys, path, t, |Split(t)| + 1) && LiteralStrays(keys, alphabet, path, t))))
  }

  /** ... behind a star that takes fewer than `to` levels, when no star that takes fewer finds a pattern. */
  ghost predicate StarStrays(keys: set<string>, alphabet: string, path: string, t: string, to: nat)
    requires to <= |Split(t)| + 1
    decreases 2 * |t| + 1, 0
  {
    RestsRankLower(t);
    exists k | StarMin(Split(t)) <= k < to ::
      Strays(keys, alphabet, path + "*", After(t, k)) && !SomeStar(keys, path, t, k)
  }

  /** ... in the literal walk over the first level or behind it. */
  ghost predicate LiteralStrays(keys: set<string>, alphabet: string, path: string, t: string)
    decreases 2 * |t| + 1, 0
  {
    RestsRankLower(t);
    || LevelStrays(keys, alphabet, path, t[..LevelEnd(t)])
    || (Over(t[..LevelEnd(t)], alphabet) && Strays(keys, alphabet, path + t[..LevelEnd(t)], t[LevelEnd(t)..]))
  }

  /** Orders the rests of a topic by the work left: at a slash there is less than at any other character. */
  function Rank(t: string): nat {
    if t == "" then 0 else if t[0] == '/' then 2 * |t| else 2 * |t| + 2
  }

  lemma RestsRankLower(t: string)
    ensures Rank(t[LevelEnd(t)..]) <= 2 * |t|
    ensures forall k: nat :: Rank(After(t, k)) <= 2 * |t|
  {
    forall k: nat ensures Rank(After(t, k)) <= 2 * |t| {
      AfterShorter(t, k);
    }
  }

  /** A non-empty rest of a topic without its leading slash. */
  function Behind(t: string): string
    requires t != ""
  {
    if t[0] == '/' then t[1..] else t
  }

  lemma Shorter(t: string)
    requires t != ""
    ensures |Behind(t)[LevelEnd(Behind(t))..]| < |t|
    ensures forall k: nat :: |After(Behind(t), k)| < |t|
  {
    forall k: nat ensures |After(Behind(t), k)| < |t| {
      AfterShorter(Behind(t), k);
    }
  }

  lemma {:induction false} AfterShorter(s: string, k: nat)
    ensures |After(s, k)| <= |s| - LevelEnd(s)
  {
    if k > 1 {
      AfterShorter(s, k - 1);
    }
  }

  // ---------- the parts of the search ----------

  lemma StraysUnfold(keys: set<string>, alphabet: string, path: string, t: string)
    ensures t == "" ==> !Strays(keys, alphabet, path, t)
    ensures t != "" && t[0] == '/' ==>
              Strays(keys, alphabet, path, t) == OnwardStrays(keys, alphabet, path + "/", t[1..])
    ensures t != "" && t[0] != '/' ==> Strays(keys, alphabet, path, t) == OnwardStrays(keys, alphabet, path, t)
  {
    hide LevelStrays, SomeCall, SomeStar, Split, After, StarMin, Over, Reached, LevelEnd;
  }

  lemma OnwardParts(keys: set<string>, alphabet: string, path: string, t: string, n: nat)
    requires n == LevelEnd(t)
    ensures OnwardStrays(keys, alphabet, path, t)
         == (|| Strays(keys, alphabet, path + "+", t[n..])
             || (!SomeCall(keys, path + "+", t[n..], false) &&
                 (|| StarStrays(keys, alphabet, path, t, |Split(t)| + 1)
                  || (!SomeStar(keys, path, t, |Split(t)| + 1) && LiteralStrays(keys, alphabet, path, t)))))
    ensures LiteralStrays(keys, alphabet, path, t)
         == (|| LevelStrays(keys, alphabet, path, t[..n])
             || (Over(t[..n], alphabet) && Strays(keys, alphabet, path + t[..n], t[n..])))
  {
    hide Strays, LevelStrays, SomeCall, SomeStar, StarStrays, Split;
  }

  lemma StarStraysNext(keys: set<string>, alphabet: string, path: string, t: string, k: nat)
    requires k + 1 <= |Split(t)| && !StarStrays(keys, alphabet, path, t, k + 1) && !SomeStar(keys, path, t, k + 1)
    requires k + 1 >= StarMin(Split(t))
    ensures StarStrays(keys, alphabet, path, t, k + 2) == Strays(keys, alphabet, path + "*", After(t, k + 1))
  {
    hide Strays, SomeStar, Split, After, StarMin;
  }

  lemma StarStraysMore(keys: set<string>, alphabet: string, path: string, t: string, to: nat)
    requires to <= |Split(t)| + 1
    ensures StarStrays(keys, alphabet, path, t, to) ==> StarStrays(keys, alphabet, path, t, |Split(t)| + 1)
    ensures SomeStar(keys, path, t, to) && !StarStrays(keys, alphabet, path, t, to) ==>
              !StarStrays(keys, alphabet, path, t, |Split(t)| + 1)
    ensures to <= StarMin(Split(t)) ==> !StarStrays(keys, alphabet, path, t, to)
  {
    hide Strays, SomeCall, Split, After, StarMin;
    if k :|
      && StarMin(Split(t)) <= k < |Split(t)| + 1
      && Strays(keys, alphabet, path + "*", After(t, k)) && !SomeStar(keys, path, t, k)
    {
      if SomeStar(keys, path, t, to) {
        assert k < to;
      }
    }
  }

  // ---------- where there is no node ----------

  lemma NotReached(keys: set<string>, path: string, more: string)
    requires NoneBelow(keys, path) && path != ""
    ensures NoneBelow(keys, path + more) && path + more != "" && !Reached(keys, path + more)
  {
    assert path <= path + more;
  }

  /** Where there is no node the search does not even begin. */
  lemma {:induction false} NowhereToStray(keys: set<string>, alphabet: string, path: string, t: string)
    requires NoneBelow(keys, path) && path != ""
    ensures !Strays(keys, alphabet, path, t)
    decreases |t|
  {
    hide Strays, OnwardStrays, LiteralStrays, StarStrays, NoneBelow, Split, StarMin, SomeCall, SomeStar, Reached;
    StraysUnfold(keys, alphabet, path, t);
    if t != "" {
      var u, q := Behind(t), if t[0] == '/' then path + "/" else path;
      var n := LevelEnd(u);
      Shorter(t);
      NotReached(keys, path, "/");
      NotReached(keys, q, "+");
      NotReached(keys, q, "*");
      NotReached(keys, q, u[..n]);
      OnwardParts(keys, alphabet, q, u, n);
      NowhereToStray(keys, alphabet, q + "+", u[n..]);
      NowhereToStray(keys, alphabet, q + u[..n], u[n..]);
      forall k: nat ensures !Strays(keys, alphabet, q + "*", After(u, k)) {
        NowhereToStray(keys, alphabet, q + "*", After(u, k));
      }
      NoStarStrays(keys, alphabet, q, u);
      forall m | 0 <= m < n ensures !Reached(keys, q + u[..n][..m]) {
        NotReached(keys, q, u[..n][..m]);
      }
    }
  }

  lemma NoStarStrays(keys: set<string>, alphabet: string, path: string, t: string)
    requires forall k: nat :: !Strays(keys, alphabet, path + "*", After(t, k))
    ensures !StarStrays(keys, alphabet, path, t, |Split(t)| + 1)
  {
  }

  lemma NoneOnward(keys: set<string>, alphabet: string, path: string, t: string)
    requires NoneBelow(keys, path) && path != ""
    ensures !OnwardStrays(keys, alphabet, path, t)
  {
    hide *;
    var n := LevelEnd(t);
    OnwardParts(keys, alphabet, path, t, n);
    NotReached(keys, path, "+");
    NotReached(keys, path, "*");
    NotReached(keys, path, t[..n]);
    NowhereToStray(keys, alphabet, path + "+", t[n..]);
    NowhereToStray(keys, alphabet, path + t[..n], t[n..]);
    NoStarToStray(keys, alphabet, path, t);
    NoLevelToStray(keys, alphabet, path, t[..n]);
  }

  lemma NoLevelToStray(keys: set<string>, alphabet: string, path: string, level: string)
    requires NoneBelow(keys, path) && path != ""
    ensures !LevelStrays(keys, alphabet, path, level)
  {
    forall m | 0 <= m < |level| ensures !Reached(keys, path + level[..m]) {
      NotReached(keys, path, level[..m]);
    }
  }

  lemma NoStarToStray(keys: set<string>, alphabet: string, path: string, t: string)
    requires NoneBelow(keys, path + "*")
    ensures !StarStrays(keys, alphabet, path, t, |Split(t)| + 1)
  {
    hide *;
    forall k: nat ensures !Strays(keys, alphabet, path + "*", After(t, k)) {
      NowhereToStray(keys, alphabet, path + "*", After(t, k));
    }
    NoStarStrays(keys, alphabet, path, t);
  }

  // ---------- topics over the alphabet ----------

  lemma {:induction false} AfterOver(s: string, k: nat, alphabet: string)
    requires Over(s, alphabet)
    ensures Over(After(s, k), alphabet)
  {
    if k > 1 {
      AfterOver(s, k - 1, alphabet);
    }
  }

  /** A topic over the alphabet never leads the search astray. */
  lemma {:induction false} OverNeverStrays(keys: set<string>, alphabet: string, path: string, t: string)
    requires Over(t, alphabet)
    ensures !Strays(keys, alphabet, path, t)
    decreases |t|
  {
    hide Strays, OnwardStrays, LiteralStrays, StarStrays, NoneBelow, Split, StarMin, SomeCall, SomeStar, Reached;
    StraysUnfold(keys, alphabet, path, t);
    if t != "" {
      var u, q := Behind(t), if t[0] == '/' then path + "/" else path;
      var n := LevelEnd(u);
      Shorter(t);
      assert Over(u, alphabet) && Over(u[n..], alphabet);
      OnwardParts(keys, alphabet, q, u, n);
      OverNeverStrays(keys, alphabet, q + "+", u[n..]);
      OverNeverStrays(keys, alphabet, q + u[..n], u[n..]);
      forall k: nat ensures !Strays(keys, alphabet, q + "*", After(u, k)) {
        AfterOver(u, k, alphabet);
        OverNeverStrays(keys, alphabet, q + "*", After(u, k));
      }
      NoStarStrays(keys, alphabet, q, u);
    }
  }

  // ---------- topics with another character ----------

  lemma {:induction false} FirstOutside(t: string, alphabet: string) returns (i: nat)
    requires !Over(t, alphabet)
    ensures i < |t| && t[i] !in alphabet && Over(t[..i], alphabet)
    decreases |t|
  {
    if t[0] !in alphabet {
      return 0;
    }
    assert t == [t[0]] + t[1..];
    var j := FirstOutside(t[1..], alphabet);
    assert t[..j + 1] == [t[0]] + t[1..][..j];
    return j + 1;
  }

  /** What the search looks for behind a path begins at a level boundary. */
  lemma CallAtBoundary(key: string, path: string, wildcard: string, rest: string)
    requires SomeCall({key}, path + wildcard, rest, false)
    ensures path <= key && wildcard <= key[|path|..] && AtBoundary(key[|path|..][|wildcard|..])
  {
    hide DeliversLevels;
    LongerPath(key, path, wildcard);
  }

  /** If the only pattern goes on with a wildcard level, so does the text it was made from. */
  lemma WildcardFirst(key: string, path: string, t: string, j: nat, c: char, wildcard: char, rest: string)
    requires j < |t| && key == path + t[..j] + [c] && Plain(c) && !Plain(wildcard) && wildcard != '/'
    requires SomeCall({key}, path + [wildcard], rest, false)
    ensures j > LevelEnd(t) == 1 && t[..1] == [wildcard]
  {
    hide SomeCall;
    CallAtBoundary(key, path, [wildcard], rest);
    var w := t[..j] + [c];
    assert key[|path|..] == w;
    assert w[0] == wildcard;
    assert j > 0;
    assert t[0] == wildcard && w[1..][0] == w[1] == '/';
    assert w[1] == t[1];
    LevelEndUnique(t, 1);
  }

  /** A character that means nothing to the search. */
  predicate Plain(c: char) {
    c != '/' && c != '+' && c != '*'
  }

  lemma FirstStar(keys: set<string>, alphabet: string, path: string, t: string)
    requires LevelEnd(t) == 1 && Strays(keys, alphabet, path + "*", t[1..])
    ensures StarStrays(keys, alphabet, path, t, |Split(t)| + 1)
  {
    hide Strays, SomeCall;
    assert StarMin(Split(t)) == 1 && After(t, 1) == t[1..];
  }

  /** With a single pattern, which goes along with the topic up to a character outside the alphabet and then on,
      the search comes to that character, whatever the wildcards it meets before. */
  lemma {:induction false} ChainStrays(alphabet: string, path: string, t: string, i: nat, c: char)
    requires i < |t| && t[i] !in alphabet && Over(t[..i], alphabet) && '/' in alphabet && Plain(c)
    ensures Strays({path + t[..i] + [c]}, alphabet, path, t)
    decreases |t|
  {
    hide Strays, OnwardStrays, LiteralStrays, LevelStrays, StarStrays, Split, StarMin, SomeCall, After, Over, LevelEnd;
    var key := path + t[..i] + [c];
    var u, q := Behind(t), if t[0] == '/' then path + "/" else path;
    var n, j := LevelEnd(u), if t[0] == '/' then i - 1 else i;
    assert key == q + u[..j] + [c] && u[j] == t[i] && Over(u[..j], alphabet) by {
      OneBehind(path, t, i, c, alphabet);
    }
    Shorter(t);
    StraysUnfold({key}, alphabet, path, t);
    OnwardParts({key}, alphabet, q, u, n);
    ChainLevel(key, q, u, j, c, alphabet);
    if n < j {
      ChainStrays(alphabet, q + u[..n], u[n..], j - n, c);
    }
    if SomeCall({key}, q + "+", u[n..], false) {
      WildcardFirst(key, q, u, j, c, '+', u[n..]);
    } else if SomeStar({key}, q, u, |Split(u)| + 1) {
      var k :| StarMin(Split(u)) <= k < |Split(u)| + 1 && SomeCall({key}, q + "*", After(u, k), false);
      WildcardFirst(key, q, u, j, c, '*', After(u, k));
      FirstStar({key}, alphabet, q, u);
    }
  }

  lemma Cut(t: string, n: nat, j: nat)
    requires n <= j < |t|
    ensures t[..j] == t[..n] + t[n..][..j - n] && t[n..][j - n] == t[j]
  {
  }

  lemma OverBoth(a: string, b: string, alphabet: string)
    requires Over(a + b, alphabet)
    ensures Over(a, alphabet) && Over(b, alphabet)
  {
    assert forall i | 0 <= i < |a| :: (a + b)[i] == a[i];
    assert forall i | 0 <= i < |b| :: (a + b)[|a| + i] == b[i];
  }

  lemma Regrouped(path: string, a: string, b: string, c: string)
    ensures path + (a + b) + c == path + a + b + c && path + a <= path + a + c
  {
  }

  /** Either the pattern goes along with the whole first level, or the character outside the alphabet is in it. */
  lemma ChainLevel(key: string, path: string, t: string, j: nat, c: char, alphabet: string)
    requires j < |t| && t[j] !in alphabet && Over(t[..j], alphabet) && '/' in alphabet && key == path + t[..j] + [c]
    ensures var n := LevelEnd(t);
            if n <= j then
              && n < j && Over(t[..n], alphabet) && Over(t[n..][..j - n], alphabet) && t[n..][j - n] == t[j]
              && key == path + t[..n] + t[n..][..j - n] + [c]
            else LevelStrays({key}, alphabet, path, t[..n])
  {
    hide Over, LevelEnd;
    var n := LevelEnd(t);
    if n <= j {
      assert n != j;
      Cut(t, n, j);
      OverBoth(t[..n], t[n..][..j - n], alphabet);
      Regrouped(path, t[..n], t[n..][..j - n], [c]);
    } else {
      assert t[..n][..j] == t[..j] && t[..n][j] == t[j];
      Regrouped(path, t[..j], "", [c]);
      assert Reached({key}, path + t[..j]);
    }
  }

  lemma OneBehind(path: string, t: string, i: nat, c: char, alphabet: string)
    requires i < |t| && t[i] !in alphabet && Over(t[..i], alphabet) && '/' in alphabet
    ensures t[0] == '/' ==> i > 0 && path + t[..i] + [c] == path + "/" + t[1..][..i - 1] + [c]
                            && t[1..][i - 1] == t[i] && Over(t[1..][..i - 1], alphabet)
  {
    if t[0] == '/' {
      assert t[..i] == "/" + t[1..][..i - 1];
    }
  }

  lemma LettersIn()
    ensures '/' in TOPIC_ALPHABET && '-' in TOPIC_ALPHABET
  {
    assert TOPIC_ALPHABET[2] == '/' && TOPIC_ALPHABET[3] == '-';
  }

  /** The search goes astray on a topic for no set of patterns exactly when the topic is written in the alphabet. */
  lemma NeverAstrayIff(topic: string)
    ensures (forall keys: set<string> | (forall w | w in keys :: Over(w, TOPIC_ALPHABET)) ::
               !Strays(keys, TOPIC_ALPHABET, "", topic))
       <==> Over(topic, TOPIC_ALPHABET)
  {
    hide Strays, TOPIC_ALPHABET;
    if Over(topic, TOPIC_ALPHABET) {
      forall keys: set<string> ensures !Strays(keys, TOPIC_ALPHABET, "", topic) {
        OverNeverStrays(keys, TOPIC_ALPHABET, "", topic);
      }
    } else {
      var i := FirstOutside(topic, TOPIC_ALPHABET);
      LettersIn();
      ChainStrays(TOPIC_ALPHABET, "", topic, i, '-');
      assert forall w | w in {"" + topic[..i] + ['-']} :: Over(w, TOPIC_ALPHABET);
    }
  }
}
