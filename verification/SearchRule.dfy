/** What one call of the subscription search must answer, as a property of the stored patterns below
    a path, and how that answer splits into the three ways the search goes on. */
module SearchRule {
  import opened Levels
  import opened Matching

  /** At a level boundary: the rest of the pattern takes exactly the rest of the topic. */
  predicate TailDelivers(p: string, t: string) {
    AtBoundary(p) && AtBoundary(t) && DeliversLevels(Following(p), Following(t), false)
  }

  /** The rest of the pattern and of the topic as seen by a call: the whole strings on the first call,
      both at a level boundary on every later one. */
  predicate CallDelivers(p: string, t: string, first: bool) {
    if first then Delivers(p, t) else TailDelivers(p, t)
  }

  /** Past the boundary: rest of pattern against rest of topic, level by level. */
  predicate LevelsDeliver(p: string, t: string) {
    DeliversLevels(Split(p), Split(t), false)
  }

  /** Some stored pattern that begins with `path` ... */
  ghost predicate SomeCall(keys: set<string>, path: string, t: string, first: bool) {
    exists w | w in keys :: OnCall(w, path, t, first)
  }

  predicate OnCall(w: string, path: string, t: string, first: bool) {
    path <= w && CallDelivers(w[|path|..], t, first)
  }

  ghost predicate SomeLevels(keys: set<string>, path: string, t: string) {
    exists w | w in keys :: OnLevels(w, path, t)
  }

  predicate OnLevels(w: string, path: string, t: string) {
    path <= w && LevelsDeliver(w[|path|..], t)
  }

  /** ... through a star that takes fewer than `to` levels. */
  ghost predicate SomeStar(keys: set<string>, path: string, t: string, to: nat)
    requires to <= |Split(t)| + 1
  {
    exists k | StarMin(Split(t)) <= k < to :: SomeCall(keys, path + "*", After(t, k), false)
  }

  /** The search answers for the empty rest of a topic. */
  lemma CallOnEmpty(p: string, first: bool)
    ensures CallDelivers(p, "", first) <==> p == ""
  {
    var ps := Split(p);
    JoinSplit(p);
    assert Split("") == [""] && [""][1..] == [];
    if ps == [""] {
      assert p == Join([""]) == "";
    } else {
      assert DeliversLevels(ps[1..], [], false) <==> ps[1..] == [];
      assert ps == [ps[0]] + ps[1..];
    }
  }

  /** A leading slash of the topic must be a leading slash of the pattern. */
  lemma CallOnSlash(p: string, t: string, first: bool)
    requires t != "" && t[0] == '/'
    ensures CallDelivers(p, t, first) <==> p != "" && p[0] == '/' && LevelsDeliver(p[1..], t[1..])
  {
    if first {
      assert t[..0] == "" && Split(t) == [""] + Split(t[1..]);
      assert Split(t)[1..] == Split(t[1..]);
      var ps, n := Split(p), LevelEnd(p);
      SplitAtEnd(p);
      if p != "" && p[0] == '/' {
        assert p[..0] == "" && ps == [""] + Split(p[1..]);
        assert ps[1..] == Split(p[1..]);
      } else if n == 0 {
        assert p == "" && ps[1..] == [];
        assert !DeliversLevels([], Split(t[1..]), false);
      } else {
        assert ps[0] != "";
      }
    }
  }

  /** A topic that starts with a character other than the slash. */
  lemma CallOnLevel(p: string, t: string)
    requires t != "" && t[0] != '/'
    ensures CallDelivers(p, t, true) <==> LevelsDeliver(p, t)
  {
  }

  lemma PlusCase(p: string, t: string)
    requires p != "" && p[0] == '+'
    ensures TailDelivers(p[1..], t[LevelEnd(t)..])
       <==> Split(p)[0] == "+" && DeliversLevels(Split(p)[1..], Split(t)[1..], false)
  {
    SplitAtEnd(p);
    SplitAtEnd(t);
    if AtBoundary(p[1..]) {
      LevelEndUnique(p, 1);
    }
  }

  lemma StarCase(p: string, t: string, k: nat)
    requires p != "" && p[0] == '*' && 1 <= k <= |Split(t)|
    ensures TailDelivers(p[1..], After(t, k))
       <==> Split(p)[0] == "*" && DeliversLevels(Split(p)[1..], Split(t)[k..], false)
  {
    SplitAtEnd(p);
    AfterLevels(t, k);
    if AtBoundary(p[1..]) {
      LevelEndUnique(p, 1);
    }
  }

  lemma LiteralCase(p: string, t: string, n: nat)
    requires n == LevelEnd(t)
    ensures t[..n] <= p && TailDelivers(p[n..], t[n..])
       <==> Split(p)[0] == Split(t)[0] && DeliversLevels(Split(p)[1..], Split(t)[1..], false)
  {
    SplitAtEnd(p);
    SplitAtEnd(t);
    if t[..n] <= p && AtBoundary(p[n..]) {
      assert p[..n] == t[..n];
      LevelEndUnique(p, n);
    }
  }

  /** The rest of the pattern takes what a star leaves of the topic. */
  predicate StarTails(p: string, t: string) {
    exists k | StarMin(Split(t)) <= k <= |Split(t)| :: TailDelivers(p, After(t, k))
  }

  lemma StarsCase(p: string, t: string)
    requires "*" <= p
    ensures StarTails(p[1..], t) <==> Split(p)[0] == "*" && StarDelivers(Split(p)[1..], Split(t))
  {
    var ps, ts := Split(p), Split(t);
    if k :| StarMin(ts) <= k <= |ts| && TailDelivers(p[1..], After(t, k)) {
      StarCase(p, t, k);
    }
    if ps[0] == "*" && StarDelivers(ps[1..], ts) {
      var k :| StarMin(ts) <= k <= |ts| && DeliversLevels(ps[1..], ts[k..], false);
      StarCase(p, t, k);
    }
  }

  /** The three ways on for one pattern. */
  lemma LevelsUnfold(p: string, t: string, n: nat)
    requires n == LevelEnd(t)
    ensures LevelsDeliver(p, t)
         == (|| ("+" <= p && TailDelivers(p[1..], t[n..]))
             || ("*" <= p && StarTails(p[1..], t))
             || (t[..n] <= p && TailDelivers(p[n..], t[n..])))
  {
    LiteralCase(p, t, n);
    assert Split(p)[0] <= p;
    if "+" <= p {
      PlusCase(p, t);
    } else if "*" <= p {
      StarsCase(p, t);
    }
  }

  lemma LongerPath(w: string, path: string, s: string)
    ensures path + s <= w <==> path <= w && s <= w[|path|..]
    ensures path + s <= w ==> w[|path + s|..] == w[|path|..][|s|..]
  {
    if path <= w && s <= w[|path|..] {
      assert w == path + w[|path|..];
    }
  }

  predicate OnStar(w: string, path: string, t: string) {
    exists k | StarMin(Split(t)) <= k <= |Split(t)| :: OnCall(w, path + "*", After(t, k), false)
  }

  lemma OnCallBehind(w: string, path: string, s: string, t: string)
    ensures OnCall(w, path + s, t, false) == (path <= w && s <= w[|path|..] && TailDelivers(w[|path|..][|s|..], t))
  {
    LongerPath(w, path, s);
  }

  lemma OnStarBehind(w: string, path: string, t: string)
    ensures OnStar(w, path, t) == (path <= w && "*" <= w[|path|..] && StarTails(w[|path|..][1..], t))
  {
    hide OnCall, TailDelivers, Split, StarMin, After;
    forall k: nat
      ensures OnCall(w, path + "*", After(t, k), false)
           == (path <= w && "*" <= w[|path|..] && TailDelivers(w[|path|..][1..], After(t, k)))
    {
      OnCallBehind(w, path, "*", After(t, k));
    }
  }

  /** The three ways on for one pattern below a path. */
  lemma OnLevelsUnfold(w: string, path: string, t: string, n: nat)
    requires n == LevelEnd(t)
    ensures OnLevels(w, path, t)
         == (OnCall(w, path + "+", t[n..], false) || OnStar(w, path, t) || OnCall(w, path + t[..n], t[n..], false))
  {
    hide LevelsDeliver, TailDelivers, OnCall, OnStar, StarTails;
    OnCallBehind(w, path, "+", t[n..]);
    OnStarBehind(w, path, t);
    OnCallBehind(w, path, t[..n], t[n..]);
    if path <= w {
      LevelsUnfold(w[|path|..], t, n);
    }
  }

  /** The three ways on for a set of patterns. */
  lemma SomeLevelsUnfold(keys: set<string>, path: string, t: string, n: nat)
    requires n == LevelEnd(t)
    ensures SomeLevels(keys, path, t)
       <==> || SomeCall(keys, path + "+", t[n..], false)
            || SomeStar(keys, path, t, |Split(t)| + 1)
            || SomeCall(keys, path + t[..n], t[n..], false)
  {
    hide OnLevels, OnCall, Split, After, StarMin;
    forall w | w in keys
      ensures OnLevels(w, path, t)
           == (OnCall(w, path + "+", t[n..], false) || OnStar(w, path, t) || OnCall(w, path + t[..n], t[n..], false))
    {
      OnLevelsUnfold(w, path, t, n);
    }
    SomeStarIs(keys, path, t);
  }

  lemma SomeStarIs(keys: set<string>, path: string, t: string)
    ensures SomeStar(keys, path, t, |Split(t)| + 1) <==> exists w | w in keys :: OnStar(w, path, t)
  {
    hide OnCall, Split, After, StarMin;
    if k :| StarMin(Split(t)) <= k < |Split(t)| + 1 && SomeCall(keys, path + "*", After(t, k), false) {
      var w :| w in keys && OnCall(w, path + "*", After(t, k), false);
      assert OnStar(w, path, t);
    }
    if w :| w in keys && OnStar(w, path, t) {
      var k :| StarMin(Split(t)) <= k <= |Split(t)| && OnCall(w, path + "*", After(t, k), false);
      assert SomeCall(keys, path + "*", After(t, k), false);
    }
  }

  lemma SomeCallOnEmpty(keys: set<string>, path: string, t: string, first: bool)
    requires t == ""
    ensures SomeCall(keys, path, t, first) <==> path in keys
  {
    forall w | w in keys && path <= w ensures CallDelivers(w[|path|..], "", first) <==> w == path {
      CallOnEmpty(w[|path|..], first);
    }
    if path in keys {
      assert path <= path;
    }
  }

  lemma SomeCallOnSlash(keys: set<string>, path: string, t: string, first: bool)
    requires t != "" && t[0] == '/'
    ensures SomeCall(keys, path, t, first) <==> SomeLevels(keys, path + "/", t[1..])
  {
    forall w | w in keys
      ensures path + "/" <= w <==> path <= w && "/" <= w[|path|..]
      ensures path + "/" <= w ==> w[|path + "/"|..] == w[|path|..][1..]
      ensures path <= w ==> (CallDelivers(w[|path|..], t, first)
                             <==> "/" <= w[|path|..] && LevelsDeliver(w[|path|..][1..], t[1..]))
    {
      LongerPath(w, path, "/");
      if path <= w {
        CallOnSlash(w[|path|..], t, first);
      }
    }
  }

  lemma SomeCallOnLevel(keys: set<string>, path: string, t: string)
    requires t != "" && t[0] != '/'
    ensures SomeCall(keys, path, t, true) <==> SomeLevels(keys, path, t)
  {
    forall w | w in keys && path <= w ensures CallDelivers(w[|path|..], t, true) <==> LevelsDeliver(w[|path|..], t) {
      CallOnLevel(w[|path|..], t);
    }
  }

  /** No stored pattern begins with the path. */
  ghost predicate NoneBelow(keys: set<string>, path: string) {
    forall w | w in keys :: !(path <= w)
  }

  lemma NoneBelowNothing(keys: set<string>, path: string, t: string, first: bool)
    requires NoneBelow(keys, path)
    ensures !SomeCall(keys, path, t, first) && !SomeLevels(keys, path, t)
  {
  }

  /** One more star length that leads nowhere. */
  lemma SomeStarStep(keys: set<string>, path: string, t: string, k: nat)
    requires k + 1 <= |Split(t)| && !SomeStar(keys, path, t, k + 1)
    requires k + 1 >= StarMin(Split(t))
    ensures SomeStar(keys, path, t, k + 2) <==> SomeCall(keys, path + "*", After(t, k + 1), false)
  {
    hide SomeCall, Split, After, StarMin;
  }

  lemma SomeStarFound(keys: set<string>, path: string, t: string, k: nat)
    requires StarMin(Split(t)) <= k <= |Split(t)| && SomeCall(keys, path + "*", After(t, k), false)
    ensures SomeStar(keys, path, t, |Split(t)| + 1)
  {
  }

  lemma NoStarBelow(keys: set<string>, path: string, t: string)
    requires NoneBelow(keys, path + "*")
    ensures !SomeStar(keys, path, t, |Split(t)| + 1)
  {
    forall k | StarMin(Split(t)) <= k < |Split(t)| + 1 ensures !SomeCall(keys, path + "*", After(t, k), false) {
      NoneBelowNothing(keys, path + "*", After(t, k), false);
    }
  }

  /** How the position of the star's loop moves: `pos` stands behind the first k levels, except that
      before the first round it stands in front of a non-empty first level (k == 0). */
  ghost predicate StarAt(t: string, pos: nat, k: nat) {
    && pos <= |t|
    && (k == 0 ==> pos == 0 && !AtBoundary(t))
    && (k > 0 ==> k <= |Split(t)| && t[pos..] == After(t, k))
  }

  lemma StarStart(keys: set<string>, path: string, t: string, k: nat)
    requires k == if AtBoundary(t) then 1 else 0
    ensures StarAt(t, 0, k) && StarMin(Split(t)) == k + 1 && !SomeStar(keys, path, t, k + 1)
  {
    assert t[0..] == t;
  }

  lemma LevelScanned(t: string, start: nat, end: nat)
    requires start <= end <= |t| && '/' !in t[start..end] && (end < |t| ==> t[end] == '/')
    ensures LevelEnd(t[start..]) == end - start
    ensures t[start..][LevelEnd(t[start..])..] == t[end..] && AtBoundary(t[end..])
  {
    assert t[start..][..end - start] == t[start..end];
    LevelEndUnique(t[start..], end - start);
  }

  lemma AfterNext(t: string, k: nat)
    requires 1 <= k <= |Split(t)| && After(t, k) != ""
    ensures k + 1 <= |Split(t)|
    ensures After(t, k + 1) == After(t, k)[1..][LevelEnd(After(t, k)[1..])..]
  {
    AfterLevels(t, k);
    assert Split(t)[k..] != [];
  }

  lemma StarMoves(t: string, pos: nat, k: nat, start: nat, end: nat)
    requires StarAt(t, pos, k) && pos < |t|
    requires start == if t[pos] == '/' then pos + 1 else pos
    requires start <= end <= |t| && '/' !in t[start..end] && (end < |t| ==> t[end] == '/')
    ensures StarAt(t, end, k + 1) && pos < end
  {
    LevelScanned(t, start, end);
    if k == 0 {
      assert t[0..] == t;
      assert end > 0;
    } else {
      assert t[pos..][0] == '/' by {
        assert AtBoundary(After(t, k));
      }
      AfterNext(t, k);
      assert t[pos..][1..] == t[start..];
    }
  }

  lemma StarEnds(t: string, k: nat)
    requires StarAt(t, |t|, k)
    ensures k == |Split(t)|
  {
    if k > 0 {
      AfterLevels(t, k);
      assert Following(After(t, k)) == [];
    }
  }

  lemma BoundaryCases(t: string)
    ensures AtBoundary(t) <==> t == "" || t[0] == '/'
  {
  }

  lemma FirstLevel(t: string, pos: nat)
    requires pos <= |t| && '/' !in t[..pos] && (pos < |t| ==> t[pos] == '/')
    ensures LevelEnd(t) == pos && AtBoundary(t[pos..])
  {
    LevelEndUnique(t, pos);
  }

  lemma StarRest(t: string, pos: nat, k: nat)
    requires StarAt(t, pos, k) && k > 0
    ensures k <= |Split(t)| && t[pos..] == After(t, k) && AtBoundary(t[pos..])
  {
  }

  /** Some stored pattern has the topic delivered. */
  ghost predicate Wants(keys: set<string>, topic: string) {
    exists w | w in keys :: Delivers(w, topic)
  }

  /** What the first call, on the root, must answer. */
  lemma RootCall(keys: set<string>, topic: string)
    ensures SomeCall(keys, "", topic, true) <==> Wants(keys, topic)
  {
    forall w | w in keys ensures "" <= w && w[|""|..] == w {
    }
    if Wants(keys, topic) {
      var w :| w in keys && Delivers(w, topic);
      assert "" <= w && CallDelivers(w[|""|..], topic, true);
    }
  }

  /** A pattern more loses no topic, and a pattern less loses exactly the topics that no other one takes. */
  lemma OnePatternMoreOrLess(keys: set<string>, pattern: string, topic: string)
    ensures Wants(keys + {pattern}, topic) <==> Wants(keys, topic) || Delivers(pattern, topic)
    ensures Wants(keys, topic) && !Wants(keys - {pattern}, topic) <==>
              pattern in keys && Delivers(pattern, topic) && forall w | w in keys && w != pattern :: !Delivers(w, topic)
  {
    if w :| w in keys && Delivers(w, topic) {
      assert w in keys + {pattern} && (w == pattern || w in keys - {pattern});
    }
    assert pattern in keys + {pattern};
  }

  /** For a topic without empty levels this is the documented rule. */
  lemma WantsDocumented(keys: set<string>, topic: string)
    requires NoEmptyLevel(Split(topic))
    ensures Wants(keys, topic) <==> exists w | w in keys :: Matches(w, topic)
  {
    forall w | w in keys ensures Delivers(w, topic) <==> Matches(w, topic) {
      if Delivers(w, topic) {
        DeliversImpliesMatches(Split(w), Split(topic), true);
      }
      if Matches(w, topic) {
        MatchesImpliesDelivers(Split(w), Split(topic), true);
      }
    }
  }
}
