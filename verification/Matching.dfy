/** When a subscription pattern matches a published topic. Two rules are defined on levels, with no
    mention of the trie: the documented one (`Matches`) and the one the broker's search follows
    (`Delivers`), which differ only at empty levels. */
module Matching {
  import opened Alphabet
  import opened Levels

  /** The documented rule, as read here: a level `+` stands for exactly one level, a level `*` for one or more,
      and any other level for itself. */
  predicate MatchesLevels(ps: seq<string>, ts: seq<string>) {
    if ps == [] || ts == [] then ps == ts
    else
      || (ps[0] == "+" && MatchesLevels(ps[1..], ts[1..]))
      || (ps[0] == "*" && exists k | 1 <= k <= |ts| :: MatchesLevels(ps[1..], ts[k..]))
      || (ps[0] == ts[0] && MatchesLevels(ps[1..], ts[1..]))
  }

  predicate Matches(pattern: string, topic: string) {
    MatchesLevels(Split(pattern), Split(topic))
  }

  /** The fewest levels a `*` may take: two when the first of them is empty. */
  function StarMin(ts: seq<string>): nat
    requires ts != []
  {
    if ts[0] == "" then 2 else 1
  }

  /** The rule of the search: as above, except that no wildcard may start at the topic's first level
      when that level is empty, and a `*` that starts at an empty level takes at least two. */
  predicate DeliversLevels(ps: seq<string>, ts: seq<string>, first: bool)
    decreases |ps|, 0
  {
    if ps == [] || ts == [] then ps == ts
    else
      || (ps[0] == "+" && !(first && ts[0] == "") && DeliversLevels(ps[1..], ts[1..], false))
      || (ps[0] == "*" && !(first && ts[0] == "") && StarDelivers(ps[1..], ts))
      || (ps[0] == ts[0] && DeliversLevels(ps[1..], ts[1..], false))
  }

  predicate StarDelivers(ps: seq<string>, ts: seq<string>)
    requires ts != []
    decreases |ps|, 1
  {
    exists k | StarMin(ts) <= k <= |ts| :: DeliversLevels(ps, ts[k..], false)
  }

  predicate Delivers(pattern: string, topic: string) {
    DeliversLevels(Split(pattern), Split(topic), true)
  }

  /** A delivery is never spurious: the documented rule allows it as well. */
  lemma {:induction false} DeliversImpliesMatches(ps: seq<string>, ts: seq<string>, first: bool)
    requires DeliversLevels(ps, ts, first)
    ensures MatchesLevels(ps, ts)
    decreases |ps|
  {
    if ps != [] && ts != [] {
      if ps[0] == "*" && StarDelivers(ps[1..], ts) {
        var k :| StarMin(ts) <= k <= |ts| && DeliversLevels(ps[1..], ts[k..], false);
        DeliversImpliesMatches(ps[1..], ts[k..], false);
      } else {
        DeliversImpliesMatches(ps[1..], ts[1..], false);
      }
    }
  }

  lemma {:induction false} MatchesImpliesDelivers(ps: seq<string>, ts: seq<string>, first: bool)
    requires MatchesLevels(ps, ts) && NoEmptyLevel(ts)
    ensures DeliversLevels(ps, ts, first)
    decreases |ps|
  {
    if ps != [] && ts != [] {
      if ps[0] == "*" && exists k | 1 <= k <= |ts| :: MatchesLevels(ps[1..], ts[k..]) {
        var k :| 1 <= k <= |ts| && MatchesLevels(ps[1..], ts[k..]);
        MatchesImpliesDelivers(ps[1..], ts[k..], false);
      } else {
        MatchesImpliesDelivers(ps[1..], ts[1..], false);
      }
    }
  }

  /** Every pattern level takes at least one topic level. */
  lemma {:induction false} NoLongerThanTopic(ps: seq<string>, ts: seq<string>, first: bool)
    requires DeliversLevels(ps, ts, first)
    ensures |ps| <= |ts|
    decreases |ps|
  {
    if ps != [] && ts != [] {
      if ps[0] == "*" && StarDelivers(ps[1..], ts) {
        var k :| StarMin(ts) <= k <= |ts| && DeliversLevels(ps[1..], ts[k..], false);
        NoLongerThanTopic(ps[1..], ts[k..], false);
      } else {
        NoLongerThanTopic(ps[1..], ts[1..], false);
      }
    }
  }

  // Hence a `*` never stands for no level at all.
  lemma StarTakesALevel()
    ensures !Delivers("a/*/b", "a/b") && !Matches("a/*/b", "a/b")
  {
    SplitJoin(["a", "*", "b"]);
    SplitJoin(["a", "b"]);
    assert Join(["a", "b"]) == "a/b";
    assert Join(["a", "*", "b"]) == "a/" + Join(["*", "b"]) == "a/*/b";
    if Delivers("a/*/b", "a/b") {
      NoLongerThanTopic(["a", "*", "b"], ["a", "b"], true);
    }
    MatchesNoLonger(["a", "*", "b"], ["a", "b"]);
  }

  lemma {:induction false} MatchesNoLonger(ps: seq<string>, ts: seq<string>)
    ensures MatchesLevels(ps, ts) ==> |ps| <= |ts|
    decreases |ps|
  {
    if ps != [] && ts != [] && MatchesLevels(ps, ts) {
      if k :| 1 <= k <= |ts| && MatchesLevels(ps[1..], ts[k..]) {
        MatchesNoLonger(ps[1..], ts[k..]);
      }
    }
  }

  // ---------- a star read as any number of levels, none included ----------

  predicate AnyLevels(ps: seq<string>, ts: seq<string>)
    decreases |ps|
  {
    if ps == [] then ts == []
    else
      || (ps[0] == "*" && exists k | 0 <= k <= |ts| :: AnyLevels(ps[1..], ts[k..]))
      || (ts != [] && (ps[0] == "+" || ps[0] == ts[0]) && AnyLevels(ps[1..], ts[1..]))
  }

  /** Without stars the two readings are one. */
  lemma {:induction false} NoStarSame(ps: seq<string>, ts: seq<string>, first: bool)
    requires "*" !in ps && NoEmptyLevel(ts)
    ensures DeliversLevels(ps, ts, first) <==> AnyLevels(ps, ts)
    decreases |ps|
  {
    if ps != [] && ts != [] {
      assert ps[0] in ps;
      NoStarSame(ps[1..], ts[1..], false);
    }
  }

  /** A pattern with an empty level takes no topic without one, under either reading. */
  lemma {:induction false} EmptyLevelTakesNothing(ps: seq<string>, ts: seq<string>, first: bool)
    requires "" in ps && NoEmptyLevel(ts)
    ensures !DeliversLevels(ps, ts, first) && !AnyLevels(ps, ts)
    decreases |ps|
  {
    if ps[0] != "" {
      assert "" in ps[1..];
      forall k | 0 <= k <= |ts| ensures !DeliversLevels(ps[1..], ts[k..], false) && !AnyLevels(ps[1..], ts[k..]) {
        EmptyLevelTakesNothing(ps[1..], ts[k..], false);
      }
    }
  }

  lemma {:induction false} OwnLevelsAny(ps: seq<string>)
    ensures AnyLevels(ps, ps)
    decreases |ps|
  {
    if ps != [] {
      OwnLevelsAny(ps[1..]);
    }
  }

  /** Read in that way, a star may be cut out. */
  lemma {:induction false} StarCutOut(ps: seq<string>, i: nat)
    requires i < |ps| && ps[i] == "*"
    ensures AnyLevels(ps, ps[..i] + ps[i + 1..])
    decreases i
  {
    var ts := ps[..i] + ps[i + 1..];
    if i == 0 {
      assert ts[0..] == ps[1..];
      OwnLevelsAny(ps[1..]);
    } else {
      assert ts[1..] == ps[1..][..i - 1] + ps[1..][i..];
      StarCutOut(ps[1..], i - 1);
    }
  }

  lemma OnlyStar(ts: seq<string>)
    requires ts != [] && NoEmptyLevel(ts)
    ensures DeliversLevels(["*"], ts, true) && AnyLevels(["*"], ts)
  {
    assert ["*"][1..] == [] && ts[|ts|..] == [];
    assert DeliversLevels([], ts[|ts|..], false) && AnyLevels([], ts[|ts|..]);
  }

  /** The search follows this reading for a pattern, on all topics without empty levels, exactly when the pattern has
      no star, is nothing but a star, or has an empty level and so takes none of these topics. */
  lemma AnyLevelsIff(pattern: string, alphabet: string)
    requires Over(pattern, alphabet) && WildcardAlphabet(alphabet)
    ensures (forall t | Over(t, alphabet) && NoEmptyLevel(Split(t)) ::
               Delivers(pattern, t) == AnyLevels(Split(pattern), Split(t)))
       <==> "*" !in Split(pattern) || Split(pattern) == ["*"] || "" in Split(pattern)
  {
    var ps := Split(pattern);
    if "*" !in ps || ps == ["*"] || "" in ps {
      forall t | Over(t, alphabet) && NoEmptyLevel(Split(t)) ensures Delivers(pattern, t) == AnyLevels(ps, Split(t)) {
        if "*" !in ps {
          NoStarSame(ps, Split(t), true);
        } else if "" in ps {
          EmptyLevelTakesNothing(ps, Split(t), true);
        } else {
          OnlyStar(Split(t));
        }
      }
    } else {
      var i :| 0 <= i < |ps| && ps[i] == "*";
      var ts := ps[..i] + ps[i + 1..];
      CutTopic(pattern, i, alphabet);
      StarCutOut(ps, i);
      if Delivers(pattern, Join(ts)) {
        NoLongerThanTopic(ps, ts, true);
      }
    }
  }

  /** The topic that loses: the pattern without one of its stars. */
  lemma CutTopic(pattern: string, i: nat, alphabet: string)
    requires Over(pattern, alphabet) && '/' in alphabet && "" !in Split(pattern)
    requires i < |Split(pattern)| && |Split(pattern)| > 1
    ensures var ts := Split(pattern)[..i] + Split(pattern)[i + 1..];
            ts != [] && Split(Join(ts)) == ts && NoEmptyLevel(ts) && Over(Join(ts), alphabet)
  {
    hide Split, Over, NoEmptyLevel;
    var ps := Split(pattern);
    var ts := ps[..i] + ps[i + 1..];
    SplitNoSlash(pattern);
    SplitOver(pattern, alphabet);
    forall l | l in ts ensures l in ps {
    }
    assert |ts| == |ps| - 1;
    SplitJoin(ts);
    JoinOver(ts, alphabet);
    NoneEmpty(ts);
  }

  lemma NoneEmpty(levels: seq<string>)
    requires "" !in levels
    ensures NoEmptyLevel(levels)
  {
  }

  /** A pattern as long as the topic gives each of its levels exactly one topic level, so a `*`
      standing opposite an empty level is never delivered. */
  lemma {:induction false} StarAtEmptyLevel(ps: seq<string>, ts: seq<string>, i: nat, first: bool)
    requires |ps| == |ts| && i < |ps| && ps[i] == "*" && ts[i] == ""
    ensures !DeliversLevels(ps, ts, first)
    decreases |ps|
  {
    if DeliversLevels(ps, ts, first) {
      if ps[0] == "*" && StarDelivers(ps[1..], ts) {
        var k :| StarMin(ts) <= k <= |ts| && DeliversLevels(ps[1..], ts[k..], false);
        NoLongerThanTopic(ps[1..], ts[k..], false);
      }
      StarAtEmptyLevel(ps[1..], ts[1..], i - 1, false);
    }
  }

  /** A topic used as a pattern, with any of its levels after the first turned into `+`. */
  lemma {:induction false} OwnLevelsDeliver(ps: seq<string>, ts: seq<string>, first: bool)
    requires |ps| == |ts|
    requires forall i | 0 <= i < |ps| :: ps[i] == ts[i] || (ps[i] == "+" && !(first && i == 0))
    ensures DeliversLevels(ps, ts, first) && MatchesLevels(ps, ts)
    decreases |ps|
  {
    if ps != [] {
      OwnLevelsDeliver(ps[1..], ts[1..], false);
    }
  }

  lemma {:induction false} OwnLevelsMatch(ps: seq<string>, ts: seq<string>)
    requires |ps| == |ts|
    requires forall i | 0 <= i < |ps| :: ps[i] == ts[i] || ps[i] == "+" || ps[i] == "*"
    ensures MatchesLevels(ps, ts)
    decreases |ps|
  {
    if ps != [] {
      OwnLevelsMatch(ps[1..], ts[1..]);
    }
  }

  lemma {:induction false} JoinOver(levels: seq<string>, alphabet: string)
    requires |levels| > 0 && '/' in alphabet
    requires forall l | l in levels :: Over(l, alphabet)
    ensures Over(Join(levels), alphabet)
    decreases |levels|
  {
    assert levels[0] in levels;
    if |levels| > 1 {
      JoinOver(levels[1..], alphabet);
    }
  }

  lemma {:induction false} SplitOver(s: string, alphabet: string)
    requires Over(s, alphabet)
    ensures forall l | l in Split(s) :: Over(l, alphabet)
    decreases |s|
  {
    var n := LevelEnd(s);
    if n < |s| {
      SplitOver(s[n + 1..], alphabet);
    }
  }

  /** The pattern obtained from a topic by writing `wildcard` for its level i. */
  ghost function WithLevel(topic: string, i: nat, wildcard: string): (pattern: string)
    requires i < |Split(topic)|
  {
    Join(Split(topic)[i := wildcard])
  }

  lemma WithLevelSplits(topic: string, i: nat, wildcard: string, alphabet: string)
    requires i < |Split(topic)| && wildcard in {"+", "*"}
    requires Over(topic, alphabet) && WildcardAlphabet(alphabet)
    ensures Split(WithLevel(topic, i, wildcard)) == Split(topic)[i := wildcard]
    ensures Over(WithLevel(topic, i, wildcard), alphabet)
  {
    var levels := Split(topic)[i := wildcard];
    SplitNoSlash(topic);
    SplitJoin(levels);
    SplitOver(topic, alphabet);
    JoinOver(levels, alphabet);
  }

  /** The search follows the documented rule on a topic, whatever the patterns, exactly when the
      topic has no empty level. */
  lemma DeliversIffMatches(topic: string, alphabet: string)
    requires Over(topic, alphabet) && WildcardAlphabet(alphabet)
    ensures (forall p | Over(p, alphabet) :: Delivers(p, topic) == Matches(p, topic))
       <==> NoEmptyLevel(Split(topic))
  {
    var ts := Split(topic);
    if NoEmptyLevel(ts) {
      forall p | Over(p, alphabet) ensures Delivers(p, topic) == Matches(p, topic) {
        if Delivers(p, topic) { DeliversImpliesMatches(Split(p), ts, true); }
        if Matches(p, topic) { MatchesImpliesDelivers(Split(p), ts, true); }
      }
    } else {
      var i :| 0 <= i < |ts| && ts[i] == "";
      var p := WithLevel(topic, i, "*");
      WithLevelSplits(topic, i, "*", alphabet);
      StarAtEmptyLevel(Split(p), ts, i, true);
      OwnLevelsMatch(Split(p), ts);
      assert Over(p, alphabet) && Delivers(p, topic) != Matches(p, topic);
    }
  }

  // Two concrete departures: `+` on the empty topic, and `*` on an empty last level, which `+` does take.
  lemma EmptyLevelExamples()
    ensures Matches("+", "") && !Delivers("+", "")
    ensures Matches("a/*", "a/") && !Delivers("a/*", "a/")
    ensures Delivers("a/+", "a/")
  {
    SplitJoin(["a", "*"]);
    SplitJoin(["a", ""]);
    SplitJoin(["a", "+"]);
    assert Join(["a", "*"]) == "a/*" && Join(["a", ""]) == "a/" && Join(["a", "+"]) == "a/+";
    OwnLevelsMatch(["+"], [""]);
    OwnLevelsMatch(["a", "*"], ["a", ""]);
    OwnLevelsDeliver(["a", "+"], ["a", ""], true);
    StarAtEmptyLevel(["a", "*"], ["a", ""], 1, true);
  }

  // Patterns and topics of the repository's own tests, with the outcome that these expect.
  lemma TestedPlus()
    ensures DeliversLevels(["+", "ec", "100", "pressure"], ["upb", "ec", "100", "pressure"], true)
    ensures !DeliversLevels(["+", "ec", "100", "pressure"], ["upb", "precis", "100", "pressure"], true)
    ensures DeliversLevels(["upb", "ec", "100", "+"], ["upb", "ec", "100", "pressure"], true)
    ensures !DeliversLevels(["upb", "+", "100", "+"], ["upb", "precis", "100", "schedule", "monday", "8"], true)
  {
    OwnLevelsDeliver(["upb", "ec", "100", "+"], ["upb", "ec", "100", "pressure"], true);
    OwnLevelsDeliver(["ec", "100", "pressure"], ["ec", "100", "pressure"], false);
    assert ["+", "ec", "100", "pressure"][1..] == ["ec", "100", "pressure"];
    assert ["upb", "ec", "100", "pressure"][1..] == ["ec", "100", "pressure"];
  }

  lemma TestedStar()
    ensures DeliversLevels(["*", "pressure"], ["upb", "ec", "100", "pressure"], true)
    ensures !DeliversLevels(["*", "pressure"], ["upb", "ec", "100", "humidity"], true)
    ensures DeliversLevels(["*"], ["upb", "ec", "100", "humidity"], true)
  {
    StarThen("pressure", ["upb", "ec", "100", "pressure"], true);
    StarThen("pressure", ["upb", "ec", "100", "humidity"], true);
    OnlyStar(["upb", "ec", "100", "humidity"]);
  }

  lemma TestedCompound()
    ensures DeliversLevels(["upb", "precis", "*"], ["upb", "precis", "elevator", "1", "floor"], true)
    ensures !DeliversLevels(["upb", "precis", "*"], ["upb", "ec", "100", "temperature"], true)
    ensures var ps := ["upb", "precis", "elevator", "*", "floor"];
            && DeliversLevels(ps, ["upb", "precis", "elevator", "1", "floor"], true)
            && !DeliversLevels(ps, ["upb", "precis", "elevator", "1", "people"], true)
  {
    hide DeliversLevels;
    assert ["upb", "precis", "*"] == ["upb", "precis"] + ["*"];
    assert ["upb", "precis", "elevator", "1", "floor"] == ["upb", "precis"] + ["elevator", "1", "floor"];
    assert ["upb", "ec", "100", "temperature"] == ["upb", "ec"] + ["100", "temperature"];
    var pattern := ["upb", "precis", "elevator", "*", "floor"];
    assert pattern == ["upb", "precis", "elevator"] + ["*", "floor"];
    assert ["upb", "precis", "elevator", "1", "floor"] == ["upb", "precis", "elevator"] + ["1", "floor"];
    assert ["upb", "precis", "elevator", "1", "people"] == ["upb", "precis", "elevator"] + ["1", "people"];
    Literals(["upb", "precis"], ["*"], ["elevator", "1", "floor"], true);
    StarTakesRest(["elevator", "1", "floor"]);
    OtherSecond(["*"], "precis", "ec", ["100", "temperature"]);
    Literals(["upb", "precis", "elevator"], ["*", "floor"], ["1", "floor"], true);
    Literals(["upb", "precis", "elevator"], ["*", "floor"], ["1", "people"], true);
    StarThen("floor", ["1", "floor"], false);
    StarThen("floor", ["1", "people"], false);
  }

  /** Levels that are no wildcards stand for themselves. */
  lemma {:induction false} Literals(levels: seq<string>, ps: seq<string>, ts: seq<string>, first: bool)
    requires levels != [] && "+" !in levels && "*" !in levels
    ensures DeliversLevels(levels + ps, levels + ts, first) == DeliversLevels(ps, ts, false)
    decreases |levels|
  {
    var l, rest := levels[0], levels[1..];
    assert (levels + ps)[1..] == rest + ps && (levels + ts)[1..] == rest + ts;
    assert levels == [l] + rest;
    if rest == [] {
      assert rest + ps == ps && rest + ts == ts;
    } else {
      Literals(rest, ps, ts, false);
    }
  }

  lemma OtherSecond(ps: seq<string>, l: string, m: string, ts: seq<string>)
    requires l != m && l != "+" && l != "*"
    ensures !DeliversLevels(["upb", l] + ps, ["upb", m] + ts, true)
  {
  }

  /** A star and one level behind it take the topics that end in this level. */
  lemma StarThen(l: string, ts: seq<string>, first: bool)
    requires |ts| >= 2 && NoEmptyLevel(ts) && l != "+" && l != "*"
    ensures DeliversLevels(["*", l], ts, first) <==> ts[|ts| - 1] == l
  {
    var n := |ts|;
    assert ["*", l][1..] == [l];
    forall k | 1 <= k <= n ensures DeliversLevels([l], ts[k..], false) <==> k == n - 1 && ts[n - 1] == l {
      if k < n {
        assert [l][1..] == [] && ts[k..][1..] == ts[k + 1..] && ts[k..][0] == ts[k];
      }
    }
    assert DeliversLevels([l], ts[n - 1..], false) <==> ts[n - 1] == l;
    assert StarDelivers([l], ts) <==> ts[n - 1] == l;
  }

  lemma StarTakesRest(ts: seq<string>)
    requires ts != [] && ts[0] != ""
    ensures DeliversLevels(["*"], ts, false)
  {
    assert ["*"][1..] == [] && ts[|ts|..] == [];
    assert DeliversLevels([], ts[|ts|..], false);
  }

  /** Levels a wildcard may start at must be non-empty for `*` to be able to replace `+`. */
  predicate LaterLevelsNonEmpty(ts: seq<string>, first: bool) {
    forall i | 0 <= i < |ts| && (i > 0 || !first) :: ts[i] != ""
  }

  lemma {:induction false} PlusToStar(ps: seq<string>, ts: seq<string>, i: nat, first: bool)
    requires i < |ps| && ps[i] == "+"
    requires DeliversLevels(ps, ts, first) && LaterLevelsNonEmpty(ts, first)
    ensures DeliversLevels(ps[i := "*"], ts, first)
    decreases |ps|
  {
    var qs := ps[i := "*"];
    if i == 0 {
      assert qs[1..] == ps[1..];
    } else if ps[0] == "*" && StarDelivers(ps[1..], ts) {
      assert qs[1..] == ps[1..][i - 1 := "*"];
      var k :| StarMin(ts) <= k <= |ts| && DeliversLevels(ps[1..], ts[k..], false);
      PlusToStar(ps[1..], ts[k..], i - 1, false);
    } else {
      assert qs[1..] == ps[1..][i - 1 := "*"];
      PlusToStar(ps[1..], ts[1..], i - 1, false);
    }
  }

  /** Turning a `+` level of a pattern into `*` never loses a given topic exactly when all levels of
      that topic after the first are non-empty. */
  lemma PlusToStarIff(topic: string, alphabet: string)
    requires Over(topic, alphabet) && WildcardAlphabet(alphabet)
    ensures (forall p, i | Over(p, alphabet) && 0 <= i < |Split(p)| && Split(p)[i] == "+" && Delivers(p, topic) ::
               DeliversLevels(Split(p)[i := "*"], Split(topic), true))
       <==> LaterLevelsNonEmpty(Split(topic), true)
  {
    var ts := Split(topic);
    if LaterLevelsNonEmpty(ts, true) {
      forall p, i | Over(p, alphabet) && 0 <= i < |Split(p)| && Split(p)[i] == "+" && Delivers(p, topic)
        ensures DeliversLevels(Split(p)[i := "*"], ts, true)
      {
        PlusToStar(Split(p), ts, i, true);
      }
    } else {
      var i :| 0 < i < |ts| && ts[i] == "";
      var p := WithLevel(topic, i, "+");
      WithLevelSplits(topic, i, "+", alphabet);
      OwnLevelsDeliver(Split(p), ts, true);
      StarAtEmptyLevel(Split(p)[i := "*"], ts, i, true);
      assert Over(p, alphabet) && Split(p)[i] == "+" && Delivers(p, topic);
    }
  }
}
