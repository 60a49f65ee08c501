/** Topics and patterns as sequences of levels, the strings between the slashes. */
module Levels {

  /** The length of the first level: the position of the first slash, or the whole length. */
  function LevelEnd(s: string): (n: nat)
    ensures n <= |s| && '/' !in s[..n]
    ensures n < |s| ==> s[n] == '/'
  {
    if s == "" || s[0] == '/' then 0 else 1 + LevelEnd(s[1..])
  }

  function Split(s: string): (levels: seq<string>)
    ensures |levels| > 0 && levels[0] == s[..LevelEnd(s)]
    decreases |s|
  {
    var n := LevelEnd(s);
    if n == |s| then [s] else [s[..n]] + Split(s[n + 1..])
  }

  function Join(levels: seq<string>): string
    requires |levels| > 0
  {
    if |levels| == 1 then levels[0] else levels[0] + "/" + Join(levels[1..])
  }

  ghost predicate NoSlash(levels: seq<string>) {
    forall l | l in levels :: '/' !in l
  }

  /** A topic in which every level has at least one character. */
  predicate NoEmptyLevel(levels: seq<string>) {
    forall i | 0 <= i < |levels| :: levels[i] != ""
  }

  lemma {:induction false} LevelEndUnique(s: string, n: nat)
    requires n <= |s| && '/' !in s[..n]
    requires n < |s| ==> s[n] == '/'
    ensures LevelEnd(s) == n
  {
    if n > 0 {
      assert s[0] == s[..n][0];
      assert s[1..][..n - 1] == s[..n][1..];
      LevelEndUnique(s[1..], n - 1);
    }
  }

  lemma {:induction false} SplitNoSlash(s: string)
    ensures NoSlash(Split(s))
    decreases |s|
  {
    var n := LevelEnd(s);
    if n < |s| {
      SplitNoSlash(s[n + 1..]);
    } else {
      assert s == s[..n];
    }
  }

  lemma JoinCons(head: string, tail: seq<string>)
    requires tail != []
    ensures Join([head] + tail) == head + "/" + Join(tail)
  {
    assert ([head] + tail)[1..] == tail;
  }

  lemma CutAt(s: string, n: nat)
    requires n < |s| && s[n] == '/'
    ensures s == s[..n] + "/" + s[n + 1..]
  {
  }

  lemma {:induction false} JoinSplit(s: string)
    ensures Join(Split(s)) == s
    decreases |s|
  {
    var n := LevelEnd(s);
    if n < |s| {
      JoinSplit(s[n + 1..]);
      JoinCons(s[..n], Split(s[n + 1..]));
      CutAt(s, n);
    } else {
      assert s == s[..n];
    }
  }

  lemma JoinHead(levels: seq<string>, s: string, n: nat)
    requires |levels| > 0 && s == Join(levels) && n == |levels[0]|
    ensures n <= |s| && s[..n] == levels[0]
    ensures |levels| == 1 ==> n == |s|
    ensures |levels| > 1 ==> n < |s| && s[n] == '/' && s[n + 1..] == Join(levels[1..])
  {
    if |levels| > 1 {
      assert s == (levels[0] + "/") + Join(levels[1..]);
    }
  }

  lemma {:induction false} SplitJoin(levels: seq<string>)
    requires |levels| > 0 && NoSlash(levels)
    ensures Split(Join(levels)) == levels
    decreases |levels|
  {
    var s, n := Join(levels), |levels[0]|;
    JoinHead(levels, s, n);
    LevelEndUnique(s, n);
    if |levels| > 1 {
      assert Split(s) == [levels[0]] + Split(Join(levels[1..]));
      SplitJoin(levels[1..]);
      hide *;
      assert levels == [levels[0]] + levels[1..];
    } else {
      assert levels == [levels[0]];
    }
  }

  /** Where a level may end: at the end of the string or in front of a slash. */
  predicate AtBoundary(s: string) {
    s == "" || s[0] == '/'
  }

  /** The levels that follow a boundary. */
  function Following(s: string): (levels: seq<string>)
    requires AtBoundary(s)
    ensures s == "" <==> levels == []
  {
    if s == "" then [] else Split(s[1..])
  }

  lemma SplitAtEnd(s: string)
    ensures AtBoundary(s[LevelEnd(s)..])
    ensures Split(s) == [s[..LevelEnd(s)]] + Following(s[LevelEnd(s)..])
  {
    var n := LevelEnd(s);
    if n < |s| {
      assert s[n..][1..] == s[n + 1..];
    } else {
      assert s[..n] == s;
    }
  }

  /** What is left of s after its first k levels. */
  function After(s: string, k: nat): (rest: string)
    ensures AtBoundary(rest)
  {
    if k <= 1 then s[LevelEnd(s)..]
    else
      var r := After(s, k - 1);
      if r == "" then "" else r[1..][LevelEnd(r[1..])..]
  }

  lemma {:induction false} AfterLevels(s: string, k: nat)
    requires 1 <= k <= |Split(s)|
    ensures Following(After(s, k)) == Split(s)[k..]
  {
    if k == 1 {
      SplitAtEnd(s);
    } else {
      AfterLevels(s, k - 1);
      var r := After(s, k - 1);
      assert Following(r) == Split(r[1..]) == Split(s)[k - 1..];
      SplitAtEnd(r[1..]);
      assert Split(s)[k - 1..][1..] == Split(s)[k..];
    }
  }
}
