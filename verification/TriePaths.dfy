/** Paths in a trie, as the slots taken from the root, and the strings they spell. */
module TriePaths {
  import opened Alphabet

  datatype Path = Root | Step(parent: Path, slot: nat)

  /** The path reached from p by following the characters of a key. */
  ghost function Walk(alphabet: string, p: Path, key: string): Path
    requires Over(key, alphabet)
    decreases |key|
  {
    if key == "" then p else Walk(alphabet, Step(p, Position(alphabet, key[0])), key[1..])
  }

  lemma WalkEmpty(alphabet: string, p: Path, key: string)
    requires key == ""
    ensures Over(key, alphabet) && Walk(alphabet, p, key) == p
  {
  }

  lemma WalkStep(alphabet: string, p: Path, key: string)
    requires Over(key, alphabet) && key != ""
    ensures key[0] in alphabet && Over(key[1..], alphabet) && Position(alphabet, key[0]) < |alphabet|
    ensures Walk(alphabet, p, key) == Walk(alphabet, Step(p, Position(alphabet, key[0])), key[1..])
  {
  }

  lemma WalkStepIff(alphabet: string, p: Path, key: string)
    requires key != "" && key[0] in alphabet
    ensures Position(alphabet, key[0]) < |alphabet|
    ensures Over(key, alphabet) <==> Over(key[1..], alphabet)
    ensures Over(key, alphabet) ==>
              Walk(alphabet, p, key) == Walk(alphabet, Step(p, Position(alphabet, key[0])), key[1..])
  {
    assert key == [key[0]] + key[1..];
  }

  /** What is left of the words once the key is removed below p. */
  ghost function WordsWithout<V>(words: map<Path, V>, alphabet: string, p: Path, key: string): map<Path, V> {
    if Over(key, alphabet) then words - {Walk(alphabet, p, key)} else words
  }

  lemma WordsWithoutStep<V>(words: map<Path, V>, alphabet: string, p: Path, key: string)
    ensures key == "" ==> WordsWithout(words, alphabet, p, key) == words - {p}
    ensures key != "" && key[0] in alphabet ==>
              && Position(alphabet, key[0]) < |alphabet|
              && WordsWithout(words, alphabet, p, key)
                 == WordsWithout(words, alphabet, Step(p, Position(alphabet, key[0])), key[1..])
  {
    if key != "" && key[0] in alphabet {
      WalkStepIff(alphabet, p, key);
    }
  }

  /** Following the key from p along the paths there are comes to a character outside the alphabet. */
  ghost predicate LeavesAlphabet(alphabet: string, paths: set<Path>, p: Path, key: string)
    decreases |key|
  {
    && key != ""
    && (key[0] !in alphabet ||
        (Step(p, Position(alphabet, key[0])) in paths
         && LeavesAlphabet(alphabet, paths, Step(p, Position(alphabet, key[0])), key[1..])))
  }

  lemma LeavesStep(alphabet: string, paths: set<Path>, p: Path, key: string)
    ensures key == "" ==> !LeavesAlphabet(alphabet, paths, p, key)
    ensures key != "" && key[0] !in alphabet ==> LeavesAlphabet(alphabet, paths, p, key) && !Over(key, alphabet)
    ensures key != "" && key[0] in alphabet ==>
              && Position(alphabet, key[0]) < |alphabet|
              && (Over(key, alphabet) <==> Over(key[1..], alphabet))
              && (LeavesAlphabet(alphabet, paths, p, key) <==>
                    && Step(p, Position(alphabet, key[0])) in paths
                    && LeavesAlphabet(alphabet, paths, Step(p, Position(alphabet, key[0])), key[1..]))
  {
    if key != "" && key[0] in alphabet {
      WalkStepIff(alphabet, p, key);
    }
  }

  /** The same by the place of that character: the part of the key in front of it leads to a path. */
  lemma {:induction false} LeavesAt(alphabet: string, paths: set<Path>, p: Path, key: string)
    requires p in paths && PrefixClosed(paths, |alphabet|)
    ensures LeavesAlphabet(alphabet, paths, p, key)
       <==> exists i | 0 <= i < |key| ::
              key[i] !in alphabet && Over(key[..i], alphabet) && Walk(alphabet, p, key[..i]) in paths
    decreases |key|
  {
    if key != "" {
      assert key[..0] == "" && Walk(alphabet, p, "") == p;
      if key[0] in alphabet {
        var q, rest := Step(p, Position(alphabet, key[0])), key[1..];
        forall i | 1 <= i < |key|
          ensures key[i] == rest[i - 1] && (Over(key[..i], alphabet) <==> Over(rest[..i - 1], alphabet))
          ensures Over(key[..i], alphabet) ==> Walk(alphabet, p, key[..i]) == Walk(alphabet, q, rest[..i - 1])
        {
          assert key[..i][1..] == rest[..i - 1];
          WalkStepIff(alphabet, p, key[..i]);
        }
        if q in paths {
          LeavesAt(alphabet, paths, q, rest);
          if i :|
            && 0 <= i < |rest| && rest[i] !in alphabet
            && Over(rest[..i], alphabet) && Walk(alphabet, q, rest[..i]) in paths
          {
            assert key[i + 1] !in alphabet;
          }
          if i :|
            && 0 <= i < |key| && key[i] !in alphabet
            && Over(key[..i], alphabet) && Walk(alphabet, p, key[..i]) in paths
          {
            assert rest[i - 1] !in alphabet;
          }
        } else {
          forall i | 1 <= i < |key| && Over(key[..i], alphabet) ensures Walk(alphabet, p, key[..i]) !in paths {
            WalkExtends(alphabet, q, rest[..i - 1]);
            if Walk(alphabet, p, key[..i]) in paths {
              PrefixesPresent(paths, |alphabet|, q, Walk(alphabet, q, rest[..i - 1]));
            }
          }
        }
      }
    }
  }

  /** Reading a path back. */
  ghost function Spell(alphabet: string, p: Path): string {
    match p
    case Root => ""
    case Step(q, i) => Spell(alphabet, q) + if i < |alphabet| then [alphabet[i]] else ""
  }

  lemma {:induction false} SpellWalk(alphabet: string, p: Path, key: string)
    requires Over(key, alphabet)
    ensures Spell(alphabet, Walk(alphabet, p, key)) == Spell(alphabet, p) + key
    decreases |key|
  {
    if key != "" {
      var q := Step(p, Position(alphabet, key[0]));
      SpellWalk(alphabet, q, key[1..]);
      assert Spell(alphabet, q) == Spell(alphabet, p) + [key[0]];
      assert key == [key[0]] + key[1..];
    }
  }

  /** Different keys lead to different paths. */
  lemma WalkInjective(alphabet: string, u: string, w: string)
    requires Over(u, alphabet) && Over(w, alphabet)
    requires Walk(alphabet, Root, u) == Walk(alphabet, Root, w)
    ensures u == w
  {
    SpellWalk(alphabet, Root, u);
    SpellWalk(alphabet, Root, w);
    assert "" + u == u && "" + w == w;
  }

  lemma {:induction false} WalkConcat(alphabet: string, p: Path, u: string, w: string)
    requires Over(u, alphabet) && Over(w, alphabet)
    ensures Over(u + w, alphabet)
    ensures Walk(alphabet, p, u + w) == Walk(alphabet, Walk(alphabet, p, u), w)
    decreases |u|
  {
    if u == "" {
      assert u + w == w;
    } else {
      WalkConcat(alphabet, Step(p, Position(alphabet, u[0])), u[1..], w);
      assert (u + w)[1..] == u[1..] + w;
    }
  }

  /** Every path but the root continues one of the paths, through a slot of the alphabet. */
  ghost predicate PrefixClosed(paths: set<Path>, n: nat) {
    Root in paths && forall p, i: nat {:trigger Step(p, i)} | Step(p, i) in paths :: p in paths && i < n
  }

  lemma PrefixClosedLess(paths: set<Path>, p: Path, n: nat)
    requires PrefixClosed(paths, n) && !HasChild(paths, p) && p != Root
    ensures PrefixClosed(paths - {p}, n)
  {
    forall q, i: nat {:trigger Step(q, i)} | Step(q, i) in paths - {p} ensures q in paths - {p} && i < n {
      assert Step(q, i) in paths;
    }
  }

  lemma PrefixClosedMore(paths: set<Path>, p: Path, i: nat, n: nat)
    requires PrefixClosed(paths, n) && p in paths && i < n
    ensures PrefixClosed(paths + {Step(p, i)}, n)
  {
  }

  ghost predicate HasChild(paths: set<Path>, p: Path) {
    exists i: nat :: Step(p, i) in paths
  }

  /** Every path that has no child ends a word, the root and one excepted path aside. */
  ghost predicate Pruned(paths: set<Path>, ends: set<Path>, except: Path) {
    forall p | p in paths && p != Root && p != except :: p in ends || HasChild(paths, p)
  }

  /** Going one step down a path of a growing trie. */
  lemma PrunedStep(paths: set<Path>, more: set<Path>, ends: set<Path>, p: Path, i: nat)
    requires Pruned(paths, ends, p) && more == paths + {Step(p, i)}
    ensures Pruned(more, ends, Step(p, i))
  {
    forall q | q in more && q != Root && q != Step(p, i) ensures q in ends || HasChild(more, q) {
      if q == p {
        assert Step(p, i) in more;
      } else if j: nat :| Step(q, j) in paths {
        assert Step(q, j) in more;
      }
    }
  }

  /** The except clause falls away once the excepted path ends a word ... */
  lemma PrunedMarked(paths: set<Path>, ends: set<Path>, more: set<Path>, p: Path)
    requires Pruned(paths, ends, p) && ends <= more && p in more
    ensures Pruned(paths, more, Root)
  {
  }

  /** ... and is all that is needed when it ceases to end one. */
  lemma PrunedUnmarked(paths: set<Path>, ends: set<Path>, less: set<Path>, p: Path)
    requires Pruned(paths, ends, Root) && ends <= less + {p}
    ensures Pruned(paths, less, p)
  {
  }

  /** A path that has a child or ends a word need not be excepted. */
  lemma PrunedBack(paths: set<Path>, ends: set<Path>, p: Path, q: Path)
    requires Pruned(paths, ends, q) && (q == Root || q !in paths || q in ends || HasChild(paths, q))
    ensures Pruned(paths, ends, p)
  {
  }

  lemma PrunedAt(paths: set<Path>, ends: set<Path>, p: Path)
    requires Pruned(paths, ends, Root) && p in paths
    ensures Pruned(paths, ends, p)
    ensures p == Root || p in ends || HasChild(paths, p)
  {
  }

  /** Dropping a childless path can only make its parent childless. */
  lemma PrunedDrop(paths: set<Path>, less: set<Path>, ends: set<Path>, p: Path, i: nat)
    requires Pruned(paths, ends, Step(p, i)) && less == paths - {Step(p, i)}
    ensures Pruned(less, ends, p)
  {
    forall q | q in less && q != Root && q != p ensures q in ends || HasChild(less, q) {
      if q !in ends {
        var j: nat :| Step(q, j) in paths;
        assert Step(q, j) in less;
      }
    }
  }

  /** How many of the first n slots of a path lead to one of `paths`. */
  ghost function CountChildren(paths: set<Path>, p: Path, n: nat): (count: nat) {
    if n == 0 then 0 else CountChildren(paths, p, n - 1) + if Step(p, n - 1) in paths then 1 else 0
  }

  lemma {:induction false} CountNone(paths: set<Path>, p: Path, n: nat)
    ensures CountChildren(paths, p, n) == 0 <==> forall i: nat | i < n :: Step(p, i) !in paths
  {
    if n > 0 {
      CountNone(paths, p, n - 1);
    }
  }

  lemma NoChildrenCounted(paths: set<Path>, p: Path, n: nat)
    requires PrefixClosed(paths, n)
    ensures CountChildren(paths, p, n) == 0 <==> !HasChild(paths, p)
  {
    CountNone(paths, p, n);
  }

  lemma {:induction false} CountSame(paths: set<Path>, more: set<Path>, p: Path, n: nat)
    requires forall i: nat | i < n :: Step(p, i) in paths <==> Step(p, i) in more
    ensures CountChildren(paths, p, n) == CountChildren(more, p, n)
  {
    if n > 0 {
      CountSame(paths, more, p, n - 1);
    }
  }

  lemma {:induction false} CountOneMore(paths: set<Path>, p: Path, i: nat, n: nat)
    requires i < n && Step(p, i) !in paths
    ensures CountChildren(paths + {Step(p, i)}, p, n) == CountChildren(paths, p, n) + 1
  {
    if i == n - 1 {
      CountSame(paths, paths + {Step(p, i)}, p, n - 1);
    } else {
      CountOneMore(paths, p, i, n - 1);
    }
  }

  /** The path is a beginning of another. */
  ghost predicate IsPrefix(p: Path, q: Path) {
    p == q || (q.Step? && IsPrefix(p, q.parent))
  }

  lemma {:induction false} PrefixesPresent(paths: set<Path>, n: nat, p: Path, q: Path)
    requires PrefixClosed(paths, n) && q in paths && IsPrefix(p, q)
    ensures p in paths
  {
    if p != q {
      assert Step(q.parent, q.slot) in paths;
      PrefixesPresent(paths, n, p, q.parent);
    }
  }

  lemma {:induction false} PrefixTransitive(p: Path, q: Path, r: Path)
    requires IsPrefix(p, q) && IsPrefix(q, r)
    ensures IsPrefix(p, r)
    decreases r
  {
    if q != r {
      PrefixTransitive(p, q, r.parent);
    }
  }

  ghost function Depth(p: Path): nat {
    if p.Root? then 0 else 1 + Depth(p.parent)
  }

  lemma {:induction false} WalkExtends(alphabet: string, p: Path, key: string)
    requires Over(key, alphabet)
    ensures IsPrefix(p, Walk(alphabet, p, key))
    decreases |key|
  {
    if key != "" {
      var q := Step(p, Position(alphabet, key[0]));
      WalkExtends(alphabet, q, key[1..]);
      assert IsPrefix(p, p) && IsPrefix(p, q);
      PrefixTransitive(p, q, Walk(alphabet, q, key[1..]));
    }
  }

  lemma {:induction false} PrefixNotDeeper(p: Path, q: Path)
    requires IsPrefix(p, q)
    ensures Depth(p) <= Depth(q) && (p != q ==> Depth(p) < Depth(q))
  {
    if p != q {
      PrefixNotDeeper(p, q.parent);
    }
  }

  /** From a path of a pruned trie one can go down to the end of a word. */
  lemma {:induction false} WordBelow(paths: set<Path>, ends: set<Path>, p: Path, below: set<Path>) returns (w: Path)
    requires Pruned(paths, ends, Root) && p in paths && p != Root
    requires forall q | q in paths && IsPrefix(p, q) && q != p :: q in below
    ensures w in ends && IsPrefix(p, w)
    decreases |below|
  {
    if p in ends {
      return p;
    }
    var i: nat :| Step(p, i) in paths;
    var c := Step(p, i);
    assert IsPrefix(p, p) && IsPrefix(p, c) && Depth(c) == Depth(p) + 1;
    assert c in below;
    assert |below - {c}| < |below|;
    forall q | q in paths && IsPrefix(c, q) && q != c ensures q in below - {c} {
      PrefixTransitive(p, c, q);
      PrefixNotDeeper(c, q);
      PrefixNotDeeper(p, c);
    }
    w := WordBelow(paths, ends, c, below - {c});
    PrefixTransitive(p, c, w);
  }

  /** The paths of a pruned trie are exactly the root and the prefixes of the stored words. */
  lemma PathsArePrefixes(paths: set<Path>, ends: set<Path>, n: nat, p: Path)
    requires PrefixClosed(paths, n) && Pruned(paths, ends, Root) && ends <= paths
    ensures p in paths <==> p == Root || exists w | w in ends :: IsPrefix(p, w)
  {
    if p in paths && p != Root {
      var w := WordBelow(paths, ends, p, paths);
    }
    if w :| w in ends && IsPrefix(p, w) {
      PrefixesPresent(paths, n, p, w);
    }
  }

  /** Hence the words determine the paths. */
  lemma WordsDeterminePaths(a: set<Path>, b: set<Path>, ends: set<Path>, n: nat)
    requires PrefixClosed(a, n) && Pruned(a, ends, Root) && ends <= a
    requires PrefixClosed(b, n) && Pruned(b, ends, Root) && ends <= b
    ensures a == b
  {
    forall p ensures p in a <==> p in b {
      PathsArePrefixes(a, ends, n, p);
      PathsArePrefixes(b, ends, n, p);
    }
  }

  lemma {:induction false} PrefixSpells(alphabet: string, p: Path, q: Path)
    requires IsPrefix(p, q)
    ensures Spell(alphabet, p) <= Spell(alphabet, q)
  {
    if p != q {
      PrefixSpells(alphabet, p, q.parent);
    }
  }

  lemma LongerWalkExtends(alphabet: string, u: string, w: string)
    requires Over(w, alphabet) && u <= w
    ensures Over(u, alphabet)
    ensures IsPrefix(Walk(alphabet, Root, u), Walk(alphabet, Root, w))
  {
    var rest := w[|u|..];
    assert w == u + rest;
    WalkConcat(alphabet, Root, u, rest);
    WalkExtends(alphabet, Walk(alphabet, Root, u), rest);
  }

  /** Entries by string and words by path tell the same. */
  ghost predicate Spelled<V>(alphabet: string, words: map<Path, V>, entries: map<string, V>) {
    && (forall w | w in entries :: Over(w, alphabet) && Walk(alphabet, Root, w) in words
                                   && words[Walk(alphabet, Root, w)] == entries[w])
    && (forall p | p in words :: exists w :: w in entries && Over(w, alphabet) && Walk(alphabet, Root, w) == p)
  }

  lemma SpelledAt<V>(alphabet: string, words: map<Path, V>, entries: map<string, V>, key: string)
    requires Spelled(alphabet, words, entries) && Over(key, alphabet)
    ensures Walk(alphabet, Root, key) in words <==> key in entries
    ensures key in entries ==> words[Walk(alphabet, Root, key)] == entries[key]
  {
    if Walk(alphabet, Root, key) in words {
      var w :| w in entries && Over(w, alphabet) && Walk(alphabet, Root, w) == Walk(alphabet, Root, key);
      WalkInjective(alphabet, key, w);
    }
  }

  lemma SpelledInsert<V>(alphabet: string, words: map<Path, V>, entries: map<string, V>, key: string, value: V)
    requires Spelled(alphabet, words, entries) && Over(key, alphabet)
    ensures Spelled(alphabet, words[Walk(alphabet, Root, key) := value], entries[key := value])
  {
    var p, more := Walk(alphabet, Root, key), entries[key := value];
    var grown := words[p := value];
    forall w | w in more
      ensures Over(w, alphabet) && Walk(alphabet, Root, w) in grown
      ensures grown[Walk(alphabet, Root, w)] == more[w]
    {
      if w != key && Walk(alphabet, Root, w) == p {
        WalkInjective(alphabet, key, w);
      }
    }
    forall q | q in grown
      ensures exists w :: w in more && Over(w, alphabet) && Walk(alphabet, Root, w) == q
    {
      if q == p {
        assert key in more;
      } else {
        var w :| w in entries && Over(w, alphabet) && Walk(alphabet, Root, w) == q;
        assert w in more;
      }
    }
  }

  lemma SpelledRemove<V>(alphabet: string, words: map<Path, V>, entries: map<string, V>, key: string)
    requires Spelled(alphabet, words, entries) && Over(key, alphabet)
    ensures Spelled(alphabet, words - {Walk(alphabet, Root, key)}, entries - {key})
  {
    var p := Walk(alphabet, Root, key);
    forall w | w in entries - {key} ensures Walk(alphabet, Root, w) in words - {p} {
      if Walk(alphabet, Root, w) == p {
        WalkInjective(alphabet, key, w);
      }
    }
    forall q | q in words - {p}
      ensures exists w :: w in entries - {key} && Over(w, alphabet) && Walk(alphabet, Root, w) == q
    {
      var w :| w in entries && Over(w, alphabet) && Walk(alphabet, Root, w) == q;
      assert w in entries - {key};
    }
  }

  lemma WordsWithoutIs<V>(words: map<Path, V>, alphabet: string, p: Path, key: string)
    ensures WordsWithout(words, alphabet, p, key)
         == if Over(key, alphabet) then words - {Walk(alphabet, p, key)} else words
  {
  }

  lemma EntriesAfterRemove<V>(alphabet: string, words: map<Path, V>, after: map<Path, V>, entries: map<string, V>,
                              key: string)
    requires Spelled(alphabet, words, entries)
    requires after == WordsWithout(words, alphabet, Root, key)
    ensures Spelled(alphabet, after, entries - {key})
    ensures |words| - |after| == if key in entries then 1 else 0
  {
    hide *;
    WordsWithoutIs(words, alphabet, Root, key);
    if Over(key, alphabet) {
      SpelledRemove(alphabet, words, entries, key);
      SpelledAt(alphabet, words, entries, key);
      if key in entries {
        OneLess(words, Walk(alphabet, Root, key));
      } else {
        assert after == words;
      }
    } else {
      NotStored(alphabet, words, entries, key);
      assert entries - {key} == entries;
    }
  }

  lemma NotStored<V>(alphabet: string, words: map<Path, V>, entries: map<string, V>, key: string)
    requires Spelled(alphabet, words, entries) && !Over(key, alphabet)
    ensures key !in entries
  {
  }

  lemma OneLess<K, V>(m: map<K, V>, k: K)
    requires k in m
    ensures |m - {k}| == |m| - 1
  {
    assert m.Keys == (m - {k}).Keys + {k};
  }

  lemma OneMore<K, V>(m: map<K, V>, k: K, v: V)
    ensures |m[k := v]| == |m| + if k in m then 0 else 1
  {
    assert m[k := v].Keys == m.Keys + {k};
  }

  lemma {:induction false} SpelledSize<V>(alphabet: string, words: map<Path, V>, entries: map<string, V>)
    requires Spelled(alphabet, words, entries)
    ensures |words| == |entries|
    decreases |entries|
  {
    if key :| key in entries {
      var p := Walk(alphabet, Root, key);
      assert p in words;
      SpelledRemove(alphabet, words, entries, key);
      hide *;
      OneLess(words, p);
      OneLess(entries, key);
      SpelledSize(alphabet, words - {p}, entries - {key});
    } else {
      assert words == map[] && entries == map[];
    }
  }

  /** There is a node for q: it is the empty string or begins a key. */
  ghost predicate Reached(keys: set<string>, q: string) {
    q == "" || exists w | w in keys :: q <= w
  }

  /** Looking up the key, one comes to a character outside the alphabet while there still are nodes. */
  ghost predicate GoesAstray(keys: set<string>, alphabet: string, key: string) {
    exists i | 0 <= i < |key| :: key[i] !in alphabet && Over(key[..i], alphabet) && Reached(keys, key[..i])
  }

  /** The paths, read as strings, are the empty string and the prefixes of the stored keys. */
  lemma PathsSpellPrefixes<V>(alphabet: string, paths: set<Path>, words: map<Path, V>, entries: map<string, V>,
                              q: string)
    requires PrefixClosed(paths, |alphabet|) && Pruned(paths, words.Keys, Root) && words.Keys <= paths
    requires Spelled(alphabet, words, entries) && Over(q, alphabet)
    ensures Walk(alphabet, Root, q) in paths <==> Reached(entries.Keys, q)
  {
    var p := Walk(alphabet, Root, q);
    PathsArePrefixes(paths, words.Keys, |alphabet|, p);
    if p in paths && q != "" {
      RootOnlyEmpty(alphabet, q);
      var r :| r in words.Keys && IsPrefix(p, r);
      var w :| w in entries && Over(w, alphabet) && Walk(alphabet, Root, w) == r;
      PrefixOfKey(alphabet, q, w);
      assert w in entries.Keys;
    }
    if w :| w in entries.Keys && q <= w {
      LongerWalkExtends(alphabet, q, w);
    }
  }

  lemma RootOnlyEmpty(alphabet: string, q: string)
    requires Over(q, alphabet) && q != ""
    ensures Walk(alphabet, Root, q) != Root
  {
    SpellWalk(alphabet, Root, q);
  }

  lemma PrefixOfKey(alphabet: string, q: string, w: string)
    requires Over(q, alphabet) && Over(w, alphabet)
    requires IsPrefix(Walk(alphabet, Root, q), Walk(alphabet, Root, w))
    ensures q <= w
  {
    SpellWalk(alphabet, Root, q);
    SpellWalk(alphabet, Root, w);
    assert "" + q == q && "" + w == w;
    PrefixSpells(alphabet, Walk(alphabet, Root, q), Walk(alphabet, Root, w));
  }
}
