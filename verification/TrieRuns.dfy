/** What holds of a trie over whole sequences of inserts and removals. */
module TrieRuns {
  import opened Alphabet
  import opened KeyRuns
  import opened Options
  import opened TriePaths
  import opened Trie

  // ---------- shape ----------

  /** What can be seen of a node: its value and end mark, the slots that have a child, and their count. */
  datatype NodeShape<V> = NodeShape(value: Option<V>, endOfWord: bool, slots: set<nat>, nChildren: nat)

  ghost function Slots<V>(node: TrieNode<V>): set<nat>
    reads node, node.children
  {
    set i: nat | i < node.children.Length && node.children[i] != null
  }

  /** The whole trie as it can be seen from the root. */
  ghost function Drawing<V>(trie: Trie<V>): map<Path, NodeShape<V>>
    requires trie.Linked()
    reads trie, trie.Repr
  {
    map p {:trigger trie.nodes[p]} | p in trie.nodes ::
      NodeShape(trie.nodes[p].value, trie.nodes[p].endOfWord, Slots(trie.nodes[p]), trie.nodes[p].nChildren)
  }

  ghost function SlotsOf(paths: set<Path>, p: Path, n: nat): set<nat> {
    set i: nat | i < n && Step(p, i) in paths
  }

  ghost function DrawingOf<V>(paths: set<Path>, words: map<Path, V>, n: nat): map<Path, NodeShape<V>> {
    map p | p in paths ::
      NodeShape(if p in words then Some(words[p]) else None, p in words, SlotsOf(paths, p, n),
                CountChildren(paths, p, n))
  }

  /** The drawing has every node, with its value, its mark, the places of its children and their number. */
  lemma DrawingShows<V>(trie: Trie<V>, p: Path)
    requires trie.Linked()
    ensures p in Drawing(trie) <==> p in trie.nodes
    ensures p in trie.nodes ==>
              && Drawing(trie)[p].value == trie.nodes[p].value && Drawing(trie)[p].endOfWord == trie.nodes[p].endOfWord
              && Drawing(trie)[p].nChildren == trie.nodes[p].nChildren
              && forall i: nat :: i in Drawing(trie)[p].slots <==>
                                  i < trie.nodes[p].children.Length && trie.nodes[p].children[i] != null
  {
  }

  lemma SlotsAre<V>(trie: Trie<V>, p: Path)
    requires trie.Linked() && p in trie.nodes
    ensures trie.nodes[p].children.Length == |trie.alphabet|
    ensures Slots(trie.nodes[p]) == SlotsOf(trie.nodes.Keys, p, |trie.alphabet|)
    ensures trie.nodes[p].nChildren == CountChildren(trie.nodes.Keys, p, |trie.alphabet|)
  {
    trie.NodesApart(p);
    assert trie.NodeOk(p);
    forall i: nat | i < |trie.alphabet|
      ensures trie.nodes[p].children[i] != null <==> Step(p, i) in trie.nodes
    {
      trie.ChildInSlot(p, i);
    }
  }

  lemma DrawingIs<V>(trie: Trie<V>)
    requires trie.Linked()
    ensures Drawing(trie) == DrawingOf(trie.nodes.Keys, trie.words, |trie.alphabet|)
  {
    forall p | p in trie.nodes
      ensures Drawing(trie)[p] == DrawingOf(trie.nodes.Keys, trie.words, |trie.alphabet|)[p]
    {
      trie.EndFlag(p);
      SlotsAre(trie, p);
    }
  }

  lemma {:induction false} SlotsCounted(paths: set<Path>, p: Path, n: nat)
    ensures CountChildren(paths, p, n) == |SlotsOf(paths, p, n)|
  {
    if n == 0 {
      assert SlotsOf(paths, p, 0) == {};
    } else {
      SlotsCounted(paths, p, n - 1);
      assert SlotsOf(paths, p, n) == SlotsOf(paths, p, n - 1) + if Step(p, n - 1) in paths then {n - 1} else {};
    }
  }

  /** The counters of the trie and of each node, and what the leaves are. */
  lemma CountersExact<V>(trie: Trie<V>, p: Path)
    requires trie.Valid() && p in trie.nodes
    ensures trie.nNodes == |trie.nodes|
    ensures trie.nodes[p].nChildren == |Slots(trie.nodes[p])|
    ensures p != Root && trie.nodes[p].nChildren == 0 ==> trie.nodes[p].endOfWord
    ensures p == Root || exists w | w in trie.words :: IsPrefix(p, w)
  {
    SlotsAre(trie, p);
    SlotsCounted(trie.nodes.Keys, p, |trie.alphabet|);
    trie.EndFlag(p);
    PathsArePrefixes(trie.nodes.Keys, trie.words.Keys, |trie.alphabet|, p);
  }

  lemma EntriesDetermineWords<V>(alphabet: string, a: map<Path, V>, b: map<Path, V>, entries: map<string, V>)
    requires Spelled(alphabet, a, entries) && Spelled(alphabet, b, entries)
    ensures a == b
  {
    forall p ensures p in a <==> p in b {
    }
    forall p | p in a ensures a[p] == b[p] {
      var w :| w in entries && Over(w, alphabet) && Walk(alphabet, Root, w) == p;
    }
  }

  lemma EntriesDetermineDrawing<V>(alphabet: string, a: set<Path>, aWords: map<Path, V>,
                                   b: set<Path>, bWords: map<Path, V>, entries: map<string, V>)
    requires PrefixClosed(a, |alphabet|) && Pruned(a, aWords.Keys, Root) && aWords.Keys <= a
    requires PrefixClosed(b, |alphabet|) && Pruned(b, bWords.Keys, Root) && bWords.Keys <= b
    requires Spelled(alphabet, aWords, entries) && Spelled(alphabet, bWords, entries)
    ensures a == b && DrawingOf(a, aWords, |alphabet|) == DrawingOf(b, bWords, |alphabet|)
  {
    EntriesDetermineWords(alphabet, aWords, bWords, entries);
    WordsDeterminePaths(a, b, aWords.Keys, |alphabet|);
  }

  lemma DrawingFacts<V>(trie: Trie<V>)
    requires trie.Valid()
    ensures trie.Linked() && trie.nNodes == |trie.nodes.Keys|
    ensures PrefixClosed(trie.nodes.Keys, |trie.alphabet|) && Pruned(trie.nodes.Keys, trie.words.Keys, Root)
    ensures trie.words.Keys <= trie.nodes.Keys && Spelled(trie.alphabet, trie.words, trie.entries)
    ensures Drawing(trie) == DrawingOf(trie.nodes.Keys, trie.words, |trie.alphabet|)
  {
    DrawingIs(trie);
  }

  /** Two tries with the same entries look the same, however they came about. */
  lemma Canonical<V>(a: Trie<V>, b: Trie<V>)
    requires a.Valid() && b.Valid() && a.alphabet == b.alphabet && a.entries == b.entries
    ensures a.Linked() && b.Linked() && Drawing(a) == Drawing(b) && a.nNodes == b.nNodes
  {
    hide *;
    DrawingFacts(a);
    DrawingFacts(b);
    EntriesDetermineDrawing(a.alphabet, a.nodes.Keys, a.words, b.nodes.Keys, b.words, a.entries);
  }

  /** Inserting a key that is not stored and removing it again leaves no trace. */
  method InsertAndRemove<V>(trie: Trie<V>, key: string, value: V)
    requires trie.Valid() && Over(key, trie.alphabet) && key !in trie.entries
    modifies trie.Repr
    ensures trie.Valid() && trie.Linked() && old(trie.Linked())
    ensures trie.entries == old(trie.entries) && trie.size == old(trie.size) && trie.nNodes == old(trie.nNodes)
    ensures Drawing(trie) == old(Drawing(trie))
  {
    hide *;
    DrawingFacts(trie);
    ghost var paths, words := trie.nodes.Keys, trie.words;
    var ok := trie.Insert(key, value);
    trie.Remove(key);
    assert trie.entries == old(trie.entries);
    DrawingFacts(trie);
    EntriesDetermineDrawing(trie.alphabet, paths, words, trie.nodes.Keys, trie.words, trie.entries);
  }

  // ---------- the count of keys over runs ----------

  /** `size` never falls short of the number of keys. */
  lemma SizeFloor<V>(trie: Trie<V>)
    requires trie.Valid()
    ensures |trie.entries| <= trie.size
  {
    SpelledSize(trie.alphabet, trie.words, trie.entries);
  }

  /** After any sequence of inserts and removals, `size` is the number of stored keys plus the number of
      inserts of keys already stored; it is the number of keys just when there was no such insert. */
  method Perform<V>(alphabet: string, ops: seq<Op<V>>) returns (trie: Trie<V>)
    requires forall op | op in ops && op.Store? :: Over(op.key, alphabet)
    ensures trie.Valid() && fresh(trie.Repr) && trie.alphabet == alphabet && trie.entries == Entries(ops)
    ensures trie.size == |trie.entries| + Repeats(ops)
    ensures trie.size == |trie.entries| <==> forall i | 0 <= i < |ops| :: !RepeatsAt(ops, i)
  {
    hide *;
    trie := new Trie<V>(alphabet);
    NoEntries(ops);
    for i := 0 to |ops|
      invariant trie.Valid() && fresh(trie.Repr) && trie.alphabet == alphabet && trie.entries == Entries(ops[..i])
      invariant trie.size == |trie.entries| + Repeats(ops[..i])
    {
      EntriesMore(ops, i);
      AppliedIs(trie.entries, trie.size, ops[i]);
      match ops[i] {
        case Store(key, value) => var _ := trie.Insert(key, value);
        case Drop(key) => trie.Remove(key);
      }
    }
    assert ops[..|ops|] == ops;
    RepeatsCounted(ops);
  }

  /** The simplest run that overcounts: a key inserted twice is one key, and `size` is two. */
  method InsertTwice<V>(alphabet: string, key: string, value: V) returns (trie: Trie<V>)
    requires Over(key, alphabet)
    ensures trie.Valid() && trie.entries == map[key := value] && |trie.entries| == 1 && trie.size == 2
    ensures trie.entries == Entries([Store(key, value), Store(key, value)])
    ensures RepeatsAt([Store(key, value), Store(key, value)], 1)
  {
    hide *;
    trie := new Trie<V>(alphabet);
    var _ := trie.Insert(key, value);
    var _ := trie.Insert(key, value);
    assert trie.entries == map[key := value];
    TwiceStored(key, value);
  }
}
