/** The subscription trie of trie.c: nodes with a fixed array of child slots, one slot for each
    position of the alphabet. */
module Trie {
  import opened Alphabet
  import opened Options
  import opened TriePaths

  /** The fields of a node as a value. */
  datatype NodeView<V> = NodeView(value: Option<V>, endOfWord: bool, kids: seq<TrieNode?<V>>, nChildren: nat)

  class TrieNode<V> {
    var value: Option<V>
    var endOfWord: bool
    const children: array<TrieNode?<V>>
    var nChildren: nat
    ghost const path: Path

    /** trie_node_create: no value, no word, every slot empty. */
    constructor (alphabetSize: nat, ghost path: Path)
      ensures this.path == path && fresh(children)
      ensures View() == EmptyView(alphabetSize)
    {
      children := new TrieNode?<V>[alphabetSize](_ => null);
      endOfWord := false;
      nChildren := 0;
      value := None;
      this.path := path;
    }

    ghost function View(): NodeView<V>
      reads this, children
    {
      NodeView(value, endOfWord, children[..], nChildren)
    }
  }

  ghost function EmptyView<V>(n: nat): NodeView<V> {
    NodeView(None, false, seq(n, _ => null), 0)
  }

  /** What the fields of the node at p must be, given all nodes and the words stored. */
  ghost predicate Fits<V>(v: NodeView<V>, p: Path, nodes: map<Path, TrieNode<V>>, words: map<Path, V>, n: nat) {
    && |v.kids| == n
    && (forall i | 0 <= i < n :: v.kids[i] == if Step(p, i) in nodes then nodes[Step(p, i)] else null)
    && v.nChildren == CountChildren(nodes.Keys, p, n)
    && v.endOfWord == (p in words)
    && v.value == if p in words then Some(words[p]) else None
  }

  /** Whether p ends a word concerns the fields of p only. */
  lemma FitsWords<V>(v: NodeView<V>, p: Path, r: Path, nodes: map<Path, TrieNode<V>>, words: map<Path, V>,
                     after: map<Path, V>, n: nat)
    requires Fits(v, r, nodes, words, n) && r != p && after - {p} == words - {p}
    ensures Fits(v, r, nodes, after, n)
  {
    assert r in words - {p} <==> r in after - {p};
  }

  lemma FitsEnd<V>(v: NodeView<V>, p: Path, nodes: map<Path, TrieNode<V>>, words: map<Path, V>, after: map<Path, V>,
                   n: nat)
    requires Fits(v, p, nodes, words, n)
    ensures Fits(v.(endOfWord := p in after, value := if p in after then Some(after[p]) else None), p, nodes, after, n)
  {
  }

  /** Adding or dropping a child of p concerns the slots of p only. */
  lemma FitsElsewhere<V>(v: NodeView<V>, p: Path, i: nat, r: Path, n: nat,
                         nodes: map<Path, TrieNode<V>>, after: map<Path, TrieNode<V>>, words: map<Path, V>)
    requires Fits(v, r, nodes, words, n) && r != p
    requires after - {Step(p, i)} == nodes - {Step(p, i)}
    ensures Fits(v, r, after, words, n)
  {
    forall j: nat | j < n
      ensures Step(r, j) in nodes <==> Step(r, j) in after
      ensures Step(r, j) in nodes ==> nodes[Step(r, j)] == after[Step(r, j)]
    {
      assert Step(r, j) in nodes <==> Step(r, j) in nodes - {Step(p, i)};
      assert Step(r, j) in after <==> Step(r, j) in after - {Step(p, i)};
    }
    CountSame(nodes.Keys, after.Keys, r, n);
  }

  lemma FitsNewChild<V>(v: NodeView<V>, p: Path, i: nat, child: TrieNode<V>, n: nat,
                        nodes: map<Path, TrieNode<V>>, words: map<Path, V>)
    requires Fits(v, p, nodes, words, n) && i < n && Step(p, i) !in nodes
    ensures Fits(v.(kids := v.kids[i := child], nChildren := v.nChildren + 1), p, nodes[Step(p, i) := child], words, n)
  {
    assert nodes[Step(p, i) := child].Keys == nodes.Keys + {Step(p, i)};
    CountOneMore(nodes.Keys, p, i, n);
  }

  lemma FitsNewLeaf<V>(p: Path, child: TrieNode<V>, n: nat, nodes: map<Path, TrieNode<V>>, words: map<Path, V>)
    requires PrefixClosed(nodes.Keys, n) && p !in nodes && words.Keys <= nodes.Keys
    ensures Fits(EmptyView(n), p, nodes[p := child], words, n)
  {
    forall i: nat ensures Step(p, i) !in nodes[p := child] {
      assert Depth(Step(p, i)) != Depth(p);
    }
    CountNone(nodes[p := child].Keys, p, n);
  }

  lemma FitsLostChild<V>(v: NodeView<V>, p: Path, i: nat, n: nat, nodes: map<Path, TrieNode<V>>, words: map<Path, V>)
    requires Fits(v, p, nodes, words, n) && i < n && Step(p, i) in nodes
    ensures v.nChildren > 0
    ensures Fits(v.(kids := v.kids[i := null], nChildren := v.nChildren - 1), p, nodes - {Step(p, i)}, words, n)
  {
    var rest := nodes - {Step(p, i)};
    assert rest.Keys + {Step(p, i)} == nodes.Keys;
    CountOneMore(rest.Keys, p, i, n);
  }

  class Trie<V> {
    const alphabet: string
    const root: TrieNode<V>
    var size: nat
    var nNodes: nat

    ghost var nodes: map<Path, TrieNode<V>>                // the node at each path
    ghost var owner: map<array<TrieNode?<V>>, Path>        // the path of the node each slot array belongs to
    ghost var words: map<Path, V>                          // the value of each path that ends a word
    ghost var entries: map<string, V>                      // the same by the string that the path spells
    ghost var Repr: set<object>

    /** The node at p is where it should be and apart from the others. */
    ghost predicate Placed(p: Path)
      requires p in nodes
      reads this`nodes, this`owner, this`Repr, nodes[p]
    {
      && nodes[p] in Repr && nodes[p].children in Repr
      && nodes[p].path == p
      && nodes[p].children in owner && owner[nodes[p].children] == p
    }

    ghost predicate NodeOk(p: Path)
      requires p in nodes
      reads this`nodes, this`owner, this`words, this`Repr, nodes[p], nodes[p].children
    {
      Placed(p) && Fits(nodes[p].View(), p, nodes, words, |alphabet|)
    }

    ghost predicate Shape()
      reads this`nodes, this`words, this`Repr, this`nNodes
    {
      && this in Repr
      && PrefixClosed(nodes.Keys, |alphabet|)
      && nodes[Root] == root
      && words.Keys <= nodes.Keys
      && nNodes == |nodes|
    }

    /** The nodes form a tree that agrees with `words`. */
    ghost predicate Linked()
      reads this`nodes, this`owner, this`words, this`Repr, this`nNodes, Repr - {this}
    {
      Shape() && forall p {:trigger nodes[p]} | p in nodes :: nodes[p] in Repr && nodes[p].children in Repr && NodeOk(p)
    }

    /** The object invariant between calls. */
    ghost predicate Valid()
      reads this, Repr
      ensures Valid() ==> this in Repr
    {
      && Linked()
      && Pruned(nodes.Keys, words.Keys, Root)
      && |words| <= size
      && Spelled(alphabet, words, entries)
    }

    /** trie_create: the trie of a single node, which is neutral. */
    constructor (alphabet: string)
      ensures Valid() && fresh(Repr)
      ensures this.alphabet == alphabet && entries == map[] && size == 0 && nNodes == 1
    {
      this.alphabet := alphabet;
      var r := new TrieNode<V>(|alphabet|, Root);
      root := r;
      nNodes := 1;
      size := 0;
      nodes := map[Root := r];
      owner := map[r.children := Root];
      words := map[];
      entries := map[];
      Repr := {this, r, r.children};
      new;
      CountNone(nodes.Keys, Root, |alphabet|);
    }

    /** Different paths have different nodes with different slot arrays. */
    lemma NodesApart(p: Path)
      requires Linked() && p in nodes
      ensures nodes[p].path == p && nodes[p].children.Length == |nodes[p].View().kids| == |alphabet|
      ensures nodes[p].children in owner && owner[nodes[p].children] == p
      ensures forall r {:trigger nodes[r]} | r in nodes ::
                && nodes[r] in Repr && nodes[r].children in Repr
                && (r != p ==> nodes[r] != nodes[p] && nodes[r].children != nodes[p].children)
    {
      assert forall r {:trigger nodes[r]} | r in nodes :: NodeOk(r);
    }

    /** The assignments that add a child, with what they do to each field. */
    method AttachChild(node: TrieNode<V>, i: nat) returns (child: TrieNode<V>)
      requires i < |alphabet| && node.children.Length == |alphabet|
      modifies this`nNodes, this`nodes, this`owner, this`Repr, node`nChildren, node.children
      ensures fresh(child) && fresh(child.children)
      ensures child.View() == EmptyView(|alphabet|) && child.path == Step(node.path, i)
      ensures node.View() == old(node.View()).(kids := old(node.View()).kids[i := child],
                                                      nChildren := old(node.View()).nChildren + 1)
      ensures nNodes == old(nNodes) + 1
      ensures nodes == old(nodes)[child.path := child] && owner == old(owner)[child.children := child.path]
      ensures Repr == old(Repr) + {child, child.children}
    {
      child := new TrieNode<V>(|alphabet|, Step(node.path, i));
      node.children[i] := child;
      node.nChildren := node.nChildren + 1;
      nNodes := nNodes + 1;
      nodes := nodes[child.path := child];
      owner := owner[child.children := child.path];
      Repr := Repr + {child, child.children};
    }

    /** A node other than the parent keeps its place and its fields. */
    twostate lemma OtherKept(new p: Path, new i: nat, new r: Path)
      requires old(Linked())
      requires old(nodes) - {Step(p, i)} == nodes - {Step(p, i)}
      requires words == old(words)
      requires r in old(nodes) && r in nodes && r != p && r != Step(p, i)
      requires nodes[r].View() == old(nodes[r].View())
      requires Placed(r)
      ensures NodeOk(r)
    {
      assert r in nodes - {Step(p, i)} && r in old(nodes) - {Step(p, i)};
      assert old(NodeOk(r));
      FitsElsewhere(nodes[r].View(), p, i, r, |alphabet|, old(nodes), nodes, words);
    }

    twostate lemma LinkedAfterAttach(new p: Path, new i: nat, new child: TrieNode<V>)
      requires old(Linked()) && p in old(nodes) && i < |alphabet| && Step(p, i) !in old(nodes)
      requires nodes == old(nodes)[Step(p, i) := child] && nNodes == old(nNodes) + 1 && words == old(words)
      requires Repr == old(Repr) + {child, child.children} && child.path == Step(p, i)
      requires child.children !in old(Repr) && owner == old(owner)[child.children := child.path]
      requires child.View() == EmptyView(|alphabet|)
      requires old(nodes[p].View()).kids != []
      requires nodes[p].View() == old(nodes[p].View()).(kids := old(nodes[p].View()).kids[i := child],
                                                       nChildren := old(nodes[p].View()).nChildren + 1)
      requires forall r {:trigger old(nodes)[r]} | r in old(nodes) && r != p :: nodes[r].View() == old(nodes[r].View())
      ensures Linked()
    {
      hide Fits, PrefixClosed;
      assert Shape() by {
        assert nodes.Keys == old(nodes.Keys) + {Step(p, i)};
        PrefixClosedMore(old(nodes.Keys), p, i, |alphabet|);
      }
      assert NodeOk(Step(p, i)) by {
        FitsNewLeaf(Step(p, i), child, |alphabet|, old(nodes), words);
      }
      assert NodeOk(p) by {
        assert old(NodeOk(p));
        FitsNewChild(old(nodes[p].View()), p, i, child, |alphabet|, old(nodes), words);
      }
      forall r {:trigger nodes[r]} | r in old(nodes) && r != p ensures NodeOk(r) {
        assert old(Placed(r));
        OtherKept(p, i, r);
      }
    }

    /** Gives a node a new child under alphabet position i. */
    method CreateChild(node: TrieNode<V>, i: nat)
      requires Linked() && node.path in nodes && nodes[node.path] == node && i < |alphabet|
      requires Step(node.path, i) !in nodes
      modifies this`nNodes, this`nodes, this`owner, this`Repr, node`nChildren, node.children
      ensures Linked() && fresh(Repr - old(Repr)) && old(Repr) <= Repr
      ensures nodes.Keys == old(nodes.Keys) + {Step(node.path, i)}
      ensures nodes[node.path] == node
    {
      hide *;
      NodesApart(node.path);
      var child := AttachChild(node, i);
      assert nodes.Keys == old(nodes.Keys) + {Step(node.path, i)};
      assert Linked() by {
        LinkedAfterAttach(node.path, i, child);
      }
    }

    /** The assignments that drop a child. */
    method DetachChild(node: TrieNode<V>, i: nat)
      requires i < node.children.Length && node.nChildren > 0 && nNodes > 0
      modifies this`nNodes, this`nodes, node`nChildren, node.children
      ensures node.View() == old(node.View()).(kids := old(node.View()).kids[i := null],
                                                      nChildren := old(node.View()).nChildren - 1)
      ensures nNodes == old(nNodes) - 1
      ensures nodes == old(nodes) - {Step(node.path, i)}
    {
      node.children[i] := null;
      node.nChildren := node.nChildren - 1;
      nNodes := nNodes - 1;
      nodes := nodes - {Step(node.path, i)};
    }

    twostate lemma LinkedAfterDetach(new p: Path, new i: nat)
      requires old(Linked()) && p in old(nodes) && i < |alphabet| && Step(p, i) in old(nodes)
      requires !HasChild(old(nodes.Keys), Step(p, i)) && Step(p, i) !in words
      requires nodes == old(nodes) - {Step(p, i)} && p in nodes && nNodes == old(nNodes) - 1 && words == old(words)
      requires Repr == old(Repr) && owner == old(owner)
      requires i < |old(nodes[p].View()).kids| && old(nodes[p].View()).nChildren > 0
      requires nodes[p].View() == old(nodes[p].View()).(kids := old(nodes[p].View()).kids[i := null],
                                                       nChildren := old(nodes[p].View()).nChildren - 1)
      requires forall r {:trigger old(nodes)[r]} | r in nodes && r != p :: nodes[r].View() == old(nodes[r].View())
      ensures Linked()
    {
      hide Fits, PrefixClosed, HasChild;
      assert Shape() by {
        assert nodes.Keys == old(nodes.Keys) - {Step(p, i)};
        PrefixClosedLess(old(nodes.Keys), Step(p, i), |alphabet|);
        OneLess(old(nodes), Step(p, i));
      }
      assert NodeOk(p) by {
        assert old(NodeOk(p));
        FitsLostChild(old(nodes[p].View()), p, i, |alphabet|, old(nodes), words);
      }
      forall r {:trigger nodes[r]} | r in nodes && r != p ensures NodeOk(r) {
        assert old(NodeOk(r));
        OtherKept(p, i, r);
      }
    }

    lemma NodesCounted(p: Path, i: nat)
      requires Linked() && p in nodes && i < |alphabet|
      ensures nNodes > 0 && Step(p, i) != p
      ensures nodes[p].View().kids[i] == if Step(p, i) in nodes then nodes[Step(p, i)] else null
      ensures Step(p, i) in nodes ==> nodes[p].nChildren > 0
    {
      assert NodeOk(p) && Depth(Step(p, i)) != Depth(p);
      assert |nodes - {p}| < |nodes| by {
        OneLess(nodes, p);
      }
      CountNone(nodes.Keys, p, |alphabet|);
    }

    /** Removes the childless node under alphabet position i, which no longer ends a word. */
    method DropChild(node: TrieNode<V>, i: nat)
      requires Linked() && node.path in nodes && nodes[node.path] == node && i < |alphabet|
      requires Step(node.path, i) in nodes && Step(node.path, i) !in words
      requires !HasChild(nodes.Keys, Step(node.path, i))
      modifies this`nNodes, this`nodes, node`nChildren, node.children
      ensures Linked()
      ensures nodes == old(nodes) - {Step(node.path, i)}
      ensures node.path in nodes && nodes[node.path] == node
    {
      hide *;
      NodesApart(node.path);
      NodesCounted(node.path, i);
      DetachChild(node, i);
      assert nodes[node.path] == node;
      assert Linked() by {
        LinkedAfterDetach(node.path, i);
      }
    }

    twostate lemma LinkedAfterMark(new p: Path)
      requires old(Linked()) && p in old(nodes)
      requires nodes == old(nodes) && nNodes == old(nNodes) && Repr == old(Repr) && owner == old(owner)
      requires words - {p} == old(words) - {p}
      requires nodes[p].View() == old(nodes[p].View()).(endOfWord := p in words,
                                                       value := if p in words then Some(words[p]) else None)
      requires forall r {:trigger old(nodes)[r]} | r in nodes && r != p :: nodes[r].View() == old(nodes[r].View())
      ensures Linked()
    {
      hide PrefixClosed, Fits;
      forall r | r in words ensures r in nodes {
        assert r == p || r in words - {p};
      }
      forall r {:trigger nodes[r]} | r in nodes ensures NodeOk(r) {
        assert old(NodeOk(r));
        if r == p {
          FitsEnd(old(nodes[r].View()), r, nodes, old(words), words, |alphabet|);
        } else {
          FitsWords(nodes[r].View(), p, r, nodes, old(words), words, |alphabet|);
        }
      }
    }

    /** What happens at the end of an inserted key: the value is stored, replacing any earlier one,
        and `size` counts the insert whether or not the key was there. */
    method Mark(node: TrieNode<V>, value: V)
      requires Linked() && node.path in nodes && nodes[node.path] == node
      modifies node`value, node`endOfWord, this`size, this`words
      ensures Linked()
      ensures words == old(words)[node.path := value]
      ensures size == old(size) + 1
    {
      hide *;
      NodesApart(node.path);
      SetEnd(node, Some(value));
      size := size + 1;
      words := words[node.path := value];
      assert Linked() by {
        LinkedAfterMark(node.path);
      }
    }

    method SetEnd(node: TrieNode<V>, value: Option<V>)
      modifies node`value, node`endOfWord
      ensures node.View() == old(node.View()).(endOfWord := value.Some?, value := value)
    {
      node.value := value;
      node.endOfWord := value.Some?;
    }

    /** What happens at the end of a removed key. */
    method Unmark(node: TrieNode<V>)
      requires Linked() && node.path in nodes && nodes[node.path] == node && |words| <= size
      modifies node`value, node`endOfWord, this`size, this`words
      ensures Linked() && |words| <= size
      ensures words == old(words) - {node.path}
      ensures size == old(size) - if node.path in old(words) then 1 else 0
    {
      hide *;
      NodesApart(node.path);
      EndFlag(node.path);
      if node.endOfWord {
        OneLess(words, node.path);
        SetEnd(node, None);
        size := size - 1;
        words := words - {node.path};
        assert Linked() by {
          LinkedAfterMark(node.path);
        }
      }
    }

    lemma ValidParts()
      requires Valid()
      ensures Linked() && Pruned(nodes.Keys, words.Keys, Root) && |words| <= size && Spelled(alphabet, words, entries)
      ensures this in Repr && root.path == Root && Root in nodes && nodes[Root] == root
    {
      assert NodeOk(Root);
    }

    /** Re-establishes the invariant for new entries. */
    ghost method Record(entries: map<string, V>)
      requires Linked() && Pruned(nodes.Keys, words.Keys, Root) && |words| <= size && Spelled(alphabet, words, entries)
      modifies this`entries
      ensures Valid() && this.entries == entries
    {
      hide *;
      this.entries := entries;
      ValidIntro();
    }

    lemma ValidIntro()
      requires Linked() && Pruned(nodes.Keys, words.Keys, Root) && |words| <= size && Spelled(alphabet, words, entries)
      ensures Valid()
    {
    }

    lemma InRepr(p: Path)
      requires Linked() && p in nodes
      ensures this in Repr && nodes[p] in Repr && nodes[p].children in Repr && nodes[p].path == p
    {
      assert NodeOk(p);
    }

    /** The child in a slot is the node at the longer path, if there is one. */
    lemma ChildInSlot(p: Path, i: nat)
      requires Linked() && p in nodes && i < |alphabet|
      ensures i < nodes[p].children.Length
      ensures nodes[p].children[i] == if Step(p, i) in nodes then nodes[Step(p, i)] else null
      ensures Step(p, i) in nodes ==> nodes[Step(p, i)].path == Step(p, i)
    {
      assert NodeOk(p);
      assert nodes[p].children[i] == nodes[p].View().kids[i];
      if Step(p, i) in nodes {
        assert NodeOk(Step(p, i));
      }
    }

    lemma EndFlag(p: Path)
      requires Linked() && p in nodes
      ensures nodes[p].endOfWord <==> p in words
      ensures nodes[p].value == if p in words then Some(words[p]) else None
      ensures nodes[p].nChildren == 0 <==> !HasChild(nodes.Keys, p)
    {
      assert NodeOk(p);
      NoChildrenCounted(nodes.Keys, p, |alphabet|);
    }

    /** trie_insert_helper: false stands for the exit at a character outside the alphabet. */
    method InsertHelper(node: TrieNode<V>, key: string, value: V) returns (ok: bool)
      requires Linked() && node.path in nodes && nodes[node.path] == node
      requires Pruned(nodes.Keys, words.Keys, node.path)
      modifies Repr
      ensures Linked() && fresh(Repr - old(Repr)) && old(Repr) <= Repr && entries == old(entries)
      ensures ok <==> Over(key, alphabet)
      ensures ok ==> Pruned(nodes.Keys, words.Keys, Root)
      ensures words == if ok then old(words)[Walk(alphabet, node.path, key) := value] else old(words)
      ensures size == old(size) + if ok then 1 else 0
      decreases |key|
    {
      hide *;
      InRepr(node.path);
      LeavesStep(alphabet, nodes.Keys, node.path, key);
      if |key| == 0 {
        WalkEmpty(alphabet, node.path, key);
        Mark(node, value);
        PrunedMarked(nodes.Keys, old(words.Keys), words.Keys, node.path);
        return true;
      }
      var childIdx := GetIndexFromAlphabet(alphabet, key[0]);
      if childIdx == -1 {
        return false;
      }
      WalkStepIff(alphabet, node.path, key);
      ChildInSlot(node.path, childIdx);
      if node.children[childIdx] == null {
        CreateChild(node, childIdx);
      }
      PrunedStep(old(nodes.Keys), nodes.Keys, words.Keys, node.path, childIdx);
      ChildInSlot(node.path, childIdx);
      ok := InsertHelper(node.children[childIdx], key[1..], value);
    }

    /** trie_insert: the key is stored with the value; the program ends at a key outside the alphabet. */
    method Insert(key: string, value: V) returns (ok: bool)
      requires Valid()
      modifies Repr
      ensures ok <==> Over(key, alphabet)
      ensures ok ==> Valid() && fresh(Repr - old(Repr)) && old(Repr) <= Repr
      ensures ok ==> entries == old(entries)[key := value] && size == old(size) + 1
      ensures !ok ==> entries == old(entries) && size == old(size)
    {
      hide *;
      ValidParts();
      ok := InsertHelper(root, key, value);
      if ok {
        OneMore(old(words), Walk(alphabet, Root, key), value);
        SpelledInsert(alphabet, old(words), old(entries), key, value);
        Record(entries[key := value]);
      }
    }

    /** trie_search_helper. It goes astray where it reads the slot -1; what it finds then is not known. */
    method SearchHelper(node: TrieNode<V>, key: string) returns (found: Option<V>, astray: bool)
      requires Linked() && node.path in nodes && nodes[node.path] == node
      ensures astray <==> LeavesAlphabet(alphabet, nodes.Keys, node.path, key)
      ensures !astray ==>
                found == if Over(key, alphabet) && Walk(alphabet, node.path, key) in words
                         then Some(words[Walk(alphabet, node.path, key)]) else None
      decreases |key|
    {
      hide *;
      LeavesStep(alphabet, nodes.Keys, node.path, key);
      if |key| == 0 {
        WalkEmpty(alphabet, node.path, key);
        EndFlag(node.path);
        if node.endOfWord {
          return node.value, false;
        }
        return None, false;
      }
      var childIdx := GetIndexFromAlphabet(alphabet, key[0]);
      if childIdx == -1 {
        return None, true;
      }
      WalkStepIff(alphabet, node.path, key);
      ChildInSlot(node.path, childIdx);
      if node.children[childIdx] == null {
        if Over(key, alphabet) {
          NothingBelow(Step(node.path, childIdx), key[1..]);
        }
        return None, false;
      }
      found, astray := SearchHelper(node.children[childIdx], key[1..]);
    }

    /** Where there is no node there is no word further down. */
    lemma NothingBelow(p: Path, key: string)
      requires Linked() && p !in nodes && Over(key, alphabet)
      ensures Walk(alphabet, p, key) !in words
    {
      if Walk(alphabet, p, key) in nodes {
        WalkExtends(alphabet, p, key);
        PrefixesPresent(nodes.Keys, |alphabet|, p, Walk(alphabet, p, key));
      }
    }

    /** trie_search: the value of a stored key, and nothing for any other key. It goes astray exactly if it
        reaches a character outside the alphabet. */
    method Search(key: string) returns (found: Option<V>, astray: bool)
      requires Valid()
      ensures astray <==> GoesAstray(entries.Keys, alphabet, key)
      ensures !astray ==> found == if key in entries then Some(entries[key]) else None
    {
      hide *;
      ValidParts();
      found, astray := SearchHelper(root, key);
      LeavesIsAstray(key);
      if Over(key, alphabet) {
        SpelledAt(alphabet, words, entries, key);
      } else {
        NotStored(alphabet, words, entries, key);
      }
    }

    lemma LeavesIsAstray(key: string)
      requires Valid()
      ensures LeavesAlphabet(alphabet, nodes.Keys, Root, key) <==> GoesAstray(entries.Keys, alphabet, key)
    {
      LeavesAt(alphabet, nodes.Keys, Root, key);
      forall i | 0 <= i < |key| && Over(key[..i], alphabet)
        ensures Walk(alphabet, Root, key[..i]) in nodes <==> Reached(entries.Keys, key[..i])
      {
        NodesArePrefixes(key[..i]);
      }
    }

    /** The end of trie_remove_helper: drops a superfluous child, after which only the node itself may be
        superfluous, and tells whether it is. */
    method PruneChild(node: TrieNode<V>, i: nat, delete: bool) returns (superfluous: bool)
      requires Linked() && node.path in nodes && nodes[node.path] == node && i < |alphabet|
      requires Step(node.path, i) in nodes && Pruned(nodes.Keys, words.Keys, Step(node.path, i))
      requires delete <==> !HasChild(nodes.Keys, Step(node.path, i)) && Step(node.path, i) !in words
      modifies this`nNodes, this`nodes, node`nChildren, node.children
      ensures Linked() && Pruned(nodes.Keys, words.Keys, node.path)
      ensures nodes == if delete then old(nodes) - {Step(node.path, i)} else old(nodes)
      ensures node.path in nodes && nodes[node.path] == node
      ensures superfluous <==> !HasChild(nodes.Keys, node.path) && node.path !in words
    {
      hide *;
      if delete {
        DropChild(node, i);
        assert nodes.Keys == old(nodes.Keys) - {Step(node.path, i)};
        PrunedDrop(old(nodes.Keys), nodes.Keys, words.Keys, node.path, i);
      } else {
        PrunedBack(nodes.Keys, words.Keys, node.path, Step(node.path, i));
      }
      EndFlag(node.path);
      return node.nChildren == 0 && !node.endOfWord;
    }

    /** The first case of trie_remove_helper: the end of the key. */
    method RemoveEnd(node: TrieNode<V>) returns (delete: bool)
      requires Linked() && node.path in nodes && nodes[node.path] == node
      requires Pruned(nodes.Keys, words.Keys, Root) && |words| <= size
      modifies node`value, node`endOfWord, this`size, this`words
      ensures Linked() && |words| <= size && Pruned(nodes.Keys, words.Keys, node.path)
      ensures words == old(words) - {node.path}
      ensures size - |words| == old(size) - |old(words)|
      ensures delete <==> !HasChild(nodes.Keys, node.path) && node.path !in words
    {
      hide *;
      EndFlag(node.path);
      Unmark(node);
      WordsLess(old(words), node.path);
      EndFlag(node.path);
      PrunedUnmarked(nodes.Keys, old(words.Keys), words.Keys, node.path);
      return node.nChildren == 0;
    }

    lemma WordsLess(m: map<Path, V>, p: Path)
      ensures |m| - |m - {p}| == if p in m then 1 else 0
    {
      if p in m {
        OneLess(m, p);
      } else {
        assert m - {p} == m;
      }
    }

    /** trie_remove_helper: tells the caller whether the node has become superfluous. */
    method RemoveHelper(node: TrieNode<V>, key: string) returns (delete: bool)
      requires Linked() && node.path in nodes && nodes[node.path] == node
      requires Pruned(nodes.Keys, words.Keys, Root) && |words| <= size
      modifies Repr
      ensures Linked() && Repr == old(Repr) && entries == old(entries)
      ensures node.path in nodes && nodes[node.path] == node
      ensures Pruned(nodes.Keys, words.Keys, node.path) && |words| <= size
      ensures words == WordsWithout(old(words), alphabet, node.path, key)
      ensures size - |words| == old(size) - |old(words)|
      ensures forall p {:trigger nodes[p]} | p in nodes :: p in old(nodes) && nodes[p] == old(nodes)[p]
      ensures delete ==> !HasChild(nodes.Keys, node.path) && node.path !in words
      ensures !delete ==> node.path == Root || HasChild(nodes.Keys, node.path) || node.path in words
      decreases |key|
    {
      hide *;
      InRepr(node.path);
      WordsWithoutStep(words, alphabet, node.path, key);
      if |key| == 0 {
        delete := RemoveEnd(node);
        return;
      }
      var childIdx := GetIndexFromAlphabet(alphabet, key[0]);
      if childIdx != -1 {
        ChildInSlot(node.path, childIdx);
      }
      if childIdx == -1 || node.children[childIdx] == null {
        NothingToRemove(node.path, key);
        PrunedAt(nodes.Keys, words.Keys, node.path);
        return false;
      }
      delete := RemoveHelper(node.children[childIdx], key[1..]);
      ParentPresent(node.path, childIdx);
      delete := PruneChild(node, childIdx, delete);
    }

    lemma ParentPresent(p: Path, i: nat)
      requires Linked() && Step(p, i) in nodes
      ensures p in nodes && Step(p, i) != Root
    {
    }

    /** A key that leaves the alphabet or the nodes is not stored. */
    lemma NothingToRemove(p: Path, key: string)
      requires Linked() && key != ""
      requires key[0] in alphabet ==> Step(p, Position(alphabet, key[0])) !in nodes
      ensures words == WordsWithout(words, alphabet, p, key)
    {
      hide *;
      WordsWithoutIs(words, alphabet, p, key);
      if Over(key, alphabet) {
        WalkStep(alphabet, p, key);
        NothingBelow(Step(p, Position(alphabet, key[0])), key[1..]);
      }
    }

    /** trie_remove: a stored key is no longer there, any other key is left alone. */
    method Remove(key: string)
      requires Valid()
      modifies Repr
      ensures Valid() && Repr == old(Repr)
      ensures entries == old(entries) - {key}
      ensures size == old(size) - if key in old(entries) then 1 else 0
    {
      hide *;
      ValidParts();
      var _ := RemoveHelper(root, key);
      EntriesAfterRemove(alphabet, old(words), words, old(entries), key);
      Record(entries - {key});
    }

    /** There is a node for a string exactly when it is empty or begins a stored key. */
    lemma NodesArePrefixes(q: string)
      requires Valid() && Over(q, alphabet)
      ensures Walk(alphabet, Root, q) in nodes <==> Reached(entries.Keys, q)
    {
      PathsSpellPrefixes(alphabet, nodes.Keys, words, entries, q);
    }
  }
}
