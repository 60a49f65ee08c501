/** The singly linked list of list.c: nodes chained by `next`, with a `head`, a `tail` and a
    `size`. The ghost `spine` is the sequence of nodes in order and `contents` the data they hold. */
module LinkedList {

  class Node<T> {
    var next: Node?<T>
    const data: T

    constructor (data: T)
      ensures this.data == data && next == null
    {
      this.data := data;
      next := null;
    }
  }

  class List<T> {
    var head: Node?<T>
    var tail: Node?<T>
    var size: nat

    ghost var spine: seq<Node<T>>
    ghost var contents: seq<T>
    ghost var Repr: set<object>

    /** `tail` is constrained only while the list has nodes: removing the last node leaves it stale. */
    ghost predicate Valid()
      reads this, Repr
      ensures Valid() ==> this in Repr
    {
      && this in Repr
      && size == |spine| == |contents|
      && (forall i | 0 <= i < |spine| :: spine[i] in Repr && spine[i].data == contents[i])
      && (forall i, j | 0 <= i < j < |spine| :: spine[i] != spine[j])
      && (if size == 0 then head == null else head == spine[0])
      && (forall i | 0 <= i < |spine| - 1 :: spine[i].next == spine[i + 1])
      && (size > 0 ==> spine[size - 1].next == null)
      && (size > 0 ==> tail == spine[size - 1])
    }

    /** The node at position i, or null one past the end. */
    ghost function At(i: nat): (n: Node?<T>)
      reads this
      ensures i < |spine| ==> n == spine[i]
    {
      if i < |spine| then spine[i] else null
    }

    /** Walking the list: from the head, node after node, to null. */
    lemma Chain(j: nat)
      requires Valid() && j <= size
      ensures size == |spine| == |contents| && head == At(0) && this in Repr
      ensures j < size ==> At(j) != null && At(j).data == contents[j] && At(j).next == At(j + 1)
      ensures j == size ==> At(j) == null
    {
    }

    constructor ()
      ensures Valid() && fresh(Repr) && contents == []
    {
      head := null;
      tail := null;
      size := 0;
      spine := [];
      contents := [];
      Repr := {this};
    }

    /** ll_get_nth_node: the tail is returned directly, any other node by walking from the head. */
    method GetNth(n: nat) returns (node: Node?<T>)
      requires Valid()
      ensures node == At(n)
    {
      if head == null {
        return null;
      }
      if n >= size {
        return null;
      }
      if n == size - 1 {
        return tail;
      }
      node := head;
      for i := 1 to n + 1
        invariant node == spine[i - 1]
      {
        node := node.next;
      }
    }

    /** Takes the node at m out of the chain. */
    method Unlink(m: nat) returns (removed: Node<T>)
      requires Valid() && m < size
      modifies this`head, this`tail, spine
      ensures removed == spine[m]
      ensures head == if m == 0 then old(At(1)) else old(head)
      ensures tail == if 0 < m == size - 1 then spine[m - 1] else old(tail)
      ensures forall i | 0 <= i < size :: spine[i].next == if i == m - 1 then At(m + 1) else old(spine[i].next)
    {
      if m == 0 {
        removed := head;
        head := head.next;
      } else {
        var prev := GetNth(m - 1);
        assert prev == spine[m - 1] && prev.next == spine[m];
        removed := prev.next;
        prev.next := removed.next;
        if m == size - 1 {
          tail := prev;
        }
      }
    }

    twostate lemma ValidAfterRemove(m: nat)
      requires old(Valid()) && m < old(size) && size == old(size) - 1
      requires spine == old(spine)[..m] + old(spine)[m + 1..]
      requires contents == old(contents)[..m] + old(contents)[m + 1..]
      requires Repr == old(Repr) - {old(spine)[m]}
      requires head == if m == 0 then old(At(1)) else old(head)
      requires tail == if 0 < m == old(size) - 1 then old(spine)[m - 1] else old(tail)
      requires forall i | 0 <= i < old(size) ::
                 old(spine)[i].next == if i == m - 1 then old(At(m + 1)) else old(spine[i].next)
      ensures Valid()
    {
      var was := old(spine);
      assert forall i | 0 <= i < m :: spine[i] == was[i];
      assert forall i | m <= i < size :: spine[i] == was[i + 1];
    }

    /** ll_remove_nth_node: unlinks and returns the node at min(n, size - 1). */
    method RemoveNth(n: nat) returns (removed: Node?<T>)
      requires Valid()
      modifies Repr
      ensures Valid() && Repr <= old(Repr)
      ensures old(contents) == [] ==> removed == null && contents == [] && spine == []
      ensures old(contents) != [] ==>
                var m := if n < old(size) then n else old(size) - 1;
                && removed == old(spine)[m] && removed.data == old(contents)[m]
                && spine == old(spine)[..m] + old(spine)[m + 1..]
                && contents == old(contents)[..m] + old(contents)[m + 1..]
                && removed !in Repr
      // The stale tail: removing at the front never touches it, not even when the list becomes empty.
      ensures old(contents) != [] && (n == 0 || old(size) == 1) ==> tail == old(tail)
    {
      if head == null {
        return null;
      }
      var m := if n >= size then size - 1 else n;
      removed := Unlink(m);
      size := size - 1;
      spine := spine[..m] + spine[m + 1..];
      contents := contents[..m] + contents[m + 1..];
      Repr := Repr - {removed};
      assert Valid() by {
        ValidAfterRemove(m);
      }
    }

    /** The three cases of ll_add_nth_node that tie a new node in at position m: before the head,
        between two nodes, and after the tail. An empty list meets both the first and the last. */
    method Link(m: nat, node: Node<T>)
      requires Valid() && m <= size && node !in Repr && node.next == null
      modifies this`head, this`tail, spine, node
      ensures head == if m == 0 then node else old(head)
      ensures tail == if m == size then node else old(tail)
      ensures node.next == At(m)
      ensures forall i | 0 <= i < size :: spine[i].next == if i == m - 1 then node else old(spine[i].next)
    {
      if m == 0 {
        node.next := head;
        head := node;
      }
      if m >= 1 && m < size {
        var prev := GetNth(m - 1);
        var next := prev.next;
        assert prev == spine[m - 1] && next == spine[m];
        prev.next := node;
        node.next := next;
      }
      if m == size {
        if size != 0 {
          var prev := tail;
          prev.next := node;
          node.next := null;
        }
        tail := node;
      }
    }

    twostate lemma ValidAfterAdd(m: nat, new node: Node<T>)
      requires old(Valid()) && m <= old(size) && size == old(size) + 1 && node !in old(Repr)
      requires spine == old(spine)[..m] + [node] + old(spine)[m..]
      requires contents == old(contents)[..m] + [node.data] + old(contents)[m..]
      requires Repr == old(Repr) + {node}
      requires head == if m == 0 then node else old(head)
      requires tail == if m == old(size) then node else old(tail)
      requires node.next == old(At(m))
      requires forall i | 0 <= i < old(size) ::
                 old(spine)[i].next == if i == m - 1 then node else old(spine[i].next)
      ensures Valid()
    {
      var was := old(spine);
      assert forall i | 0 <= i < m :: spine[i] == was[i];
      assert spine[m] == node;
      assert forall i | m < i < size :: spine[i] == was[i - 1];
    }

    /** ll_add_nth_node: inserts a new node holding `data` at min(n, size). */
    method AddNth(n: nat, data: T)
      requires Valid()
      modifies Repr
      ensures Valid() && fresh(Repr - old(Repr)) && old(Repr) <= Repr
      ensures var m := if n <= old(size) then n else old(size);
              contents == old(contents)[..m] + [data] + old(contents)[m..]
    {
      var m := if n > size then size else n;
      var node := new Node(data);
      Link(m, node);
      size := size + 1;
      spine := spine[..m] + [node] + spine[m..];
      contents := contents[..m] + [data] + contents[m..];
      Repr := Repr + {node};
      assert Valid() by {
        ValidAfterAdd(m, node);
      }
    }
  }
}
