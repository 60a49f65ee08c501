/** Sequences of inserts and removals of keys: what is stored after them, and how often a key was inserted that was
    there already. */
module KeyRuns {
  import opened TriePaths

  datatype Op<V> = Store(key: string, value: V) | Drop(key: string)

  ghost function Applied<V>(entries: map<string, V>, op: Op<V>): map<string, V> {
    if op.Store? then entries[op.key := op.value] else entries - {op.key}
  }

  ghost function Entries<V>(ops: seq<Op<V>>): map<string, V> {
    if ops == [] then map[] else Applied(Entries(ops[..|ops| - 1]), ops[|ops| - 1])
  }

  /** How many inserts were of a key that was stored at the time. */
  ghost function Repeats<V>(ops: seq<Op<V>>): nat {
    if ops == [] then 0 else Repeats(ops[..|ops| - 1]) + if RepeatsAt(ops, |ops| - 1) then 1 else 0
  }

  ghost predicate RepeatsAt<V>(ops: seq<Op<V>>, i: nat)
    requires i < |ops|
  {
    ops[i].Store? && ops[i].key in Entries(ops[..i])
  }

  /** What one operation does to the size of a trie with the given keys. */
  ghost function SizeAfter<V>(keys: set<string>, size: int, op: Op<V>): int {
    if op.Store? then size + 1 else size - if op.key in keys then 1 else 0
  }

  lemma AppliedIs<V>(entries: map<string, V>, size: int, op: Op<V>)
    ensures op.Store? ==>
              Applied(entries, op) == entries[op.key := op.value] && SizeAfter(entries.Keys, size, op) == size + 1
    ensures op.Drop? ==>
              && Applied(entries, op) == entries - {op.key}
              && SizeAfter(entries.Keys, size, op) == size - if op.key in entries then 1 else 0
  {
  }

  lemma KeysApplied<V>(entries: map<string, V>, op: Op<V>)
    ensures Applied(entries, op).Keys == if op.Store? then entries.Keys + {op.key} else entries.Keys - {op.key}
  {
  }

  lemma AppendedParts<V>(ops: seq<Op<V>>, op: Op<V>)
    ensures Entries(ops + [op]) == Applied(Entries(ops), op)
    ensures Repeats(ops + [op]) == Repeats(ops) + if op.Store? && op.key in Entries(ops) then 1 else 0
  {
    var more := ops + [op];
    assert more[..|more| - 1] == ops && more[|more| - 1] == op;
  }

  lemma AppliedSize<V>(entries: map<string, V>, op: Op<V>)
    ensures |Applied(entries, op)| + (if op.Store? && op.key in entries then 1 else 0)
         == SizeAfter(entries.Keys, |entries|, op)
  {
    if op.Store? {
      OneMore(entries, op.key, op.value);
    } else if op.key in entries {
      OneLess(entries, op.key);
    } else {
      assert entries - {op.key} == entries;
    }
  }

  /** The keys and the repeats together follow the size of a trie. */
  lemma Appended<V>(ops: seq<Op<V>>, op: Op<V>)
    ensures Entries(ops + [op]) == Applied(Entries(ops), op)
    ensures |Entries(ops + [op])| + Repeats(ops + [op])
         == SizeAfter(Entries(ops).Keys, |Entries(ops)| + Repeats(ops), op)
  {
    hide Entries, Repeats, Applied;
    AppendedParts(ops, op);
    AppliedSize(Entries(ops), op);
  }

  lemma EntriesMore<V>(ops: seq<Op<V>>, i: nat)
    requires i < |ops|
    ensures Entries(ops[..i + 1]) == Applied(Entries(ops[..i]), ops[i])
    ensures |Entries(ops[..i + 1])| + Repeats(ops[..i + 1])
         == SizeAfter(Entries(ops[..i]).Keys, |Entries(ops[..i])| + Repeats(ops[..i]), ops[i])
  {
    hide *;
    assert ops[..i + 1] == ops[..i] + [ops[i]];
    Appended(ops[..i], ops[i]);
  }

  lemma NoEntries<V>(ops: seq<Op<V>>)
    ensures Entries(ops[..0]) == map[] && Repeats(ops[..0]) == 0
  {
  }

  lemma {:induction false} RepeatsCounted<V>(ops: seq<Op<V>>)
    ensures Repeats(ops) == 0 <==> forall i | 0 <= i < |ops| :: !RepeatsAt(ops, i)
    decreases |ops|
  {
    if ops != [] {
      var n := |ops| - 1;
      var before := ops[..n];
      RepeatsCounted(before);
      forall i | 0 <= i < n ensures RepeatsAt(before, i) <==> RepeatsAt(ops, i) {
        assert before[..i] == ops[..i];
      }
      assert RepeatsAt(ops, n) <==> Repeats(ops) != Repeats(before);
    }
  }

  /** The number of keys is overcounted as soon as a key is inserted twice. */
  lemma TwiceStored<V>(key: string, value: V)
    ensures var ops := [Store(key, value), Store(key, value)];
            Entries(ops) == map[key := value] && |Entries(ops)| == 1 && Repeats(ops) == 1 && RepeatsAt(ops, 1)
  {
    var ops := [Store(key, value), Store(key, value)];
    assert ops[..0] == [] && ops[..2] == ops;
    EntriesMore(ops, 0);
    EntriesMore(ops, 1);
  }
}
