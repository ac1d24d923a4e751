/** Tables keyed by the structure of an operation: `ArgsSet`, which keeps
    the first operation stored under a key, and `ArgsDict`, which binds a
    key to a payload. Both fork with `copy()`. */
module ArgsTables {
  import opened Wrappers
  import opened Resop

  /** What an operation is looked up by: its opcode, its arguments and its
      descriptor. The result and the fail-arguments are not part of it. */
  datatype OpKey = OpKey(opcode: Opcode, args: seq<Value>, descr: Option<Descr>)

  function KeyOf(op: Op): (k: OpKey)
    ensures k.opcode == op.opcode && k.args == op.args && k.descr == op.descr
  {
    OpKey(op.opcode, op.args, op.descr)
  }

  /** Two operations share a key exactly when they agree on opcode,
      arguments and descriptor, whatever their results and fail-arguments. */
  lemma KeyIgnoresOutputs(a: Op, b: Op)
    ensures KeyOf(a) == KeyOf(b) <==> a.opcode == b.opcode && a.args == b.args && a.descr == b.descr
  {
  }

  /** `ArgsSet`: at most one operation per key; the one stored first stays. */
  class ArgsSet {
    var entries: map<OpKey, Op>

    /** Every stored operation sits under its own key. */
    ghost predicate Valid()
      reads this
    {
      forall k :: k in entries ==> KeyOf(entries[k]) == k
    }

    constructor ()
      ensures Valid() && entries == map[]
    {
      entries := map[];
    }

    /** `get(op)`: the stored operation with the same key as `op`, if any. */
    method Get(op: Op) returns (r: Option<Op>)
      requires Valid()
      ensures r.Some? <==> KeyOf(op) in entries
      ensures r.Some? ==> r.value == entries[KeyOf(op)] && KeyOf(r.value) == KeyOf(op)
    {
      var k := KeyOf(op);
      if k in entries {
        r := Some(entries[k]);
      } else {
        r := None;
      }
    }

    /** `add(op)`: stores `op` unless an operation with its key is already
        stored, in which case the table is unchanged. */
    method Add(op: Op)
      requires Valid()
      modifies this
      ensures Valid()
      ensures KeyOf(op) in old(entries) ==> entries == old(entries)
      ensures KeyOf(op) !in old(entries) ==> entries == old(entries)[KeyOf(op) := op]
    {
      var k := KeyOf(op);
      if k !in entries {
        entries := entries[k := op];
      }
    }

    /** `copy()`: a new table with the same entries. */
    method Copy() returns (c: ArgsSet)
      requires Valid()
      ensures fresh(c) && c.Valid() && c.entries == entries
    {
      c := new ArgsSet();
      c.entries := entries;
    }
  }

  /** `ArgsDict`: binds each key to one payload; a later `set` overwrites. */
  class ArgsDict<V> {
    var entries: map<OpKey, V>

    constructor ()
      ensures entries == map[]
    {
      entries := map[];
    }

    /** `get(op)`: the payload bound to the key of `op`, if any. */
    method Get(op: Op) returns (r: Option<V>)
      ensures r.Some? <==> KeyOf(op) in entries
      ensures r.Some? ==> r.value == entries[KeyOf(op)]
    {
      var k := KeyOf(op);
      if k in entries {
        r := Some(entries[k]);
      } else {
        r := None;
      }
    }

    /** `set(op, value)`: binds the key of `op` to `value`. */
    method Set(op: Op, value: V)
      modifies this
      ensures entries == old(entries)[KeyOf(op) := value]
    {
      entries := entries[KeyOf(op) := value];
    }

    /** `copy()`: a new table with the same bindings. */
    method Copy() returns (c: ArgsDict<V>)
      ensures fresh(c) && c.entries == entries
    {
      c := new ArgsDict<V>();
      c.entries := entries;
    }
  }

  /** The life of an `ArgsSet` across a fork: absent before `add`, the very
      instance added afterwards, and after `copy()` the copy sees the older
      entry and its own addition while the original does not see the copy's. */
  method ArgsSetFork(op: Op, op2: Op)
    returns (before: Option<Op>, after: Option<Op>, copyOld: Option<Op>,
             copyNew: Option<Op>, originalNew: Option<Op>)
    requires KeyOf(op) != KeyOf(op2)
    ensures before == None && after == Some(op)
    ensures copyOld == Some(op) && copyNew == Some(op2) && originalNew == None
  {
    var d := new ArgsSet();
    before := d.Get(op);
    d.Add(op);
    after := d.Get(op);
    var d2 := d.Copy();
    d2.Add(op2);
    copyOld := d2.Get(op);
    copyNew := d2.Get(op2);
    originalNew := d.Get(op2);
  }

  /** Adding to the original after a fork is not seen by the copy either. */
  method ArgsSetForkBackwards(op: Op, op2: Op) returns (inCopy: Option<Op>, inOriginal: Option<Op>)
    requires KeyOf(op) != KeyOf(op2)
    ensures inCopy == None && inOriginal == Some(op2)
  {
    var d := new ArgsSet();
    d.Add(op);
    var d2 := d.Copy();
    d.Add(op2);
    inCopy := d2.Get(op2);
    inOriginal := d.Get(op2);
  }

  /** Value numbering: two operations with the same key are one entry; after
      adding both, looking up either gives the first, and the table holds a
      single entry. */
  method ArgsSetFirstWins(a: Op, b: Op) returns (viaA: Option<Op>, viaB: Option<Op>, size: nat)
    requires KeyOf(a) == KeyOf(b)
    ensures viaA == Some(a) && viaB == Some(a) && size == 1
  {
    var d := new ArgsSet();
    d.Add(a);
    d.Add(b);
    viaA := d.Get(a);
    viaB := d.Get(b);
    size := |d.entries|;
  }

  /** The life of an `ArgsDict` across a fork, with payloads 3 and 5. */
  method ArgsDictFork(op: Op, op2: Op)
    returns (before: Option<int>, after: Option<int>, copyNew: Option<int>,
             copyOld: Option<int>, originalNew: Option<int>)
    requires KeyOf(op) != KeyOf(op2)
    ensures before == None && after == Some(3)
    ensures copyNew == Some(5) && copyOld == Some(3) && originalNew == None
  {
    var d := new ArgsDict<int>();
    before := d.Get(op);
    d.Set(op, 3);
    after := d.Get(op);
    var d2 := d.Copy();
    d2.Set(op2, 5);
    copyNew := d2.Get(op2);
    copyOld := d2.Get(op);
    originalNew := d.Get(op2);
  }

  /** Re-binding a key in the copy leaves the original's binding in place. */
  method ArgsDictForkOverwrite(op: Op, v: int, w: int) returns (inCopy: Option<int>, inOriginal: Option<int>)
    ensures inCopy == Some(w) && inOriginal == Some(v)
  {
    var d := new ArgsDict<int>();
    d.Set(op, v);
    var d2 := d.Copy();
    d2.Set(op, w);
    inCopy := d2.Get(op);
    inOriginal := d.Get(op);
  }
}
