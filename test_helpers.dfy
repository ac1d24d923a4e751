/** The optimizer tests' helpers: ordering boxes by kind, comparing an
    optimized loop with an expected one, and rewriting an old-style loop so
    that it starts (and possibly ends) with a LABEL. */
module TestHelpers {
  import opened Wrappers
  import opened Resop
  import opened TraceEquality

  // ---------------------------------------------------------------------
  // _sortboxes

  /** `_kind2count`: INT first, then REF, then FLOAT. */
  function KindRank(k: Kind): nat {
    match k
    case INT => 1
    case REF => 2
    case FLOAT => 3
  }

  /** Inserts `x` before the first element whose rank is not smaller than
      its own, so that it stays ahead of the elements of its own kind. */
  function InsertByKind(x: Value, s: seq<Value>): seq<Value> {
    if s == [] || KindRank(x.Type()) <= KindRank(s[0].Type()) then [x] + s
    else [s[0]] + InsertByKind(x, s[1..])
  }

  /** `_sortboxes(boxes)`: `sorted(boxes, key=kind rank)`, a stable sort. */
  function SortBoxes(boxes: seq<Value>): seq<Value> {
    if boxes == [] then []
    else InsertByKind(boxes[0], SortBoxes(boxes[1..]))
  }

  /** The boxes of one kind, in their original order. */
  function OfKind(s: seq<Value>, k: Kind): (r: seq<Value>)
    ensures AllOfKind(r, k)
  {
    if s == [] then []
    else if s[0].Type() == k then [s[0]] + OfKind(s[1..], k)
    else OfKind(s[1..], k)
  }

  predicate AllOfKind(s: seq<Value>, k: Kind) {
    forall v :: v in s ==> v.Type() == k
  }

  /** Inserting passes over a prefix of lower-ranked elements. */
  lemma {:induction false} InsertSkips(x: Value, a: seq<Value>, rest: seq<Value>)
    requires forall v :: v in a ==> KindRank(v.Type()) < KindRank(x.Type())
    ensures InsertByKind(x, a + rest) == a + InsertByKind(x, rest)
    decreases |a|
  {
    if a != [] {
      assert a[0] in a;
      var s := a + rest;
      assert s[0] == a[0] && s[1..] == a[1..] + rest;
      assert InsertByKind(x, s) == [a[0]] + InsertByKind(x, a[1..] + rest);
      InsertSkips(x, a[1..], rest);
      var t := InsertByKind(x, rest);
      calc {
        InsertByKind(x, s);
        [a[0]] + (a[1..] + t);
        ([a[0]] + a[1..]) + t;
        { assert a == [a[0]] + a[1..]; }
        a + t;
      }
    } else {
      assert a + rest == rest;
    }
  }

  /** `[x]` when `x` is of kind `k`, else nothing. */
  function Only(x: Value, k: Kind): seq<Value> {
    if x.Type() == k then [x] else []
  }

  /** Inserting into an INT/REF/FLOAT partition puts the box at the front
      of its own block (ahead of the boxes of its kind already there). */
  lemma InsertIntoPartition(x: Value, a: seq<Value>, b: seq<Value>, c: seq<Value>)
    requires AllOfKind(a, INT) && AllOfKind(b, REF) && AllOfKind(c, FLOAT)
    ensures InsertByKind(x, a + b + c) == (Only(x, INT) + a) + (Only(x, REF) + b) + (Only(x, FLOAT) + c)
  {
    match x.Type()
    case INT => InsertIntoIntBlock(x, a, b, c);
    case REF => InsertIntoRefBlock(x, a, b, c);
    case FLOAT => InsertIntoFloatBlock(x, a, b, c);
  }

  lemma InsertIntoIntBlock(x: Value, a: seq<Value>, b: seq<Value>, c: seq<Value>)
    requires x.Type() == INT
    ensures InsertByKind(x, a + b + c) == (Only(x, INT) + a) + (Only(x, REF) + b) + (Only(x, FLOAT) + c)
  {
    assert Only(x, INT) == [x] && Only(x, REF) == [] && Only(x, FLOAT) == [];
    assert [] + b == b && [] + c == c;
  }

  lemma InsertIntoRefBlock(x: Value, a: seq<Value>, b: seq<Value>, c: seq<Value>)
    requires AllOfKind(a, INT) && AllOfKind(b, REF) && AllOfKind(c, FLOAT) && x.Type() == REF
    ensures InsertByKind(x, a + b + c) == (Only(x, INT) + a) + (Only(x, REF) + b) + (Only(x, FLOAT) + c)
  {
    InsertSkips(x, a, b + c);
    assert a + b + c == a + (b + c);
    if b + c != [] {
      assert (b + c)[0] in b || (b + c)[0] in c;
    }
    assert Only(x, INT) == [] && Only(x, REF) == [x] && Only(x, FLOAT) == [];
    assert [] + a == a && [] + c == c;
    assert a + ([x] + (b + c)) == a + ([x] + b) + c;
  }

  lemma InsertIntoFloatBlock(x: Value, a: seq<Value>, b: seq<Value>, c: seq<Value>)
    requires AllOfKind(a, INT) && AllOfKind(b, REF) && AllOfKind(c, FLOAT) && x.Type() == FLOAT
    ensures InsertByKind(x, a + b + c) == (Only(x, INT) + a) + (Only(x, REF) + b) + (Only(x, FLOAT) + c)
  {
    InsertSkips(x, a + b, c);
    if c != [] {
      assert c[0] in c;
    }
    assert Only(x, INT) == [] && Only(x, REF) == [] && Only(x, FLOAT) == [x];
    assert [] + a == a && [] + b == b;
  }

  /** The boxes of one kind in `boxes`, split at its first element. */
  lemma OfKindHead(boxes: seq<Value>, k: Kind)
    requires boxes != []
    ensures OfKind(boxes, k) == Only(boxes[0], k) + OfKind(boxes[1..], k)
  {
  }

  /** `_sortboxes` is a stable sort by kind: the INT boxes, then the REF
      boxes, then the FLOAT boxes, each group in its original order. */
  lemma {:induction false} SortBoxesIsStable(boxes: seq<Value>)
    ensures SortBoxes(boxes) == OfKind(boxes, INT) + OfKind(boxes, REF) + OfKind(boxes, FLOAT)
  {
    if boxes != [] {
      var x, rest := boxes[0], boxes[1..];
      SortBoxesIsStable(rest);
      InsertIntoPartition(x, OfKind(rest, INT), OfKind(rest, REF), OfKind(rest, FLOAT));
      OfKindHead(boxes, INT);
      OfKindHead(boxes, REF);
      OfKindHead(boxes, FLOAT);
    }
  }

  /** Hence the result is ordered by kind rank. */
  lemma SortBoxesOrdered(boxes: seq<Value>)
    ensures forall p, q :: 0 <= p < q < |SortBoxes(boxes)| ==>
      KindRank(SortBoxes(boxes)[p].Type()) <= KindRank(SortBoxes(boxes)[q].Type())
  {
    SortBoxesIsStable(boxes);
    var a, b, c := OfKind(boxes, INT), OfKind(boxes, REF), OfKind(boxes, FLOAT);
    var r := SortBoxes(boxes);
    forall p | 0 <= p < |r|
      ensures KindRank(r[p].Type()) == if p < |a| then 1 else if p < |a| + |b| then 2 else 3
    {
      if p < |a| { assert r[p] == a[p] && a[p] in a; }
      else if p < |a| + |b| { assert r[p] == b[p - |a|] && b[p - |a|] in b; }
      else { assert r[p] == c[p - |a| - |b|] && c[p - |a| - |b|] in c; }
    }
  }

  lemma {:induction false} InsertByKindAdds(x: Value, s: seq<Value>)
    ensures multiset(InsertByKind(x, s)) == multiset{x} + multiset(s)
  {
    if s != [] && KindRank(x.Type()) > KindRank(s[0].Type()) {
      InsertByKindAdds(x, s[1..]);
      assert s == [s[0]] + s[1..];
    }
  }

  /** The result holds the same boxes as the argument. */
  lemma {:induction false} SortBoxesPermutes(boxes: seq<Value>)
    ensures multiset(SortBoxes(boxes)) == multiset(boxes)
  {
    if boxes != [] {
      SortBoxesPermutes(boxes[1..]);
      InsertByKindAdds(boxes[0], SortBoxes(boxes[1..]));
      assert boxes == [boxes[0]] + boxes[1..];
    }
  }

  // ---------------------------------------------------------------------
  // BaseTest.assert_equal

  /** The outcome of `assert_equal`: passing, or the assertion that fails. */
  datatype CheckResult =
    | Passed
    | InputCountDiffers
    | InputClassDiffers(index: nat)
    | OpsDiffer(position: nat, rule: Rule)

  /** The seed renaming: each expected input argument bound to the optimized
      input argument at the same position; a later pair overrides an
      earlier one for the same box. */
  function SeedRemap(optimized: seq<Value>, expected: seq<Value>): Remap
    requires |optimized| == |expected|
    decreases |expected|
  {
    if expected == [] then map[]
    else
      var n := |expected| - 1;
      SeedRemap(optimized[..n], expected[..n])[expected[n] := optimized[n]]
  }

  /** With distinct expected inputs the seed binds exactly them, each to the
      optimized input at its position. */
  lemma {:induction false} SeedRemapPositional(optimized: seq<Value>, expected: seq<Value>)
    requires |optimized| == |expected|
    requires forall p, q :: 0 <= p < q < |expected| ==> expected[p] != expected[q]
    ensures SeedRemap(optimized, expected).Keys == set y | y in expected
    ensures forall i :: 0 <= i < |expected| ==> SeedRemap(optimized, expected)[expected[i]] == optimized[i]
    decreases |expected|
  {
    if expected != [] {
      var n := |expected| - 1;
      SeedRemapPositional(optimized[..n], expected[..n]);
      assert expected == expected[..n] + [expected[n]];
      forall i | 0 <= i < n ensures expected[..n][i] == expected[i] && optimized[..n][i] == optimized[i] {
      }
    }
  }

  /** Seeding from a loop's own inputs binds every input to itself. */
  lemma {:induction false} SeedRemapOfSelfIsIdentity(inputs: seq<Value>)
    ensures IsIdentity(SeedRemap(inputs, inputs))
    decreases |inputs|
  {
    if inputs != [] {
      var n := |inputs| - 1;
      SeedRemapOfSelfIsIdentity(inputs[..n]);
    }
  }

  predicate SameClasses(optimized: seq<Value>, expected: seq<Value>, upTo: nat)
    requires upTo <= |optimized| && upTo <= |expected|
  {
    forall j :: 0 <= j < upTo ==> ClassOf(optimized[j]) == ClassOf(expected[j])
  }

  /** `assert_equal(optimized, expected)`: the input counts must agree and
      the inputs pair up class by class; the pairs seed the renaming, and
      the operations are then compared with lenient fail-arguments. */
  method AssertEqual(optimized: Loop, expected: Loop) returns (r: CheckResult)
    ensures r == InputCountDiffers <==> |optimized.inputargs| != |expected.inputargs|
    ensures r.InputClassDiffers? ==>
      && |optimized.inputargs| == |expected.inputargs|
      && r.index < |expected.inputargs|
      && SameClasses(optimized.inputargs, expected.inputargs, r.index)
      && ClassOf(optimized.inputargs[r.index]) != ClassOf(expected.inputargs[r.index])
    ensures (r.Passed? || r.OpsDiffer?) ==>
      && |optimized.inputargs| == |expected.inputargs|
      && SameClasses(optimized.inputargs, expected.inputargs, |expected.inputargs|)
    ensures r.Passed? ==>
      Compare(optimized.operations, expected.operations, false,
              SeedRemap(optimized.inputargs, expected.inputargs)).Equal?
    ensures r.OpsDiffer? ==>
      Compare(optimized.operations, expected.operations, false,
              SeedRemap(optimized.inputargs, expected.inputargs)) == Mismatch(r.position, r.rule)
  {
    var xs, ys := optimized.inputargs, expected.inputargs;
    if |xs| != |ys| {
      return InputCountDiffers;
    }
    var remap: Remap := map[];
    var i := 0;
    while i < |ys|
      invariant 0 <= i <= |ys|
      invariant SameClasses(xs, ys, i)
      invariant remap == SeedRemap(xs[..i], ys[..i])
    {
      if ClassOf(xs[i]) != ClassOf(ys[i]) {
        return InputClassDiffers(i);
      }
      assert xs[..i + 1][..i] == xs[..i] && ys[..i + 1][..i] == ys[..i];
      remap := remap[ys[i] := xs[i]];
      i := i + 1;
    }
    assert xs[..i] == xs && ys[..i] == ys;
    var v := EqualOpLists(optimized.operations, expected.operations, false, remap);
    match v
    case Equal(_) => r := Passed;
    case Mismatch(p, rule) => r := OpsDiffer(p, rule);
  }

  /** A loop passes `assert_equal` against itself. */
  lemma AssertEqualReflexive(loop: Loop)
    ensures SameClasses(loop.inputargs, loop.inputargs, |loop.inputargs|)
    ensures Compare(loop.operations, loop.operations, false,
                    SeedRemap(loop.inputargs, loop.inputargs)).Equal?
  {
    SeedRemapOfSelfIsIdentity(loop.inputargs);
    CompareReflexive(loop.operations, false, SeedRemap(loop.inputargs, loop.inputargs));
  }

  /** What a pass means when the expected inputs are distinct boxes: the
      final renaming sends each expected input to the optimized input at
      its position, and each optimized operation is the expected one under
      that renaming. */
  lemma AssertEqualMeaning(optimized: Loop, expected: Loop)
    requires |optimized.inputargs| == |expected.inputargs|
    requires forall p, q :: 0 <= p < q < |expected.inputargs| ==> expected.inputargs[p] != expected.inputargs[q]
    requires Compare(optimized.operations, expected.operations, false,
                     SeedRemap(optimized.inputargs, expected.inputargs)).Equal?
    ensures |optimized.operations| == |expected.operations|
    ensures forall i :: 0 <= i < |expected.inputargs| ==>
      && expected.inputargs[i] in Compare(optimized.operations, expected.operations, false,
                                          SeedRemap(optimized.inputargs, expected.inputargs)).remap
      && Compare(optimized.operations, expected.operations, false,
                 SeedRemap(optimized.inputargs, expected.inputargs)).remap[expected.inputargs[i]]
           == optimized.inputargs[i]
    ensures forall i :: 0 <= i < |expected.operations| ==>
      RenamedOp(Compare(optimized.operations, expected.operations, false,
                        SeedRemap(optimized.inputargs, expected.inputargs)).remap,
                optimized.operations[i], expected.operations[i])
  {
    var seed := SeedRemap(optimized.inputargs, expected.inputargs);
    SeedRemapPositional(optimized.inputargs, expected.inputargs);
    CompareSound(optimized.operations, expected.operations, false, seed);
  }

  // ---------------------------------------------------------------------
  // convert_old_style_to_targets

  /** The `FakeDescr()` attached to the LABELs; any two compare equal. */
  const labelDescr: Descr := Descr(0, FakeDescr, 0)

  function LabelOver(args: seq<Value>): Op {
    Op(Label, args, None, Some(labelDescr), [])
  }

  datatype Converted = Converted(loop: Loop) | LastOpNotJump

  /** `convert_old_style_to_targets(loop, jump)`: prepends a LABEL over the
      input arguments; unless `jump`, the last operation must be a JUMP and
      becomes a LABEL over the JUMP's arguments. */
  function ConvertOldStyleToTargets(loop: Loop, jump: bool): (r: Converted)
    ensures r.Converted? <==> jump || (loop.operations != [] && loop.operations[|loop.operations| - 1].opcode == Jump)
    ensures r.Converted? ==>
      && r.loop.name == loop.name
      && r.loop.inputargs == loop.inputargs
      && |r.loop.operations| == |loop.operations| + 1
      && r.loop.operations[0] == LabelOver(loop.inputargs)
    ensures r.Converted? && jump ==> r.loop.operations[1..] == loop.operations
    ensures r.Converted? && !jump ==>
      var n := |loop.operations|;
      && r.loop.operations[1..n] == loop.operations[..n - 1]
      && r.loop.operations[n] == LabelOver(loop.operations[n - 1].args)
  {
    var ops := [LabelOver(loop.inputargs)] + loop.operations;
    var last := ops[|ops| - 1];
    if jump then Converted(Loop(loop.name, loop.inputargs, ops))
    else if last.opcode == Jump then
      Converted(Loop(loop.name, loop.inputargs, ops[..|ops| - 1] + [LabelOver(last.args)]))
    else LastOpNotJump
  }
}
