/** `equaloplists`: are two operation lists the same up to a consistent
    renaming of boxes? The renaming maps boxes of the second list (the
    expected trace) to boxes of the first (the optimized trace), as the
    seed that `assert_equal` builds does. */
module TraceEquality {
  import opened Wrappers
  import opened Resop
  import opened Descriptors

  type Remap = map<Value, Value>

  /** Which check rejected a pair of operations. */
  datatype Rule = LengthRule | OpcodeRule | ArgCountRule | ArgRule | ResultRule | DescrRule | FailArgsRule

  /** The verdict: equal, with the final renaming, or the first position
      where the lists diverge and the rule that failed there. */
  datatype Verdict = Equal(remap: Remap) | Mismatch(position: nat, rule: Rule)

  /** The outcome of comparing one pair of operations. */
  datatype Step = StepOk(remap: Remap) | StepFail(rule: Rule)

  /** What a value of the second list stands for in the first: a bound box
      its image, anything else itself (a constant is never renamed). */
  function Rename(m: Remap, y: Value): Value {
    if y.Box? && y in m then m[y] else y
  }

  function RenameAll(m: Remap, ys: seq<Value>): (r: seq<Value>)
    ensures |r| == |ys|
    ensures forall i :: 0 <= i < |ys| ==> r[i] == Rename(m, ys[i])
  {
    if ys == [] then [] else [Rename(m, ys[0])] + RenameAll(m, ys[1..])
  }

  function RenameOpt(m: Remap, y: Option<Value>): Option<Value> {
    match y
    case None => None
    case Some(v) => Some(Rename(m, v))
  }

  function RenameFailArgs(m: Remap, ys: seq<Option<Value>>): (r: seq<Option<Value>>)
    ensures |r| == |ys|
    ensures forall i :: 0 <= i < |ys| ==> r[i] == RenameOpt(m, ys[i])
  {
    if ys == [] then [] else [RenameOpt(m, ys[0])] + RenameFailArgs(m, ys[1..])
  }

  /** `m2` keeps every binding of `m1`. */
  predicate Extends(m1: Remap, m2: Remap) {
    forall k :: k in m1 ==> k in m2 && m2[k] == m1[k]
  }

  /** Checks that `x` (first list) corresponds to `y` (second list): a
      constant must be equal, a bound box must be bound to `x`, and an
      unbound box is bound to `x` here, at its first occurrence, provided
      `x` is a box that no other box is bound to already (the renaming is
      one-to-one: a value mapped to two counterparts is a clash). */
  function MatchValue(m: Remap, x: Value, y: Value): Option<Remap> {
    if y.ConstInt? then
      (if x == y then Some(m) else None)
    else if y in m then
      (if m[y] == x then Some(m) else None)
    else if x.Box? && x !in m.Values then
      Some(m[y := x])
    else
      None
  }

  /** A successful match keeps the old bindings, adds at most a binding of
      `y`, and renames `y` to `x`; a constant equal to `x` or a box already
      bound to `x` matches without changing anything. */
  lemma MatchValueSound(m: Remap, x: Value, y: Value)
    ensures MatchValue(m, x, y).Some? ==>
      Extends(m, MatchValue(m, x, y).value) && Rename(MatchValue(m, x, y).value, y) == x
    ensures MatchValue(m, x, y).Some? ==>
      forall k :: k in MatchValue(m, x, y).value && k !in m ==> k == y
    ensures (y.Box? && y in m && m[y] == x) || (y.ConstInt? && x == y) ==> MatchValue(m, x, y) == Some(m)
    ensures y.Box? && y !in m && MatchValue(m, x, y).Some? ==> x.Box? && x !in m.Values
    ensures y.Box? && y !in m && x.Box? && x !in m.Values ==> MatchValue(m, x, y) == Some(m[y := x])
  {
  }

  /** Matches two argument lists of the same length position by position. */
  function MatchArgs(m: Remap, xs: seq<Value>, ys: seq<Value>): Option<Remap>
    requires |xs| == |ys|
    decreases |xs|
  {
    if xs == [] then Some(m)
    else
      match MatchValue(m, xs[0], ys[0])
      case None => None
      case Some(m1) => MatchArgs(m1, xs[1..], ys[1..])
  }

  /** A successful match of argument lists extends the renaming, and under
      the final renaming the second list becomes the first. */
  lemma {:induction false} MatchArgsSound(m: Remap, xs: seq<Value>, ys: seq<Value>)
    requires |xs| == |ys|
    ensures MatchArgs(m, xs, ys).Some? ==>
      Extends(m, MatchArgs(m, xs, ys).value) && xs == RenameAll(MatchArgs(m, xs, ys).value, ys)
    decreases |xs|
  {
    if xs != [] && MatchArgs(m, xs, ys).Some? {
      MatchValueSound(m, xs[0], ys[0]);
      var m1 := MatchValue(m, xs[0], ys[0]).value;
      var fin := MatchArgs(m1, xs[1..], ys[1..]).value;
      assert MatchArgs(m, xs, ys).value == fin;
      MatchArgsSound(m1, xs[1..], ys[1..]);
      RenameStable(m1, fin, ys[0]);
      ExtendsTransitive(m, m1, fin);
      assert RenameAll(fin, ys) == [Rename(fin, ys[0])] + RenameAll(fin, ys[1..]);
      assert xs == [xs[0]] + xs[1..];
    }
  }

  /** No two boxes of the second list are renamed to one box of the first. */
  predicate Injective(m: Remap) {
    forall a, b :: a in m && b in m && m[a] == m[b] ==> a == b
  }

  lemma MatchValueInjective(m: Remap, x: Value, y: Value)
    requires Injective(m)
    ensures MatchValue(m, x, y).Some? ==> Injective(MatchValue(m, x, y).value)
  {
  }

  lemma {:induction false} MatchArgsInjective(m: Remap, xs: seq<Value>, ys: seq<Value>)
    requires |xs| == |ys| && Injective(m)
    ensures MatchArgs(m, xs, ys).Some? ==> Injective(MatchArgs(m, xs, ys).value)
    decreases |xs|
  {
    if xs != [] && MatchValue(m, xs[0], ys[0]).Some? {
      MatchValueInjective(m, xs[0], ys[0]);
      MatchArgsInjective(MatchValue(m, xs[0], ys[0]).value, xs[1..], ys[1..]);
    }
  }

  lemma ExtendsTransitive(m1: Remap, m2: Remap, m3: Remap)
    requires Extends(m1, m2) && Extends(m2, m3)
    ensures Extends(m1, m3)
  {
  }

  /** A binding, once made, is kept by every extension. */
  lemma RenameStable(m1: Remap, m2: Remap, y: Value)
    requires Extends(m1, m2)
    requires y.Box? ==> y in m1
    ensures Rename(m2, y) == Rename(m1, y)
  {
  }

  function MatchResult(m: Remap, x: Option<Value>, y: Option<Value>): Option<Remap> {
    match (x, y)
    case (None, None) => Some(m)
    case (Some(a), Some(b)) => MatchValue(m, a, b)
    case _ => None
  }

  /** A successful match of results extends the renaming and renames the
      second result to the first. */
  lemma MatchResultSound(m: Remap, x: Option<Value>, y: Option<Value>)
    ensures MatchResult(m, x, y).Some? ==>
      Extends(m, MatchResult(m, x, y).value) && x == RenameOpt(MatchResult(m, x, y).value, y)
  {
    if x.Some? && y.Some? {
      MatchValueSound(m, x.value, y.value);
    }
  }

  /** Fail-arguments are compared only when either list has some. Strict:
      position by position after renaming. Lenient: the same length and
      the same renamed values, in any order. They never extend the renaming. */
  predicate FailArgsMatch(strict: bool, m: Remap, fa1: seq<Option<Value>>, fa2: seq<Option<Value>>) {
    (fa1 == [] && fa2 == []) ||
    (|fa1| == |fa2| &&
     var renamed := RenameFailArgs(m, fa2);
     if strict then fa1 == renamed
     else (forall x :: x in fa1 ==> x in renamed) && (forall y :: y in renamed ==> y in fa1))
  }

  /** Compares one pair of operations: opcode, argument count, arguments,
      result, descriptor, fail-arguments, in that order. */
  function CompareOp(op1: Op, op2: Op, strict: bool, m: Remap): (r: Step)
    ensures r.StepOk? ==> Extends(m, r.remap)
  {
    if op1.opcode != op2.opcode then StepFail(OpcodeRule)
    else if |op1.args| != |op2.args| then StepFail(ArgCountRule)
    else match MatchArgs(m, op1.args, op2.args)
      case None => StepFail(ArgRule)
      case Some(m1) =>
        MatchArgsSound(m, op1.args, op2.args);
        MatchResultSound(m1, op1.result, op2.result);
        match MatchResult(m1, op1.result, op2.result)
        case None => StepFail(ResultRule)
        case Some(m2) =>
          if !DescrEq(op1.descr, op2.descr) then StepFail(DescrRule)
          else if !FailArgsMatch(strict, m2, op1.failargs, op2.failargs) then StepFail(FailArgsRule)
          else StepOk(m2)
  }

  function Shift(v: Verdict, n: nat): Verdict {
    match v
    case Equal(m) => v
    case Mismatch(p, rule) => Mismatch(p + n, rule)
  }

  /** The lock-step walk over both lists; running out of one list before the
      other is a length mismatch at that position. */
  function Compare(ops1: seq<Op>, ops2: seq<Op>, strict: bool, m: Remap): (v: Verdict)
    ensures v.Equal? ==> |ops1| == |ops2| && Extends(m, v.remap)
    ensures v.Mismatch? ==> v.position <= |ops1| && v.position <= |ops2|
    decreases |ops1|
  {
    if ops1 == [] || ops2 == [] then
      (if |ops1| == |ops2| then Equal(m) else Mismatch(0, LengthRule))
    else
      match CompareOp(ops1[0], ops2[0], strict, m)
      case StepFail(rule) => Mismatch(0, rule)
      case StepOk(m1) => Shift(Compare(ops1[1..], ops2[1..], strict, m1), 1)
  }

  /** The same walk, by position: compares the pairs from position `i` on. */
  function Walk(ops1: seq<Op>, ops2: seq<Op>, strict: bool, m: Remap, i: nat): (v: Verdict)
    requires i <= |ops1| && i <= |ops2|
    decreases |ops1| - i
  {
    if i == |ops1| || i == |ops2| then
      (if |ops1| == |ops2| then Equal(m) else Mismatch(i, LengthRule))
    else
      match CompareOp(ops1[i], ops2[i], strict, m)
      case StepFail(rule) => Mismatch(i, rule)
      case StepOk(m1) => Walk(ops1, ops2, strict, m1, i + 1)
  }

  /** Walking from position `i` is comparing the suffixes from `i`, with
      positions counted in the whole lists. */
  lemma {:induction false} WalkIsCompare(ops1: seq<Op>, ops2: seq<Op>, strict: bool, m: Remap, i: nat)
    requires i <= |ops1| && i <= |ops2|
    ensures Walk(ops1, ops2, strict, m, i) == Shift(Compare(ops1[i..], ops2[i..], strict, m), i)
    decreases |ops1| - i
  {
    if i == |ops1| || i == |ops2| {
      assert ops1[i..] == [] || ops2[i..] == [];
    } else {
      CompareAt(ops1, ops2, strict, m, i);
      match CompareOp(ops1[i], ops2[i], strict, m)
      case StepFail(rule) =>
      case StepOk(m1) => WalkIsCompare(ops1, ops2, strict, m1, i + 1);
    }
  }

  /** `equaloplists(oplist1, oplist2, strict_fail_args, remap)`: walks both
      lists in lock-step, extending the renaming as it goes. */
  method EqualOpLists(ops1: seq<Op>, ops2: seq<Op>, strictFailArgs: bool, remap: Remap)
    returns (v: Verdict)
    ensures v == Compare(ops1, ops2, strictFailArgs, remap)
  {
    WalkFromStart(ops1, ops2, strictFailArgs, remap);
    var m := remap;
    var i := 0;
    while i < |ops1| && i < |ops2|
      invariant 0 <= i <= |ops1| && i <= |ops2|
      invariant Walk(ops1, ops2, strictFailArgs, remap, 0) == Walk(ops1, ops2, strictFailArgs, m, i)
    {
      var step := CompareStep(ops1, ops2, strictFailArgs, m, i);
      if step.StepFail? {
        return Mismatch(i, step.rule);
      }
      m := step.remap;
      i := i + 1;
    }
    if |ops1| == |ops2| {
      v := Equal(m);
    } else {
      v := Mismatch(i, LengthRule);
    }
  }

  /** Compares the pair at position `i`: a rejection is the walk's verdict
      from `i`, an acceptance continues the walk at `i + 1` with the
      extended renaming. */
  method CompareStep(ops1: seq<Op>, ops2: seq<Op>, strict: bool, m: Remap, i: nat) returns (step: Step)
    requires i < |ops1| && i < |ops2|
    ensures step.StepFail? ==> Walk(ops1, ops2, strict, m, i) == Mismatch(i, step.rule)
    ensures step.StepOk? ==> Walk(ops1, ops2, strict, m, i) == Walk(ops1, ops2, strict, step.remap, i + 1)
  {
    step := CompareOp(ops1[i], ops2[i], strict, m);
  }

  /** Walking from the start is the comparison itself. */
  lemma WalkFromStart(ops1: seq<Op>, ops2: seq<Op>, strict: bool, m: Remap)
    ensures Walk(ops1, ops2, strict, m, 0) == Compare(ops1, ops2, strict, m)
  {
    WalkIsCompare(ops1, ops2, strict, m, 0);
    assert ops1[0..] == ops1 && ops2[0..] == ops2;
  }

  /** One step of the walk at position `i`. */
  lemma CompareAt(ops1: seq<Op>, ops2: seq<Op>, strict: bool, m: Remap, i: nat)
    requires i < |ops1| && i < |ops2|
    ensures CompareOp(ops1[i], ops2[i], strict, m).StepFail? ==>
      Shift(Compare(ops1[i..], ops2[i..], strict, m), i)
        == Mismatch(i, CompareOp(ops1[i], ops2[i], strict, m).rule)
    ensures CompareOp(ops1[i], ops2[i], strict, m).StepOk? ==>
      Shift(Compare(ops1[i..], ops2[i..], strict, m), i)
        == Shift(Compare(ops1[i + 1..], ops2[i + 1..], strict, CompareOp(ops1[i], ops2[i], strict, m).remap), i + 1)
  {
    var t1, t2 := ops1[i..], ops2[i..];
    assert t1 != [] && t2 != [];
    assert t1[0] == ops1[i] && t2[0] == ops2[i];
    assert t1[1..] == ops1[i + 1..] && t2[1..] == ops2[i + 1..];
    match CompareOp(ops1[i], ops2[i], strict, m)
    case StepFail(rule) =>
    case StepOk(m1) =>
      ShiftTwice(Compare(t1[1..], t2[1..], strict, m1), 1, i);
  }

  lemma ShiftTwice(v: Verdict, a: nat, b: nat)
    ensures Shift(Shift(v, a), b) == Shift(v, a + b)
  {
  }

  /** What one accepted pair means: the same opcode, and the first
      operation's arguments and result are the second's under the renaming. */
  predicate RenamedOp(m: Remap, op1: Op, op2: Op) {
    && op1.opcode == op2.opcode
    && op1.args == RenameAll(m, op2.args)
    && op1.result == RenameOpt(m, op2.result)
    && DescrEq(op1.descr, op2.descr)
  }

  lemma RenamedOpExtends(m1: Remap, m2: Remap, op1: Op, op2: Op)
    requires RenamedOp(m1, op1, op2) && Extends(m1, m2)
    requires forall y :: y in op2.args && y.Box? ==> y in m1
    requires forall y :: op2.result == Some(y) && y.Box? ==> y in m1
    ensures RenamedOp(m2, op1, op2)
  {
    forall i | 0 <= i < |op2.args| ensures RenameAll(m2, op2.args)[i] == op1.args[i] {
      RenameStable(m1, m2, op2.args[i]);
    }
  }

  /** Soundness of an accepted comparison: the lists have one length, and
      the first list is the second with its boxes renamed by the final
      renaming, which extends the seed. */
  lemma {:induction false} CompareSound(ops1: seq<Op>, ops2: seq<Op>, strict: bool, m: Remap)
    requires Compare(ops1, ops2, strict, m).Equal?
    ensures |ops1| == |ops2|
    ensures forall i :: 0 <= i < |ops1| ==> RenamedOp(Compare(ops1, ops2, strict, m).remap, ops1[i], ops2[i])
    decreases |ops1|
  {
    var fin := Compare(ops1, ops2, strict, m).remap;
    if ops1 != [] {
      var m1 := CompareOp(ops1[0], ops2[0], strict, m).remap;
      CompareOpBinds(ops1[0], ops2[0], strict, m);
      CompareSound(ops1[1..], ops2[1..], strict, m1);
      RenamedOpExtends(m1, fin, ops1[0], ops2[0]);
      forall i | 0 <= i < |ops1| ensures RenamedOp(fin, ops1[i], ops2[i]) {
        if i > 0 {
          assert ops1[i] == ops1[1..][i - 1] && ops2[i] == ops2[1..][i - 1];
        }
      }
    }
  }

  /** A one-to-one seed stays one-to-one: an accepted comparison ends in a
      renaming that is a bijection between the boxes it binds and their
      images. */
  lemma {:induction false} CompareInjective(ops1: seq<Op>, ops2: seq<Op>, strict: bool, m: Remap)
    requires Injective(m) && Compare(ops1, ops2, strict, m).Equal?
    ensures Injective(Compare(ops1, ops2, strict, m).remap)
    decreases |ops1|
  {
    if ops1 != [] {
      var op1, op2 := ops1[0], ops2[0];
      MatchArgsInjective(m, op1.args, op2.args);
      var m1 := MatchArgs(m, op1.args, op2.args).value;
      if op1.result.Some? && op2.result.Some? {
        MatchValueInjective(m1, op1.result.value, op2.result.value);
      }
      CompareInjective(ops1[1..], ops2[1..], strict, CompareOp(op1, op2, strict, m).remap);
    }
  }

  /** The renaming in force after the first `n` pairs have been accepted
      (the seed when a pair among them was rejected). */
  function RemapAfter(ops1: seq<Op>, ops2: seq<Op>, strict: bool, m: Remap, n: nat): Remap
    requires n <= |ops1| && n <= |ops2|
    decreases n
  {
    if n == 0 then m
    else
      match CompareOp(ops1[0], ops2[0], strict, m)
      case StepFail(_) => m
      case StepOk(m1) => RemapAfter(ops1[1..], ops2[1..], strict, m1, n - 1)
  }

  /** Soundness for fail-arguments: in accepted lists the `i`-th pair's
      fail-arguments match, in the chosen mode, under the renaming in force
      once that pair's arguments and result are matched; and the final
      renaming is the one in force after the last pair. */
  lemma {:induction false} CompareFailArgsSound(ops1: seq<Op>, ops2: seq<Op>, strict: bool, m: Remap)
    requires Compare(ops1, ops2, strict, m).Equal?
    ensures |ops1| == |ops2|
    ensures Compare(ops1, ops2, strict, m).remap == RemapAfter(ops1, ops2, strict, m, |ops1|)
    ensures forall i :: 0 <= i < |ops1| ==>
      FailArgsMatch(strict, RemapAfter(ops1, ops2, strict, m, i + 1), ops1[i].failargs, ops2[i].failargs)
    decreases |ops1|
  {
    if ops1 != [] {
      var m1 := CompareOp(ops1[0], ops2[0], strict, m).remap;
      var t1, t2 := ops1[1..], ops2[1..];
      CompareFailArgsSound(t1, t2, strict, m1);
      forall i | 0 <= i < |ops1|
        ensures FailArgsMatch(strict, RemapAfter(ops1, ops2, strict, m, i + 1), ops1[i].failargs, ops2[i].failargs)
      {
        RemapAfterFirst(ops1, ops2, strict, m, i + 1);
        if i > 0 {
          assert ops1[i] == t1[i - 1] && ops2[i] == t2[i - 1];
        }
      }
      RemapAfterFirst(ops1, ops2, strict, m, |ops1|);
    }
  }

  /** A rejection names the first point of divergence: every pair before
      its position is accepted (each under the renaming in force there),
      and at its position either that pair is rejected by the reported
      rule, or one list has ended, the lengths differ and the rule is the
      length rule. */
  lemma {:induction false} CompareMismatchFirst(ops1: seq<Op>, ops2: seq<Op>, strict: bool, m: Remap)
    requires Compare(ops1, ops2, strict, m).Mismatch?
    ensures var p := Compare(ops1, ops2, strict, m).position;
      forall i :: 0 <= i < p ==> CompareOp(ops1[i], ops2[i], strict, RemapAfter(ops1, ops2, strict, m, i)).StepOk?
    ensures var p := Compare(ops1, ops2, strict, m).position;
      p < |ops1| && p < |ops2| ==>
        CompareOp(ops1[p], ops2[p], strict, RemapAfter(ops1, ops2, strict, m, p))
          == StepFail(Compare(ops1, ops2, strict, m).rule)
    ensures var p := Compare(ops1, ops2, strict, m).position;
      p == |ops1| || p == |ops2| ==> Compare(ops1, ops2, strict, m).rule == LengthRule && |ops1| != |ops2|
  {
    MismatchPrefix(ops1, ops2, strict, m);
    var v := Compare(ops1, ops2, strict, m);
    if v.position < |ops1| && v.position < |ops2| {
      MismatchAtPosition(ops1, ops2, strict, m, v.position);
    }
    MismatchAtEnd(ops1, ops2, strict, m);
  }

  /** Every pair before a rejection's position is accepted. */
  lemma MismatchPrefix(ops1: seq<Op>, ops2: seq<Op>, strict: bool, m: Remap)
    requires Compare(ops1, ops2, strict, m).Mismatch?
    ensures var p := Compare(ops1, ops2, strict, m).position;
      forall i :: 0 <= i < p ==> CompareOp(ops1[i], ops2[i], strict, RemapAfter(ops1, ops2, strict, m, i)).StepOk?
  {
    forall i | 0 <= i < Compare(ops1, ops2, strict, m).position
      ensures CompareOp(ops1[i], ops2[i], strict, RemapAfter(ops1, ops2, strict, m, i)).StepOk?
    {
      MismatchPrefixAccepted(ops1, ops2, strict, m, i);
    }
  }

  /** One pair before a rejection's position, by recursion on the position. */
  lemma {:induction false} MismatchPrefixAccepted(ops1: seq<Op>, ops2: seq<Op>, strict: bool, m: Remap, i: nat)
    requires Compare(ops1, ops2, strict, m).Mismatch? && i < Compare(ops1, ops2, strict, m).position
    ensures i < |ops1| && i < |ops2|
    ensures CompareOp(ops1[i], ops2[i], strict, RemapAfter(ops1, ops2, strict, m, i)).StepOk?
    decreases i
  {
    assert ops1 != [] && ops2 != [];
    match CompareOp(ops1[0], ops2[0], strict, m)
    case StepOk(m1) =>
      if i > 0 {
        MismatchPrefixAccepted(ops1[1..], ops2[1..], strict, m1, i - 1);
        RemapAfterFirst(ops1, ops2, strict, m, i);
      }
  }

  /** At a rejection's position inside both lists, that pair is rejected by
      the reported rule. */
  lemma {:induction false} MismatchAtPosition(ops1: seq<Op>, ops2: seq<Op>, strict: bool, m: Remap, p: nat)
    requires Compare(ops1, ops2, strict, m).Mismatch? && p == Compare(ops1, ops2, strict, m).position
    requires p < |ops1| && p < |ops2|
    ensures CompareOp(ops1[p], ops2[p], strict, RemapAfter(ops1, ops2, strict, m, p))
         == StepFail(Compare(ops1, ops2, strict, m).rule)
    decreases p
  {
    match CompareOp(ops1[0], ops2[0], strict, m)
    case StepOk(m1) =>
      MismatchAtPosition(ops1[1..], ops2[1..], strict, m1, p - 1);
      RemapAfterFirst(ops1, ops2, strict, m, p);
    case StepFail(_) =>
  }

  /** A rejection at the end of a list is a length mismatch. */
  lemma {:induction false} MismatchAtEnd(ops1: seq<Op>, ops2: seq<Op>, strict: bool, m: Remap)
    requires Compare(ops1, ops2, strict, m).Mismatch?
    ensures var p := Compare(ops1, ops2, strict, m).position;
      p == |ops1| || p == |ops2| ==> Compare(ops1, ops2, strict, m).rule == LengthRule && |ops1| != |ops2|
    decreases |ops1|
  {
    if ops1 != [] && ops2 != [] {
      match CompareOp(ops1[0], ops2[0], strict, m)
      case StepOk(m1) => MismatchAtEnd(ops1[1..], ops2[1..], strict, m1);
      case StepFail(_) =>
    }
  }

  /** After an accepted first pair, the renaming in force after `n` pairs
      is the one after `n - 1` pairs of the rest, from the extended seed. */
  lemma RemapAfterFirst(ops1: seq<Op>, ops2: seq<Op>, strict: bool, m: Remap, n: nat)
    requires 0 < n <= |ops1| && n <= |ops2| && CompareOp(ops1[0], ops2[0], strict, m).StepOk?
    ensures RemapAfter(ops1, ops2, strict, m, n)
         == RemapAfter(ops1[1..], ops2[1..], strict, CompareOp(ops1[0], ops2[0], strict, m).remap, n - 1)
  {
  }

  /** An accepted pair is renamed by the renaming it produces, which binds
      every box it mentions. */
  lemma CompareOpBinds(op1: Op, op2: Op, strict: bool, m: Remap)
    requires CompareOp(op1, op2, strict, m).StepOk?
    ensures RenamedOp(CompareOp(op1, op2, strict, m).remap, op1, op2)
    ensures forall y :: y in op2.args && y.Box? ==> y in CompareOp(op1, op2, strict, m).remap
    ensures forall y :: op2.result == Some(y) && y.Box? ==> y in CompareOp(op1, op2, strict, m).remap
  {
    var m1 := MatchArgs(m, op1.args, op2.args).value;
    var m2 := CompareOp(op1, op2, strict, m).remap;
    MatchArgsSound(m, op1.args, op2.args);
    MatchResultSound(m1, op1.result, op2.result);
    forall i | 0 <= i < |op2.args| ensures RenameAll(m2, op2.args)[i] == op1.args[i] {
      MatchArgsBinds(m, op1.args, op2.args);
      RenameStable(m1, m2, op2.args[i]);
    }
    MatchArgsBinds(m, op1.args, op2.args);
  }

  lemma {:induction false} MatchArgsBinds(m: Remap, xs: seq<Value>, ys: seq<Value>)
    requires |xs| == |ys| && MatchArgs(m, xs, ys).Some?
    ensures forall y :: y in ys && y.Box? ==> y in MatchArgs(m, xs, ys).value
    decreases |xs|
  {
    if xs != [] {
      var m1 := MatchValue(m, xs[0], ys[0]).value;
      MatchValueSound(m, xs[0], ys[0]);
      MatchArgsSound(m1, xs[1..], ys[1..]);
      MatchArgsBinds(m1, xs[1..], ys[1..]);
      forall y | y in ys && y.Box? ensures y in MatchArgs(m, xs, ys).value {
        if y != ys[0] {
          assert y in ys[1..];
        }
      }
    }
  }

  /** A renaming that sends every box it binds to a box. */
  predicate ImagesAreBoxes(s: Remap) {
    forall k :: k in s ==> s[k].Box?
  }

  /** The boxes an operation mentions as arguments or as its result. */
  function OpBoxes(op: Op): set<Value> {
    (set y | y in op.args && y.Box?) + (if op.result.Some? && op.result.value.Box? then {op.result.value} else {})
  }

  /** The argument and result boxes of a list of operations. */
  function Mentioned(ops: seq<Op>): set<Value> {
    if ops == [] then {} else OpBoxes(ops[0]) + Mentioned(ops[1..])
  }

  /** The boxes among live fail-arguments. */
  function FailArgBoxes(fa: seq<Option<Value>>): set<Value> {
    set o | o in fa && o.Some? && o.value.Box? :: o.value
  }

  /** Completeness for one value: when `x` is `y` under a one-to-one
      renaming `s` that agrees with `m`, the match succeeds, binds `y`, and
      stays within `s`. */
  lemma MatchValueComplete(m: Remap, s: Remap, x: Value, y: Value)
    requires Injective(s) && ImagesAreBoxes(s) && Extends(m, s)
    requires y.Box? ==> y in s
    requires x == Rename(s, y)
    ensures MatchValue(m, x, y).Some?
    ensures Extends(MatchValue(m, x, y).value, s)
    ensures y.Box? ==> y in MatchValue(m, x, y).value
  {
    if y.Box? && y !in m {
      forall k | k in m ensures m[k] != x {
        assert s[k] == m[k];
      }
    }
  }

  lemma {:induction false} MatchArgsComplete(m: Remap, s: Remap, xs: seq<Value>, ys: seq<Value>)
    requires Injective(s) && ImagesAreBoxes(s) && Extends(m, s)
    requires |xs| == |ys| && xs == RenameAll(s, ys)
    requires forall y :: y in ys && y.Box? ==> y in s
    ensures MatchArgs(m, xs, ys).Some? && Extends(MatchArgs(m, xs, ys).value, s)
    ensures m.Keys <= MatchArgs(m, xs, ys).value.Keys
    ensures forall y :: y in ys && y.Box? ==> y in MatchArgs(m, xs, ys).value
    decreases |xs|
  {
    if xs != [] {
      assert ys[0] in ys;
      MatchValueComplete(m, s, xs[0], ys[0]);
      var m1 := MatchValue(m, xs[0], ys[0]).value;
      assert xs[1..] == RenameAll(s, ys[1..]);
      forall y | y in ys[1..] && y.Box? ensures y in s {
        assert y in ys;
      }
      MatchArgsComplete(m1, s, xs[1..], ys[1..]);
      MatchArgsBinds(m, xs, ys);
    }
  }

  /** Results related by such a renaming match, within it, binding the
      second result when it is a box. */
  lemma MatchResultComplete(m: Remap, s: Remap, x: Option<Value>, y: Option<Value>)
    requires Injective(s) && ImagesAreBoxes(s) && Extends(m, s)
    requires x == RenameOpt(s, y)
    requires y.Some? && y.value.Box? ==> y.value in s
    ensures MatchResult(m, x, y).Some? && Extends(MatchResult(m, x, y).value, s)
    ensures m.Keys <= MatchResult(m, x, y).value.Keys
    ensures y.Some? && y.value.Box? ==> y.value in MatchResult(m, x, y).value
  {
    if y.Some? {
      MatchValueComplete(m, s, x.value, y.value);
    }
  }

  /** The arguments and result of a pair related by `s` match, within `s`,
      binding every box of the second operation. */
  lemma MatchPairComplete(op1: Op, op2: Op, m: Remap, s: Remap)
    requires Injective(s) && ImagesAreBoxes(s) && Extends(m, s)
    requires RenamedOp(s, op1, op2) && OpBoxes(op2) <= s.Keys
    ensures MatchArgs(m, op1.args, op2.args).Some?
    ensures MatchResult(MatchArgs(m, op1.args, op2.args).value, op1.result, op2.result).Some?
    ensures var m2 := MatchResult(MatchArgs(m, op1.args, op2.args).value, op1.result, op2.result).value;
      Extends(m2, s) && m.Keys + OpBoxes(op2) <= m2.Keys
  {
    forall y | y in op2.args && y.Box? ensures y in s {
      assert y in OpBoxes(op2);
    }
    if op2.result.Some? && op2.result.value.Box? {
      assert op2.result.value in OpBoxes(op2);
    }
    MatchArgsComplete(m, s, op1.args, op2.args);
    var m1 := MatchArgs(m, op1.args, op2.args).value;
    MatchResultComplete(m1, s, op1.result, op2.result);
  }

  /** Fail-arguments whose boxes are all bound rename the same under every
      extension. */
  lemma FailArgsRenameStable(m: Remap, s: Remap, fa: seq<Option<Value>>)
    requires Extends(m, s) && FailArgBoxes(fa) <= m.Keys
    ensures RenameFailArgs(m, fa) == RenameFailArgs(s, fa)
  {
    forall k | 0 <= k < |fa| ensures RenameFailArgs(m, fa)[k] == RenameFailArgs(s, fa)[k] {
      if fa[k].Some? && fa[k].value.Box? {
        assert fa[k].value in FailArgBoxes(fa);
      }
    }
  }

  /** Completeness for one pair: a pair related by `s`, with positionally
      renamed fail-arguments whose boxes are bound once the pair's own
      arguments and result are, is accepted; the renaming grows within `s`
      and binds every box of the second operation. */
  lemma CompareOpComplete(op1: Op, op2: Op, strict: bool, m: Remap, s: Remap)
    requires Injective(s) && ImagesAreBoxes(s) && Extends(m, s)
    requires RenamedOp(s, op1, op2) && op1.failargs == RenameFailArgs(s, op2.failargs)
    requires OpBoxes(op2) <= s.Keys
    requires FailArgBoxes(op2.failargs) <= m.Keys + OpBoxes(op2)
    ensures CompareOp(op1, op2, strict, m).StepOk?
    ensures Extends(CompareOp(op1, op2, strict, m).remap, s)
    ensures m.Keys + OpBoxes(op2) <= CompareOp(op1, op2, strict, m).remap.Keys
  {
    MatchPairComplete(op1, op2, m, s);
    var m2 := MatchResult(MatchArgs(m, op1.args, op2.args).value, op1.result, op2.result).value;
    FailArgsRenameStable(m2, s, op2.failargs);
  }

  /** Completeness of the comparison: two lists of one length, related pair
      by pair by a one-to-one renaming `s` of boxes that agrees with the
      seed, with equal descriptors and positionally renamed fail-arguments,
      are accepted in either mode, provided each fail-argument box is bound
      by the seed or mentioned as an argument or result up to its own
      operation. The final renaming lies within `s`. */
  lemma {:induction false} CompareComplete(ops1: seq<Op>, ops2: seq<Op>, strict: bool, m: Remap, s: Remap)
    requires Injective(s) && ImagesAreBoxes(s) && Extends(m, s)
    requires |ops1| == |ops2|
    requires forall i :: 0 <= i < |ops2| ==>
      RenamedOp(s, ops1[i], ops2[i]) && ops1[i].failargs == RenameFailArgs(s, ops2[i].failargs)
    requires forall i :: 0 <= i < |ops2| ==> OpBoxes(ops2[i]) <= s.Keys
    requires FailArgsBound(m.Keys, ops2)
    ensures Compare(ops1, ops2, strict, m).Equal?
    ensures Extends(Compare(ops1, ops2, strict, m).remap, s)
    decreases |ops1|
  {
    if ops1 != [] {
      FailArgsBoundFirst(m.Keys, ops2);
      CompareOpComplete(ops1[0], ops2[0], strict, m, s);
      var m1 := CompareOp(ops1[0], ops2[0], strict, m).remap;
      FailArgsBoundRest(m.Keys, m1.Keys, ops2);
      CompareComplete(ops1[1..], ops2[1..], strict, m1, s);
      assert Compare(ops1, ops2, strict, m) == Shift(Compare(ops1[1..], ops2[1..], strict, m1), 1);
    }
  }

  /** Every fail-argument box of the `i`-th operation is in `bound` or
      mentioned as an argument or result by the operations up to the `i`-th. */
  predicate FailArgsBound(bound: set<Value>, ops: seq<Op>) {
    forall i :: 0 <= i < |ops| ==> FailArgBoxes(ops[i].failargs) <= bound + Mentioned(ops[..i + 1])
  }

  lemma FailArgsBoundFirst(bound: set<Value>, ops: seq<Op>)
    requires ops != [] && FailArgsBound(bound, ops)
    ensures FailArgBoxes(ops[0].failargs) <= bound + OpBoxes(ops[0])
  {
    assert ops[..1] == [ops[0]] && Mentioned([ops[0]]) == OpBoxes(ops[0]) + Mentioned([]);
  }

  /** Once the first operation's boxes are bound, the rest of the list keeps
      its fail-arguments bound. */
  lemma FailArgsBoundRest(bound: set<Value>, bound1: set<Value>, ops: seq<Op>)
    requires ops != [] && FailArgsBound(bound, ops) && bound + OpBoxes(ops[0]) <= bound1
    ensures FailArgsBound(bound1, ops[1..])
  {
    var rest := ops[1..];
    forall i | 0 <= i < |rest| ensures FailArgBoxes(rest[i].failargs) <= bound1 + Mentioned(rest[..i + 1]) {
      var w := ops[..i + 2];
      assert w[0] == ops[0] && w[1..] == rest[..i + 1];
      assert rest[i] == ops[i + 1];
    }
  }

  /** A renaming that maps every bound box to itself. */
  predicate IsIdentity(m: Remap) {
    forall k :: k in m ==> m[k] == k
  }

  lemma {:induction false} IdentityMatchArgs(m: Remap, xs: seq<Value>)
    requires IsIdentity(m)
    ensures MatchArgs(m, xs, xs).Some? && IsIdentity(MatchArgs(m, xs, xs).value)
    decreases |xs|
  {
    if xs != [] {
      var m1 := MatchValue(m, xs[0], xs[0]).value;
      IdentityMatchArgs(m1, xs[1..]);
    }
  }

  lemma IdentityRenamesToItself(m: Remap, fa: seq<Option<Value>>)
    requires IsIdentity(m)
    ensures RenameFailArgs(m, fa) == fa
  {
    var r := RenameFailArgs(m, fa);
    forall i | 0 <= i < |fa| ensures r[i] == fa[i] {
      match fa[i]
      case None =>
      case Some(v) => assert Rename(m, v) == v;
    }
    assert |r| == |fa|;
  }

  /** Every trace equals itself, in either fail-argument mode, from any
      seed that maps boxes to themselves. */
  lemma {:induction false} CompareReflexive(ops: seq<Op>, strict: bool, m: Remap)
    requires IsIdentity(m)
    ensures Compare(ops, ops, strict, m).Equal?
    decreases |ops|
  {
    if ops != [] {
      var op := ops[0];
      IdentityMatchArgs(m, op.args);
      var m1 := MatchArgs(m, op.args, op.args).value;
      var m2 := MatchResult(m1, op.result, op.result).value;
      assert IsIdentity(m2);
      IdentityRenamesToItself(m2, op.failargs);
      DescrEqReflexive(op.descr);
      CompareReflexive(ops[1..], strict, m2);
    }
  }

  /** Strict fail-argument comparison is the stronger one: whatever it
      accepts, the lenient mode accepts too, with the same renaming. */
  lemma {:induction false} StrictImpliesLenient(ops1: seq<Op>, ops2: seq<Op>, m: Remap)
    requires Compare(ops1, ops2, true, m).Equal?
    ensures Compare(ops1, ops2, false, m) == Compare(ops1, ops2, true, m)
    decreases |ops1|
  {
    if ops1 != [] && ops2 != [] {
      var m1 := CompareOp(ops1[0], ops2[0], true, m).remap;
      assert CompareOp(ops1[0], ops2[0], false, m) == StepOk(m1);
      StrictImpliesLenient(ops1[1..], ops2[1..], m1);
    }
  }

  /** Lists whose opcodes differ at some position are never equal. */
  lemma OpcodeDifferenceRejected(ops1: seq<Op>, ops2: seq<Op>, strict: bool, m: Remap, k: nat)
    requires k < |ops1| && k < |ops2| && ops1[k].opcode != ops2[k].opcode
    ensures Compare(ops1, ops2, strict, m).Mismatch?
  {
    if Compare(ops1, ops2, strict, m).Equal? {
      CompareSound(ops1, ops2, strict, m);
    }
  }
}

