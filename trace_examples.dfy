/** The traces the comparison is exercised on: `[i0]`, `i1 = int_add(i0, 1)`,
    `i2 = <op>(i1, 1)`, `guard_true(i1) [<failargs>]`, `jump(i1)`, each list
    built twice over the same boxes, as two parses sharing one namespace do. */
module TraceEqualityExamples {
  import opened Wrappers
  import opened Resop
  import opened TraceEquality

  const i0: Value := Box(0, INT)
  const i1: Value := Box(1, INT)
  const i2: Value := Box(2, INT)

  const addI1: Op := Op(IntAdd, [i0, ConstInt(1)], Some(i1), None, [])
  const jumpI1: Op := Op(Jump, [i1], None, None, [])

  function SecondOp(opcode: Opcode): Op {
    Op(opcode, [i1, ConstInt(1)], Some(i2), None, [])
  }

  function GuardOp(failargs: seq<Option<Value>>): Op {
    Op(GuardTrue, [i1], None, None, failargs)
  }

  function SampleTrace(second: Opcode, failargs: seq<Option<Value>>): seq<Op> {
    [addI1, SecondOp(second), GuardOp(failargs), jumpI1]
  }

  /** The renamings after the first and second operation of two copies of
      `SampleTrace`: every box bound to itself. */
  const afterFirst: Remap := map[i0 := i0, i1 := i1]
  const afterSecond: Remap := map[i0 := i0, i1 := i1, i2 := i2]

  lemma FirstStep(strict: bool)
    ensures CompareOp(addI1, addI1, strict, map[]) == StepOk(afterFirst)
  {
    var args := addI1.args;
    assert MatchValue(map[], i0, i0) == Some(map[i0 := i0]);
    assert args[1..] == [ConstInt(1)] && args[1..][1..] == [];
    assert MatchArgs(map[i0 := i0], args[1..], args[1..]) == Some(map[i0 := i0]);
    assert MatchArgs(map[], args, args) == Some(map[i0 := i0]);
  }

  lemma SecondStep(strict: bool)
    ensures CompareOp(SecondOp(IntAdd), SecondOp(IntAdd), strict, afterFirst) == StepOk(afterSecond)
  {
    var args := SecondOp(IntAdd).args;
    assert args[1..] == [ConstInt(1)] && args[1..][1..] == [];
    assert MatchArgs(afterFirst, args[1..], args[1..]) == Some(afterFirst);
    assert MatchArgs(afterFirst, args, args) == Some(afterFirst);
  }

  lemma GuardArgs()
    ensures MatchArgs(afterSecond, [i1], [i1]) == Some(afterSecond)
  {
    assert [i1][1..] == [];
  }

  /** Walks the first two operations of two sample traces. */
  lemma FirstTwoSteps(second: Opcode, fa1: seq<Option<Value>>, fa2: seq<Option<Value>>, strict: bool)
    ensures Compare(SampleTrace(IntAdd, fa1), SampleTrace(second, fa2), strict, map[])
         == Shift(Compare(SampleTrace(IntAdd, fa1)[1..], SampleTrace(second, fa2)[1..], strict, afterFirst), 1)
    ensures second == IntAdd ==>
            (Compare(SampleTrace(IntAdd, fa1), SampleTrace(second, fa2), strict, map[])
          == Shift(Compare(SampleTrace(IntAdd, fa1)[2..], SampleTrace(second, fa2)[2..], strict, afterSecond), 2))
  {
    var t1, t2 := SampleTrace(IntAdd, fa1), SampleTrace(second, fa2);
    assert t1[0..] == t1 && t2[0..] == t2;
    FirstStep(strict);
    CompareAt(t1, t2, strict, map[], 0);
    if second == IntAdd {
      SecondStep(strict);
      CompareAt(t1, t2, strict, afterFirst, 1);
    }
  }

  /** Two parses of one trace are equal. */
  lemma SameTraceAccepted()
    ensures Compare(SampleTrace(IntAdd, [Some(i2)]), SampleTrace(IntAdd, [Some(i2)]), true, map[]).Equal?
  {
    CompareReflexive(SampleTrace(IntAdd, [Some(i2)]), true, map[]);
  }

  /** Changing the second operation from `int_add` to `int_sub` is caught
      there, by the opcode check. */
  lemma OpcodeChangeRejected()
    ensures Compare(SampleTrace(IntAdd, [Some(i2)]), SampleTrace(IntSub, [Some(i2)]), true, map[])
         == Mismatch(1, OpcodeRule)
  {
    var t1, t2 := SampleTrace(IntAdd, [Some(i2)]), SampleTrace(IntSub, [Some(i2)]);
    FirstTwoSteps(IntSub, [Some(i2)], [Some(i2)], true);
    CompareAt(t1, t2, true, afterFirst, 1);
  }

  /** Fail-arguments `[i2, i1]` against `[i1, i2]`: rejected at the guard in
      strict mode. */
  lemma FailArgsOrderRejectedWhenStrict()
    ensures Compare(SampleTrace(IntAdd, [Some(i2), Some(i1)]), SampleTrace(IntAdd, [Some(i1), Some(i2)]), true, map[])
         == Mismatch(2, FailArgsRule)
  {
    var t1, t2 := SampleTrace(IntAdd, [Some(i2), Some(i1)]), SampleTrace(IntAdd, [Some(i1), Some(i2)]);
    FirstTwoSteps(IntAdd, [Some(i2), Some(i1)], [Some(i1), Some(i2)], true);
    GuardArgs();
    assert RenameFailArgs(afterSecond, [Some(i1), Some(i2)]) == [Some(i1), Some(i2)];
    assert CompareOp(t1[2], t2[2], true, afterSecond) == StepFail(FailArgsRule);
    CompareAt(t1, t2, true, afterSecond, 2);
  }

  lemma ReorderedGuardStep()
    ensures CompareOp(GuardOp([Some(i2), Some(i1)]), GuardOp([Some(i1), Some(i2)]), false, afterSecond)
         == StepOk(afterSecond)
  {
    GuardArgs();
    var renamed := RenameFailArgs(afterSecond, [Some(i1), Some(i2)]);
    assert renamed == [Some(i1), Some(i2)];
    assert FailArgsMatch(false, afterSecond, [Some(i2), Some(i1)], [Some(i1), Some(i2)]);
  }

  lemma SubstitutedGuardStep(strict: bool)
    ensures CompareOp(GuardOp([Some(i2), Some(i1)]), GuardOp([Some(i2), Some(i0)]), strict, afterSecond)
         == StepFail(FailArgsRule)
  {
    GuardArgs();
    var renamed := RenameFailArgs(afterSecond, [Some(i2), Some(i0)]);
    assert renamed == [Some(i2), Some(i0)];
    assert Some(i1) in [Some(i2), Some(i1)];
    assert Some(i1) !in renamed;
    assert !FailArgsMatch(strict, afterSecond, [Some(i2), Some(i1)], [Some(i2), Some(i0)]);
  }

  lemma JumpStep(strict: bool)
    ensures CompareOp(jumpI1, jumpI1, strict, afterSecond) == StepOk(afterSecond)
  {
    GuardArgs();
    assert FailArgsMatch(strict, afterSecond, [], []);
  }

  /** The same reordering is accepted when fail-arguments are compared
      leniently. */
  lemma FailArgsOrderAcceptedWhenLenient()
    ensures Compare(SampleTrace(IntAdd, [Some(i2), Some(i1)]), SampleTrace(IntAdd, [Some(i1), Some(i2)]), false, map[]).Equal?
  {
    var t1, t2 := SampleTrace(IntAdd, [Some(i2), Some(i1)]), SampleTrace(IntAdd, [Some(i1), Some(i2)]);
    FirstTwoSteps(IntAdd, [Some(i2), Some(i1)], [Some(i1), Some(i2)], false);
    ReorderedGuardStep();
    CompareAt(t1, t2, false, afterSecond, 2);
    JumpStep(false);
    CompareAt(t1, t2, false, afterSecond, 3);
    assert t1[4..] == [] && t2[4..] == [];
  }

  /** Fail-arguments `[i2, i1]` against `[i2, i0]`: rejected at the guard in
      both modes, since `i0` and `i1` are not interchangeable. */
  lemma FailArgsSubstitutionRejected(strict: bool)
    ensures Compare(SampleTrace(IntAdd, [Some(i2), Some(i1)]), SampleTrace(IntAdd, [Some(i2), Some(i0)]), strict, map[])
         == Mismatch(2, FailArgsRule)
  {
    var t1, t2 := SampleTrace(IntAdd, [Some(i2), Some(i1)]), SampleTrace(IntAdd, [Some(i2), Some(i0)]);
    FirstTwoSteps(IntAdd, [Some(i2), Some(i1)], [Some(i2), Some(i0)], strict);
    SubstitutedGuardStep(strict);
    CompareAt(t1, t2, strict, afterSecond, 2);
  }

  /** A renaming clash: `i1 = int_add(i0, i0)` against `i1 = int_add(i0, i9)`.
      Once `i0` is bound to `i0`, binding `i9` to `i0` as well would map two
      boxes to one, so the arguments are rejected. */
  lemma RenamingClashRejected(strict: bool)
    ensures Compare([Op(IntAdd, [i0, i0], Some(i1), None, [])],
                    [Op(IntAdd, [i0, Box(9, INT)], Some(i1), None, [])], strict, map[])
         == Mismatch(0, ArgRule)
  {
    var xs, ys := [i0, i0], [i0, Box(9, INT)];
    assert MatchValue(map[], i0, i0) == Some(map[i0 := i0]);
    assert i0 in map[i0 := i0].Values;
    assert MatchValue(map[i0 := i0], i0, Box(9, INT)) == None;
    assert xs[1..] == [i0] && ys[1..] == [Box(9, INT)];
    assert MatchArgs(map[i0 := i0], xs[1..], ys[1..]) == None;
    assert MatchArgs(map[], xs, ys) == None;
  }

  /** The sample trace written over other boxes, `j0`, `j1`, `j2`. */
  const j0: Value := Box(10, INT)
  const j1: Value := Box(11, INT)
  const j2: Value := Box(12, INT)

  const otherBoxesTrace: seq<Op> := [
    Op(IntAdd, [j0, ConstInt(1)], Some(j1), None, []),
    Op(IntAdd, [j1, ConstInt(1)], Some(j2), None, []),
    Op(GuardTrue, [j1], None, None, [Some(j2)]),
    Op(Jump, [j1], None, None, [])]

  const jToI: Remap := map[j0 := i0, j1 := i1, j2 := i2]

  /** Each pair of the two traces is related by `jToI`. */
  lemma OtherBoxesRelated(i: nat)
    requires i < |otherBoxesTrace|
    ensures RenamedOp(jToI, SampleTrace(IntAdd, [Some(i2)])[i], otherBoxesTrace[i])
    ensures SampleTrace(IntAdd, [Some(i2)])[i].failargs == RenameFailArgs(jToI, otherBoxesTrace[i].failargs)
    ensures OpBoxes(otherBoxesTrace[i]) <= jToI.Keys
  {
    var op1, op2 := SampleTrace(IntAdd, [Some(i2)])[i], otherBoxesTrace[i];
    assert RenameAll(jToI, op2.args) == op1.args;
    assert RenameFailArgs(jToI, op2.failargs) == op1.failargs;
    forall y | y in OpBoxes(op2) ensures y in jToI.Keys {
      assert y == j0 || y == j1 || y == j2;
    }
  }

  /** The guard's fail-argument `j2` is the result of the operation before it. */
  lemma OtherBoxesFailArgsBound(i: nat)
    requires i < |otherBoxesTrace|
    ensures FailArgBoxes(otherBoxesTrace[i].failargs) <= Mentioned(otherBoxesTrace[..i + 1])
  {
    var ops2 := otherBoxesTrace;
    if i == 2 {
      assert FailArgBoxes(ops2[2].failargs) == {j2};
      assert ops2[..3][1..][0] == ops2[1];
      assert j2 in OpBoxes(ops2[1]);
    } else {
      assert FailArgBoxes(ops2[i].failargs) == {};
    }
  }

  lemma JToIInjective()
    ensures Injective(jToI) && ImagesAreBoxes(jToI)
  {
  }

  /** Two traces over different boxes are equal when one renames into the
      other: `j0, j1, j2` stand for `i0, i1, i2`, in either mode. */
  lemma OtherBoxesAccepted(strict: bool)
    ensures Compare(SampleTrace(IntAdd, [Some(i2)]), otherBoxesTrace, strict, map[]).Equal?
  {
    var ops1, ops2 := SampleTrace(IntAdd, [Some(i2)]), otherBoxesTrace;
    var seed: Remap := map[];
    JToIInjective();
    forall i | 0 <= i < |ops2|
      ensures RenamedOp(jToI, ops1[i], ops2[i]) && ops1[i].failargs == RenameFailArgs(jToI, ops2[i].failargs)
      ensures OpBoxes(ops2[i]) <= jToI.Keys
      ensures FailArgBoxes(ops2[i].failargs) <= seed.Keys + Mentioned(ops2[..i + 1])
    {
      OtherBoxesRelated(i);
      OtherBoxesFailArgsBound(i);
    }
    assert FailArgsBound(seed.Keys, ops2);
    CompareComplete(ops1, ops2, strict, seed, jToI);
  }
}
