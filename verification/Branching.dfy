/** A program small enough to follow, what it does from start to finish, and what its translation does. */
module Branching {
  import opened Options
  import opened Ssa
  import opened Emission
  import opened Trampoline
  import opened Validity
  import opened Simulation
  import MethodCalls

  /** `func main(n int) { k := 5; f := func(x int, g func()) (a, b int) { if x != 0 { a, b = x, k } else { a, b =
      9, 9 }; return }; f(n, h) }` */
  const BRANCHING: Program := [MAIN, INNER, Function([Block([Return([])], [], [])], 0, false, 0)]

  const MAIN: Function := Function(
    [Block([MakeClosure(0, 1, [Const(5)]), Call(Some(1), Reg(0), [Param(0), FuncRef(2)]), Return([])], [], [])],
    1, false, 0)

  const INNER: Function := Function(
    [Block([If(Param(0))], [], [1, 2]),
     Block([Jump], [0], [3]),
     Block([Jump], [0], [3]),
     Block([Phi(0, [Param(0), Const(9)]), Phi(1, [FreeVar(0), Const(9)]), Return([Reg(0), Reg(1)])], [1, 2], [])],
    2, true, 1)

  // ----- it is well-formed

  lemma PhisAre()
    ensures PhiCount(MAIN.blocks[0].instrs) == 0 && PhiCount(BRANCHING[2].blocks[0].instrs) == 0
    ensures forall b | 0 <= b < 3 :: PhiCount(INNER.blocks[b].instrs) == 0
    ensures PhiCount(INNER.blocks[3].instrs) == 2
    ensures IndexOf(INNER.blocks[1].preds, 0) == 0 && IndexOf(INNER.blocks[3].preds, 1) == 0
    ensures 0 in INNER.blocks[1].preds && 0 in INNER.blocks[2].preds
    ensures 1 in INNER.blocks[3].preds && 2 in INNER.blocks[3].preds
  {
    var last := INNER.blocks[3].instrs;
    assert last[1..] == [Phi(1, [FreeVar(0), Const(9)]), Return([Reg(0), Reg(1)])];
    assert last[1..][1..] == [Return([Reg(0), Reg(1)])] && PhiCount(last[1..][1..]) == 0;
    assert PhiCount(last[1..]) == 1;
    assert INNER.blocks[1].preds[0] == 0 && INNER.blocks[2].preds[0] == 0;
    assert INNER.blocks[3].preds[0] == 1 && INNER.blocks[3].preds[1] == 2;
  }

  lemma MainIsWellShaped()
    ensures WellShapedFunction(MAIN) && WellShapedFunction(BRANCHING[2])
  {
    var b := MAIN.blocks[0];
    assert WellShapedInstr(b, 0) && WellShapedInstr(b, 1) && WellShapedInstr(b, 2);
    assert WellShapedInstr(BRANCHING[2].blocks[0], 0);
    assert WellShapedBlock(MAIN, 0) && WellShapedBlock(BRANCHING[2], 0);
  }

  lemma BlocksAreWellShaped()
    ensures WellShapedBlock(INNER, 0) && WellShapedBlock(INNER, 1) && WellShapedBlock(INNER, 2)
  {
    PhisAre();
    hide PhiCount, IndexOf;
    assert WellShapedInstr(INNER.blocks[0], 0) && WellShapedInstr(INNER.blocks[1], 0);
    assert WellShapedInstr(INNER.blocks[2], 0);
  }

  lemma LastIsWellShaped()
    ensures WellShapedBlock(INNER, 3)
  {
    PhisAre();
    hide PhiCount, IndexOf;
    var b := INNER.blocks[3];
    assert WellShapedInstr(b, 0) && WellShapedInstr(b, 1) && WellShapedInstr(b, 2);
  }

  lemma InnerIsWellShaped()
    ensures WellShapedFunction(INNER)
  {
    hide WellShapedBlock;
    BlocksAreWellShaped();
    LastIsWellShaped();
  }

  lemma PhisAreSafe()
    ensures SafePhis(MAIN.blocks[0]) && SafePhis(BRANCHING[2].blocks[0])
    ensures forall b | 0 <= b < 4 :: SafePhis(INNER.blocks[b])
  {
    PhisAre();
    hide PhiCount, IndexOf;
  }

  lemma InstructionsAreWellFormed()
    ensures forall f, b, i {:trigger BRANCHING[f].blocks[b].instrs[i]} |
              0 <= f < 3 && 0 <= b < |BRANCHING[f].blocks| && 0 <= i < |BRANCHING[f].blocks[b].instrs| ::
              WellFormedInstr(BRANCHING, BRANCHING[f].blocks[b].instrs[i])
  {
  }

  lemma BranchingIsWellFormed()
    ensures WellFormed(BRANCHING)
  {
    PhisAre();
    hide WellShapedFunction, SafePhis, WellFormedInstr, PhiCount, IndexOf;
    MainIsWellShaped();
    InnerIsWellShaped();
    PhisAreSafe();
    InstructionsAreWellFormed();
    ShapedOfParts();
    assert forall f, b {:trigger BRANCHING[f].blocks[b]} | 0 <= f < 3 && 0 <= b < |BRANCHING[f].blocks| ::
        SafePhis(BRANCHING[f].blocks[b]);
    SafeAreDistinct();
  }

  lemma ShapedOfParts()
    requires WellShapedFunction(MAIN) && WellShapedFunction(INNER) && WellShapedFunction(BRANCHING[2])
    ensures WellShaped(BRANCHING)
  {
    hide WellShapedFunction;
  }

  lemma SafeAreDistinct()
    ensures forall b: Block | SafePhis(b) :: DistinctPhis(b)
  {
  }

  // ----- what it does

  const CLOSURE := Closure(1, [Int(5)])

  function Main(pc: nat, regs: Registers): Activation {
    Activation(0, 0, pc, [Int(7)], [], regs, None)
  }

  function Inner(block: nat, pc: nat, regs: Registers): Activation {
    Activation(1, block, pc, [Int(7), Func(2)], [Int(5)], regs, Some(1))
  }

  /** In the inner function, with this trace since it was entered. */
  function Within(inner: Activation, rest: seq<Event>, heap: Heap): State {
    State([Main(2, map[0 := CLOSURE]), inner], heap, 0,
          [Entered(0, 0), Called(1, [Int(7), Func(2)]), Entered(1, 0)] + rest)
  }

  function Made(heap: Heap): State {
    State([Main(1, map[0 := CLOSURE])], heap, 0, [Entered(0, 0)])
  }

  const RESULTS: Registers := map[0 := Int(7), 1 := Int(5)]

  /** Back in `main`, with both results. */
  function Done(heap: Heap): State {
    State([Main(2, map[0 := CLOSURE, 1 := Tuple([Int(7), Int(5)])])], heap, 0,
          Within(Inner(3, 2, RESULTS), [Entered(1, 1), Entered(1, 3)], heap).trace + [Returned(1, [Int(7), Int(5)])])
  }

  lemma EvalOne(o: Operand, params: seq<Value>, captured: seq<Value>, regs: Registers)
    requires Eval(o, params, captured, regs).Some?
    ensures EvalAll([o], params, captured, regs) == Some([Eval(o, params, captured, regs).value])
  {
    var v := Eval(o, params, captured, regs).value;
    assert [o][1..] == [] && [o][0] == o && [v] + [] == [v];
    assert EvalAll([], params, captured, regs) == Some([]);
  }

  lemma EvalTwo(o: Operand, o': Operand, params: seq<Value>, captured: seq<Value>, regs: Registers)
    requires Eval(o, params, captured, regs).Some? && Eval(o', params, captured, regs).Some?
    ensures EvalAll([o, o'], params, captured, regs)
            == Some([Eval(o, params, captured, regs).value, Eval(o', params, captured, regs).value])
  {
    EvalOne(o', params, captured, regs);
    var v, v' := Eval(o, params, captured, regs).value, Eval(o', params, captured, regs).value;
    assert [o, o'][1..] == [o'] && [o, o'][0] == o && [v] + [v'] == [v, v'];
  }

  lemma MakesClosure(sem: Semantics, heap: Heap)
    ensures Step(BRANCHING, sem, Initial(0, [], [Int(7)], heap)) == Some(Made(heap))
  {
    EvalOne(Const(5), [Int(7)], [], map[]);
    hide EvalAll;
    assert ReplaceTop(Initial(0, [], [Int(7)], heap), Main(1, map[0 := CLOSURE])).stack == Made(heap).stack;
  }

  lemma CallsClosure(sem: Semantics, heap: Heap)
    ensures Step(BRANCHING, sem, Made(heap)) == Some(Within(Inner(0, 0, map[]), [], heap))
  {
    EvalTwo(Param(0), FuncRef(2), [Int(7)], [], map[0 := CLOSURE]);
    hide EvalAll;
    var next := Within(Inner(0, 0, map[]), [], heap);
    assert Made(heap).stack[..0] + [Main(2, map[0 := CLOSURE]), Inner(0, 0, map[])] == next.stack;
    assert Made(heap).trace + [Called(1, [Int(7), Func(2)]), Entered(1, 0)] == next.trace;
  }

  lemma TakesBranch(sem: Semantics, heap: Heap)
    ensures Step(BRANCHING, sem, Within(Inner(0, 0, map[]), [], heap))
            == Some(Within(Inner(1, 0, map[]), [Entered(1, 1)], heap))
  {
    PhisAre();
    var s := Within(Inner(0, 0, map[]), [], heap);
    assert EnterBlock(BRANCHING, Inner(0, 0, map[]), 1) == Some(Inner(1, 0, map[]));
    hide EnterBlock, PhiCount, IndexOf;
    GoesOn(s, Inner(0, 0, map[]), Inner(1, 0, map[]), [], 1, heap);
    assert [] + [Entered(1, 1)] == [Entered(1, 1)];
  }

  /** The state after the inner function has entered a block. */
  lemma GoesOn(s: State, a: Activation, b: Activation, rest: seq<Event>, to: nat, heap: Heap)
    requires s == Within(a, rest, heap)
    ensures s.stack != [] && Top(s) == a
    ensures ReplaceTop(s, b).(trace := s.trace + [Entered(1, to)]) == Within(b, rest + [Entered(1, to)], heap)
  {
    var start := [Entered(0, 0), Called(1, [Int(7), Func(2)]), Entered(1, 0)];
    assert (start + rest) + [Entered(1, to)] == start + (rest + [Entered(1, to)]);
    assert s.stack[..1] + [b] == [Main(2, map[0 := CLOSURE]), b];
  }

  /** The phis of the last block, coming from the branch that was taken. */
  lemma PhisTake()
    ensures EnterBlock(BRANCHING, Inner(1, 0, map[]), 3) == Some(Inner(3, 2, RESULTS))
  {
    PhisAre();
    hide PhiCount, IndexOf;
    var instrs, params, captured := INNER.blocks[3].instrs, [Int(7), Func(2)], [Int(5)];
    assert ParallelPhis(instrs, 0, 0, params, captured, map[]) == Some(map[]);
    assert ParallelPhis(instrs, 1, 0, params, captured, map[]) == Some(map[0 := Int(7)]);
    assert ParallelPhis(instrs, 2, 0, params, captured, map[]) == Some(RESULTS);
  }

  lemma Joins(sem: Semantics, heap: Heap)
    ensures Step(BRANCHING, sem, Within(Inner(1, 0, map[]), [Entered(1, 1)], heap))
            == Some(Within(Inner(3, 2, RESULTS), [Entered(1, 1), Entered(1, 3)], heap))
  {
    hide EnterBlock, PhiCount, IndexOf;
    PhisTake();
    GoesOn(Within(Inner(1, 0, map[]), [Entered(1, 1)], heap), Inner(1, 0, map[]), Inner(3, 2, RESULTS),
           [Entered(1, 1)], 3, heap);
    assert [Entered(1, 1)] + [Entered(1, 3)] == [Entered(1, 1), Entered(1, 3)];
  }

  lemma ReturnsTuple(sem: Semantics, heap: Heap)
    ensures Step(BRANCHING, sem, Within(Inner(3, 2, RESULTS), [Entered(1, 1), Entered(1, 3)], heap))
            == Some(Done(heap))
  {
    EvalTwo(Reg(0), Reg(1), [Int(7), Func(2)], [Int(5)], RESULTS);
    hide EvalAll;
    var s := Within(Inner(3, 2, RESULTS), [Entered(1, 1), Entered(1, 3)], heap);
    var regs: Registers := map[0 := CLOSURE, 1 := Tuple([Int(7), Int(5)])];
    assert Top(s) == Inner(3, 2, RESULTS) && |s.stack| == 2 && s.stack[0] == Main(2, map[0 := CLOSURE]);
    assert Assign(map[0 := CLOSURE], Some(1), Packed([Int(7), Int(5)])) == regs;
    assert s.stack[..0] + [Main(2, regs)] == [Main(2, regs)];
    assert Leave(BRANCHING, s, [Int(7), Int(5)]) == Some(Done(heap));
  }

  lemma Ends(sem: Semantics, heap: Heap)
    ensures Step(BRANCHING, sem, Done(heap))
            == Some(State([], heap, 0, Done(heap).trace + [Returned(0, [])]))
  {
    assert EvalAll([], [Int(7)], [], map[0 := CLOSURE, 1 := Tuple([Int(7), Int(5)])]) == Some([]);
    hide EvalAll;
  }

  /** All that happens: the closure gets its captured value and its arguments and takes the branch, the phis
      take the values of that branch, both results go back, and the program ends. */
  const EVENTS: seq<Event> := [
    Entered(0, 0), Called(1, [Int(7), Func(2)]), Entered(1, 0), Entered(1, 1), Entered(1, 3),
    Returned(1, [Int(7), Int(5)]), Returned(0, [])]

  lemma BranchingRuns(sem: Semantics, heap: Heap)
    ensures Run(BRANCHING, sem, Initial(0, [], [Int(7)], heap), 6) == Some(State([], heap, 0, EVENTS))
    ensures Run(BRANCHING, sem, Initial(0, [], [Int(7)], heap), 5).Some?
    ensures var s := Run(BRANCHING, sem, Initial(0, [], [Int(7)], heap), 5).value;
            |s.stack| == 1 && Top(s).regs == map[0 := Closure(1, [Int(5)]), 1 := Tuple([Int(7), Int(5)])]
  {
    hide Step;
    MakesClosure(sem, heap);
    CallsClosure(sem, heap);
    TakesBranch(sem, heap);
    Joins(sem, heap);
    ReturnsTuple(sem, heap);
    Ends(sem, heap);
    var s0, s1, s2 := Initial(0, [], [Int(7)], heap), Made(heap), Within(Inner(0, 0, map[]), [], heap);
    var s3 := Within(Inner(1, 0, map[]), [Entered(1, 1)], heap);
    var s4 := Within(Inner(3, 2, RESULTS), [Entered(1, 1), Entered(1, 3)], heap);
    var s5 := Done(heap);
    var s6 := State([], heap, 0, EVENTS);
    assert Done(heap).trace + [Returned(0, [])] == EVENTS;
    hide Within, Made, Done, Inner, Initial;
    RunsOnce(sem, s5, s6, 0);
    RunsOnce(sem, s4, s5, 1);
    RunsOnce(sem, s3, s4, 2);
    RunsOnce(sem, s2, s3, 3);
    RunsOnce(sem, s1, s2, 4);
    RunsOnce(sem, s0, s1, 5);
    RunsOnce(sem, s4, s5, 0);
    RunsOnce(sem, s3, s4, 1);
    RunsOnce(sem, s2, s3, 2);
    RunsOnce(sem, s1, s2, 3);
    RunsOnce(sem, s0, s1, 4);
  }

  lemma RunsOnce(sem: Semantics, s: State, s': State, n: nat)
    requires Step(BRANCHING, sem, s) == Some(s')
    ensures Run(BRANCHING, sem, s, n + 1) == Run(BRANCHING, sem, s', n)
    ensures Run(BRANCHING, sem, s', 0) == Some(s')
  {
    hide Step;
  }

  /** So does the emitted package, and then the goroutine is about to terminate. */
  lemma BranchingTranslated(sem: Semantics, heap: Heap, stale: Registers) returns (n: nat, m: Machine)
    requires ValidSemantics(BRANCHING, sem) && ValidHeap(BRANCHING, heap)
    ensures WellShaped(BRANCHING)
    ensures AdvanceBy(BRANCHING, Link(PackageDefinitions(BRANCHING, 3)), sem,
                      Spawned(BRANCHING, Code(Entry(0)), [Int(7)], heap, stale), n) == Some(m)
    ensures m.trace == EVENTS && m.heap == heap && m.frames == [] && m.current == Code(Terminate)
  {
    hide WellFormed, ValidSemantics, AdvanceBy, Step, Run, Link, PackageDefinitions, AllResolved, Spawned;
    BranchingIsWellFormed();
    BranchingRuns(sem, heap);
    assert WellShaped(BRANCHING) by { MethodCalls.TopIsValid(BRANCHING, State([], map[], 0, [])); }
    hide WellShaped;
    NoMethodsCalled(sem, Initial(0, [], [Int(7)], heap), 6);
    n, m := TranslationCorrect(BRANCHING, sem, 0, [], [Int(7)], heap, stale, 6);
  }

  lemma {:induction false} NoMethodsCalled(sem: Semantics, s: State, k: nat)
    ensures AllResolved(BRANCHING, sem, s, k)
    decreases k
  {
    hide Step;
    if k > 0 && Step(BRANCHING, sem, s).Some? {
      NoMethodsCalled(sem, Step(BRANCHING, sem, s).value, k - 1);
    }
  }
}
