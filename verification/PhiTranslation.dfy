/** What the emitted phis of a block do on the machine, whether or not the block is one the translation
    is correct for. */
module PhiTranslation {
  import opened Options
  import opened Ssa
  import opened Emission
  import opened Trampoline
  import opened Phis
  import Validity
  import opened Simulation

  /** The emitted package, as linked. */
  ghost function LinkedPackage(p: Program): map<Label, seq<Stmt>>
    requires WellShaped(p)
  {
    Link(PackageDefinitions(p, |p|))
  }

  /** The registers that the phis of block `to` are to leave, when control comes from the block of `a`. */
  ghost function Intended(p: Program, a: Activation, to: nat): Option<Registers>
    requires WellShaped(p) && a.fn < |p| && to < |p[a.fn].blocks| && a.block in p[a.fn].blocks[to].preds
  {
    var instrs := p[a.fn].blocks[to].instrs;
    PhisHaveEdges(p, a.fn, to, a.block);
    ParallelPhis(instrs, PhiCount(instrs), IndexOf(p[a.fn].blocks[to].preds, a.block), a.params, a.captured, a.regs)
  }

  lemma PhisHaveEdges(p: Program, fn: nat, to: nat, pred: nat)
    requires WellShaped(p) && fn < |p| && to < |p[fn].blocks| && pred in p[fn].blocks[to].preds
    ensures var block := p[fn].blocks[to];
            forall i | 0 <= i < PhiCount(block.instrs) :: IndexOf(block.preds, pred) < |block.instrs[i].edges|
  {
    var block := p[fn].blocks[to];
    forall i | 0 <= i < PhiCount(block.instrs) ensures IndexOf(block.preds, pred) < |block.instrs[i].edges| {
      assert WellShapedInstr(block, i);
    }
  }

  /** From the head of block `to`, the machine runs the phis and leaves the intended registers. */
  ghost predicate RunsAsIntended(p: Program, sem: Semantics, m: Machine, a: Activation, to: nat)
    requires WellShaped(p) && AtBlockHead(p, m, a, to)
  {
    var after := AdvanceBy(p, LinkedPackage(p), sem, m, PhiCount(p[a.fn].blocks[to].instrs));
    && after.Some? && after.value.frames != [] && after.value.frames[|after.value.frames| - 1].UserFrame?
    && (Intended(p, a, to).Some? ==> Agree(Intended(p, a, to).value, after.value.frames[|after.value.frames| - 1].regs))
  }

  /** Some machine at the head of a block, with registers of one's choice. */
  ghost function HeadMachine(p: Program, a: Activation, to: nat): (m: Machine)
    requires a.fn < |p| && a.block < |p[a.fn].blocks| && to < |p[a.fn].blocks|
    requires |a.captured| == p[a.fn].freeVars && a.block in p[a.fn].blocks[to].preds
    ensures AtBlockHead(p, m, a, to)
  {
    Machine(Code(BlockStart(a.fn, to)), LatestLabel(p, a.fn, a.block), true, 0,
            [UserFrame(Terminate, FreeVarsOf(p, a), Nowhere, a.params, a.regs)], map[], 0, 0, [])
  }

  /** The machine leaves the registers of the sequential reading. */
  lemma RunsSequentially(p: Program, sem: Semantics, m: Machine, a: Activation, to: nat)
    requires WellShaped(p) && AtBlockHead(p, m, a, to) && DistinctPhis(p[a.fn].blocks[to])
    requires var instrs, edge := p[a.fn].blocks[to].instrs, IndexOf(p[a.fn].blocks[to].preds, a.block);
             && ArePhis(instrs, PhiCount(instrs), edge)
             && SequentialPhis(instrs, PhiCount(instrs), edge, a.params, a.captured, a.regs).Some?
    ensures var instrs, edge := p[a.fn].blocks[to].instrs, IndexOf(p[a.fn].blocks[to].preds, a.block);
            var after := AdvanceBy(p, LinkedPackage(p), sem, m, PhiCount(instrs));
            && after.Some? && after.value.frames != [] && after.value.frames[|after.value.frames| - 1].UserFrame?
            && Agree(SequentialPhis(instrs, PhiCount(instrs), edge, a.params, a.captured, a.regs).value,
                     after.value.frames[|after.value.frames| - 1].regs)
  {
    hide WellShaped, Link, PackageDefinitions, AdvanceBy, SequentialPhis, CodeOf, Agree;
    LinkedCode(p);
    var g := PhisRun(p, LinkedPackage(p), sem, m, a, to, PhiCount(p[a.fn].blocks[to].instrs));
  }

  /** Block `to` of function `fn` has distinct phis, which have an operand for `pred` that is in scope. */
  ghost predicate PhisInScope(p: Program, fn: nat, to: nat, pred: nat) {
    && fn < |p| && to < |p[fn].blocks| && pred in p[fn].blocks[to].preds && pred < |p[fn].blocks|
    && var block := p[fn].blocks[to];
       var n, edge := PhiCount(block.instrs), IndexOf(block.preds, pred);
       DistinctPhis(block) && ArePhis(block.instrs, n, edge) && InScope(block.instrs, n, edge, p[fn].freeVars)
  }

  ghost predicate ReadsNothingStale(p: Program, fn: nat, to: nat, pred: nat)
    requires PhisInScope(p, fn, to, pred)
  {
    var block := p[fn].blocks[to];
    NoStalePhiRead(block.instrs, PhiCount(block.instrs), IndexOf(block.preds, pred))
  }

  lemma NothingStaleIsIntended(p: Program, sem: Semantics, m: Machine, a: Activation, to: nat)
    requires WellShaped(p) && AtBlockHead(p, m, a, to) && PhisInScope(p, a.fn, to, a.block)
    requires ReadsNothingStale(p, a.fn, to, a.block) && Intended(p, a, to).Some?
    ensures RunsAsIntended(p, sem, m, a, to)
  {
    hide WellShaped, DistinctPhis, AdvanceBy, LinkedPackage,
      SequentialPhis, ParallelPhis, PhiCount, IndexOf, NoStalePhiRead;
    var block := p[a.fn].blocks[to];
    SequentialIsParallel(block.instrs, PhiCount(block.instrs),
                         IndexOf(block.preds, a.block), a.params, a.captured, a.regs);
    RunsSequentially(p, sem, m, a, to);
  }

  lemma StaleIsNotIntended(p: Program, sem: Semantics, fn: nat, to: nat, pred: nat) returns (m: Machine, a: Activation)
    requires WellShaped(p) && PhisInScope(p, fn, to, pred) && !ReadsNothingStale(p, fn, to, pred)
    ensures a.fn == fn && a.block == pred && AtBlockHead(p, m, a, to)
    ensures Intended(p, a, to).Some? && !RunsAsIntended(p, sem, m, a, to)
  {
    hide WellShaped, DistinctPhis, AdvanceBy, LinkedPackage,
      SequentialPhis, ParallelPhis, PhiCount, IndexOf, NoStalePhiRead;
    var block := p[fn].blocks[to];
    var params, captured, regs, _ :=
      StaleReadShows(block.instrs, PhiCount(block.instrs), IndexOf(block.preds, pred), p[fn].freeVars);
    a := Activation(fn, pred, 0, params, captured, regs, None);
    m := HeadMachine(p, a, to);
    RunsSequentially(p, sem, m, a, to);
  }

  /** On the linked package, the phis of a block leave what they are to leave, for every frame they can
      find, if and only if none of them reads a register that an earlier one has changed. */
  lemma EmittedPhisExact(p: Program, sem: Semantics, fn: nat, to: nat, pred: nat)
    requires WellShaped(p) && PhisInScope(p, fn, to, pred)
    ensures ReadsNothingStale(p, fn, to, pred) <==>
            forall m, a | AtBlockHead(p, m, a, to) && a.fn == fn && a.block == pred && Intended(p, a, to).Some? ::
              RunsAsIntended(p, sem, m, a, to)
  {
    hide WellShaped, RunsAsIntended, Intended, ReadsNothingStale;
    if ReadsNothingStale(p, fn, to, pred) {
      forall m, a | AtBlockHead(p, m, a, to) && a.fn == fn && a.block == pred && Intended(p, a, to).Some?
        ensures RunsAsIntended(p, sem, m, a, to)
      {
        NothingStaleIsIntended(p, sem, m, a, to);
      }
    } else {
      var m, a := StaleIsNotIntended(p, sem, fn, to, pred);
    }
  }

  // ----- for { a, b = b, a }

  const SWAPPING: Function := Function(
    [Block([Jump], [], [1]),
     Block([Phi(0, [Const(0), Reg(1)]), Phi(1, [Const(1), Reg(0)]), Jump], [0, 1], [1])], 0, false, 0)

  const SWAP_PHIS: seq<Instr> := [Phi(0, [Const(0), Reg(1)]), Phi(1, [Const(1), Reg(0)])]

  lemma SwappingPhis()
    ensures SWAPPING.blocks[1].instrs == SWAP_PHIS + [Jump]
    ensures PhiCount(SWAPPING.blocks[0].instrs) == 0 && PhiCount(SWAPPING.blocks[1].instrs) == 2
    ensures IndexOf(SWAPPING.blocks[1].preds, 0) == 0 && IndexOf(SWAPPING.blocks[1].preds, 1) == 1
    ensures 0 in SWAPPING.blocks[1].preds && 1 in SWAPPING.blocks[1].preds
  {
    var b1 := SWAPPING.blocks[1];
    assert PhiCount([Jump]) == 0;
    assert b1.instrs[1..] == [Phi(1, [Const(1), Reg(0)]), Jump] && b1.instrs[1..][1..] == [Jump];
    assert PhiCount(b1.instrs[1..]) == 1;
    assert b1.preds[1..] == [1];
    assert b1.preds[0] == 0 && b1.preds[1] == 1;
  }

  lemma FirstBlockIsWellShaped()
    ensures WellShapedBlock(SWAPPING, 0)
  {
    SwappingPhis();
    hide PhiCount, IndexOf;
    var b0 := SWAPPING.blocks[0];
    assert WellShapedInstr(b0, 0);
  }

  lemma LoopIsWellShaped()
    ensures WellShapedBlock(SWAPPING, 1)
  {
    SwappingPhis();
    hide PhiCount, IndexOf;
    var b1 := SWAPPING.blocks[1];
    assert WellShapedInstr(b1, 0) && WellShapedInstr(b1, 1) && WellShapedInstr(b1, 2);
  }

  lemma SwappingIsWellShaped()
    ensures WellShaped([SWAPPING]) && DistinctPhis(SWAPPING.blocks[1])
    ensures PhiCount(SWAPPING.blocks[1].instrs) == 2 && IndexOf(SWAPPING.blocks[1].preds, 1) == 1
    ensures ArePhis(SWAPPING.blocks[1].instrs, 2, 1)
  {
    hide PhiCount, IndexOf, WellShapedBlock;
    SwappingPhis();
    FirstBlockIsWellShaped();
    LoopIsWellShaped();
    assert WellShapedFunction(SWAPPING);
  }

  /** The machine that runs the loop of this function once more, from any values of the two variables,
      leaves both with the value of the second. */
  lemma EmittedSwapIsLost(sem: Semantics, m: Machine, a: Activation, x: Value, y: Value)
    requires WellShaped([SWAPPING]) && a.fn == 0 && a.block == 1 && AtBlockHead([SWAPPING], m, a, 1)
    requires a.regs == map[0 := x, 1 := y] && a.params == [] && a.captured == []
    ensures Intended([SWAPPING], a, 1) == Some(map[0 := y, 1 := x])
    ensures var after := AdvanceBy([SWAPPING], LinkedPackage([SWAPPING]), sem, m, 2);
            && after.Some? && after.value.frames != [] && after.value.frames[|after.value.frames| - 1].UserFrame?
            && Agree(map[0 := y, 1 := y], after.value.frames[|after.value.frames| - 1].regs)
  {
    SwappingIsWellShaped();
    SwapIsLost(x, y);
    assert SWAPPING.blocks[1].instrs[..2] == SWAP_PHIS;
    hide WellShaped, AdvanceBy, Link, PackageDefinitions;
    FirstTwo(SWAPPING.blocks[1].instrs, SWAP_PHIS, 1, [], [], a.regs);
    RunsSequentially([SWAPPING], sem, m, a, 1);
  }

  /** The readings look at the phis only. */
  lemma FirstTwo(xs: seq<Instr>, ys: seq<Instr>, edge: nat, params: seq<Value>, captured: seq<Value>, regs: Registers)
    requires ArePhis(xs, 2, edge) && |ys| == 2 && xs[..2] == ys && ArePhis(ys, 2, edge)
    ensures SequentialPhis(xs, 2, edge, params, captured, regs) == SequentialPhis(ys, 2, edge, params, captured, regs)
    ensures ParallelPhis(xs, 2, edge, params, captured, regs) == ParallelPhis(ys, 2, edge, params, captured, regs)
  {
    assert xs[0] == ys[0] && xs[1] == ys[1];
    assert SequentialPhis(xs, 1, edge, params, captured, regs) == SequentialPhis(ys, 1, edge, params, captured, regs);
    assert ParallelPhis(xs, 1, edge, params, captured, regs) == ParallelPhis(ys, 1, edge, params, captured, regs);
  }

  /** The activation of the loop after its phis have been evaluated, with these two values. */
  function InLoop(x: int, y: int): Activation {
    Activation(0, 1, 2, [], [], map[0 := Int(x), 1 := Int(y)], None)
  }

  /** What the program does: into the loop with the values 0 and 1, and once around it. */
  lemma SwappingRuns(sem: Semantics, heap: Heap)
    ensures Step([SWAPPING], sem, Initial(0, [], [], heap))
            == Some(State([InLoop(0, 1)], heap, 0, [Entered(0, 0), Entered(0, 1)]))
    ensures Step([SWAPPING], sem, State([InLoop(0, 1)], heap, 0, [Entered(0, 0), Entered(0, 1)]))
            == Some(State([InLoop(1, 0)], heap, 0, [Entered(0, 0), Entered(0, 1), Entered(0, 1)]))
  {
    hide EnterBlock;
    LoopEntered();
    LoopRepeated();
    var s0, trace := Initial(0, [], [], heap), [Entered(0, 0), Entered(0, 1)];
    var s1 := State([InLoop(0, 1)], heap, 0, trace);
    assert Goto([SWAPPING], s0, Top(s0), 0) == Some(s1) by {
      assert ReplaceTop(s0, InLoop(0, 1)).stack == s1.stack;
      assert s0.trace + [Entered(0, 1)] == trace;
    }
    assert Goto([SWAPPING], s1, Top(s1), 0)
        == Some(State([InLoop(1, 0)], heap, 0, [Entered(0, 0), Entered(0, 1), Entered(0, 1)])) by {
      assert ReplaceTop(s1, InLoop(1, 0)).stack == [InLoop(1, 0)];
      assert trace + [Entered(0, 1)] == [Entered(0, 0), Entered(0, 1), Entered(0, 1)];
    }
  }

  lemma LoopEntered()
    ensures EnterBlock([SWAPPING], Activation(0, 0, 0, [], [], map[], None), 1) == Some(InLoop(0, 1))
  {
    SwappingPhis();
    PhisEntered();
    hide PhiCount, IndexOf, ParallelPhis;
  }

  lemma LoopRepeated()
    ensures EnterBlock([SWAPPING], InLoop(0, 1), 1) == Some(InLoop(1, 0))
  {
    SwappingPhis();
    SwapIsLost(Int(0), Int(1));
    assert SWAPPING.blocks[1].instrs[..2] == SWAP_PHIS;
    FirstTwo(SWAPPING.blocks[1].instrs, SWAP_PHIS, 1, [], [], InLoop(0, 1).regs);
    hide PhiCount, IndexOf, ParallelPhis, SequentialPhis;
  }

  /** The phis on the way into the loop. */
  lemma PhisEntered()
    ensures ParallelPhis(SWAPPING.blocks[1].instrs, 2, 0, [], [], map[]) == Some(InLoop(0, 1).regs)
  {
    var instrs := SWAPPING.blocks[1].instrs;
    assert ParallelPhis(instrs, 0, 0, [], [], map[]) == Some(map[]);
    assert ParallelPhis(instrs, 1, 0, [], [], map[]) == Some(map[0 := Int(0)]);
  }

  /** A goroutine running the emitted function reaches the head of the loop for the second time. */
  lemma SwapIsReached(sem: Semantics, heap: Heap, stale: Registers) returns (n: nat, head: Machine)
    requires WellShaped([SWAPPING])
    ensures AdvanceBy([SWAPPING], LinkedPackage([SWAPPING]), sem,
                      Spawned([SWAPPING], ObjectOf(0, []), [], heap, stale), n) == Some(head)
    ensures AtBlockHead([SWAPPING], head, InLoop(0, 1), 1)
    ensures head.trace == [Entered(0, 0), Entered(0, 1), Entered(0, 1)]
  {
    hide *;
    var p, code := [SWAPPING], LinkedPackage([SWAPPING]);
    var s0, s1 := Initial(0, [], [], heap), State([InLoop(0, 1)], heap, 0, [Entered(0, 0), Entered(0, 1)]);
    SwappingStates(heap);
    SwappingCode();
    SwappingRuns(sem, heap);
    var start := Spawned(p, ObjectOf(0, []), [], heap, stale);
    var m0 := InitialRelated(p, code, sem, 0, [], [], heap, stale);
    var i, m1 := FirstJump(sem, heap, s0, m0, s1);
    StepsAre(p, code, sem, start, s0, 3, m0);
    StepsAre(p, code, sem, m0, s1, i, m1);
    AdvanceByCompose(p, code, sem, start, 3, i);
    head := SecondJump(sem, heap, s1, m1);
    AdvanceByCompose(p, code, sem, start, 3 + i, 2);
    n := 3 + i + 2;
  }

  lemma StepsAre(p: Program, code: map<Label, seq<Stmt>>, sem: Semantics, m: Machine, s: State, n: nat, m': Machine)
    requires Simulates(p, code, sem, m, s, n, m')
    ensures AdvanceBy(p, code, sem, m, n) == Some(m') && Related(p, s, m')
  {
  }

  lemma SwappingCode()
    requires WellShaped([SWAPPING])
    ensures CodeOf([SWAPPING], LinkedPackage([SWAPPING]))
  {
    hide WellShaped;
    LinkedCode([SWAPPING]);
  }

  lemma SwappingStates(heap: Heap)
    ensures var s := Initial(0, [], [], heap); s.stack != [] && Validity.ValidActivation([SWAPPING], s.stack[0])
    ensures Validity.ValidActivation([SWAPPING], InLoop(0, 1))
  {
  }

  lemma FirstJump(sem: Semantics, heap: Heap, s: State, m: Machine, s': State) returns (n: nat, m': Machine)
    requires WellShaped([SWAPPING]) && CodeOf([SWAPPING], LinkedPackage([SWAPPING]))
    requires s == Initial(0, [], [], heap) && Validity.ValidActivation([SWAPPING], s.stack[0])
    requires Related([SWAPPING], s, m) && Step([SWAPPING], sem, s) == Some(s')
    ensures Simulates([SWAPPING], LinkedPackage([SWAPPING]), sem, m, s', n, m')
  {
    hide WellShaped, CodeOf, LinkedPackage, Validity.ValidActivation, Related, Step, Simulates;
    EntryEdgeIsSafe();
    n, m' := StepGoto([SWAPPING], LinkedPackage([SWAPPING]), sem, s, m);
  }

  lemma EntryEdgeIsSafe()
    ensures SafeExits([SWAPPING], 0, 0)
  {
    SwappingPhis();
    hide PhiCount, IndexOf;
    assert SafeEdge([SWAPPING], 0, 1, 0);
  }

  /** From the loop, the machine goes to its head. */
  lemma SecondJump(sem: Semantics, heap: Heap, s: State, m: Machine) returns (head: Machine)
    requires WellShaped([SWAPPING]) && CodeOf([SWAPPING], LinkedPackage([SWAPPING]))
    requires s == State([InLoop(0, 1)], heap, 0, [Entered(0, 0), Entered(0, 1)]) && Related([SWAPPING], s, m)
    requires Validity.ValidActivation([SWAPPING], InLoop(0, 1))
    ensures AdvanceBy([SWAPPING], LinkedPackage([SWAPPING]), sem, m, 2) == Some(head)
    ensures AtBlockHead([SWAPPING], head, InLoop(0, 1), 1)
    ensures head.trace == [Entered(0, 0), Entered(0, 1), Entered(0, 1)]
  {
    hide WellShaped, CodeOf, LinkedPackage, Validity.ValidActivation, AtBlockHead, StacksMatch, Advance, AdvanceBy,
      IndexOf, PhiCount;
    SwappingPhis();
    var p, code := [SWAPPING], LinkedPackage([SWAPPING]);
    GotoReturned(p, code, sem, s, m);
    var jumped := Advance(p, code, sem, m).value;
    head := HeadReached(p, code, sem, s, jumped, 1);
    TwoSteps(p, code, sem, m, jumped, head);
  }

  /** A goroutine started with this function gets to where the program has entered the loop a second time,
      with the same trace. The program has swapped its two variables there; the machine has one value in
      both. */
  lemma SwappingIsMiscompiled(sem: Semantics, heap: Heap, stale: Registers) returns (n: nat, m: Machine)
    ensures WellShaped([SWAPPING])
    ensures AdvanceBy([SWAPPING], LinkedPackage([SWAPPING]), sem,
                      Spawned([SWAPPING], ObjectOf(0, []), [], heap, stale), n) == Some(m)
    ensures var run := Run([SWAPPING], sem, Initial(0, [], [], heap), 2);
            && run == Some(State([InLoop(1, 0)], heap, 0, m.trace))
            && m.frames != [] && m.frames[|m.frames| - 1].UserFrame?
            && Agree(map[0 := Int(1), 1 := Int(1)], m.frames[|m.frames| - 1].regs)
            && !Related([SWAPPING], run.value, m)
  {
    hide *;
    SwappingIsWellShaped();
    var p, code := [SWAPPING], LinkedPackage([SWAPPING]);
    var start := Spawned(p, ObjectOf(0, []), [], heap, stale);
    var i, head := SwapIsReached(sem, heap, stale);
    LoopActivation();
    EmittedSwapIsLost(sem, head, InLoop(0, 1), Int(0), Int(1));
    m := AdvanceBy(p, code, sem, head, 2).value;
    PhisLeaveTrace(sem, head, InLoop(0, 1), m);
    AdvanceByCompose(p, code, sem, start, i, 2);
    n := i + 2;
    SwappingRuns(sem, heap);
    TwoRunSteps(p, sem, Initial(0, [], [], heap));
    NotBoth(heap, m);
  }

  lemma LoopActivation()
    ensures var a := InLoop(0, 1);
            a.fn == 0 && a.block == 1 && a.regs == map[0 := Int(0), 1 := Int(1)] && a.params == [] && a.captured == []
  {
  }

  lemma TwoRunSteps(p: Program, sem: Semantics, s: State)
    requires Step(p, sem, s).Some? && Step(p, sem, Step(p, sem, s).value).Some?
    ensures Run(p, sem, s, 2) == Step(p, sem, Step(p, sem, s).value)
  {
    hide Step;
    var s1 := Step(p, sem, s).value;
    assert Run(p, sem, s1, 1) == Run(p, sem, Step(p, sem, s1).value, 0);
  }

  /** The phis add nothing to the trace. */
  lemma PhisLeaveTrace(sem: Semantics, head: Machine, a: Activation, m: Machine)
    requires WellShaped([SWAPPING]) && AtBlockHead([SWAPPING], head, a, 1) && a.fn == 0 && a.block == 1
    requires a.regs == map[0 := Int(0), 1 := Int(1)] && a.params == [] && a.captured == []
    requires AdvanceBy([SWAPPING], LinkedPackage([SWAPPING]), sem, head, 2) == Some(m)
    ensures m.trace == head.trace
  {
    SwappingIsWellShaped();
    SwapIsLost(Int(0), Int(1));
    assert SWAPPING.blocks[1].instrs[..2] == SWAP_PHIS;
    FirstTwo(SWAPPING.blocks[1].instrs, SWAP_PHIS, 1, [], [], a.regs);
    hide WellShaped, AdvanceBy, LinkedPackage, SequentialPhis, CodeOf, Agree;
    SwappingCode();
    var g := PhisRun([SWAPPING], LinkedPackage([SWAPPING]), sem, head, a, 1, 2);
  }

  lemma NotBoth(heap: Heap, m: Machine)
    requires m.frames != [] && m.frames[|m.frames| - 1].UserFrame?
    requires Agree(map[0 := Int(1), 1 := Int(1)], m.frames[|m.frames| - 1].regs)
    ensures !Related([SWAPPING], State([InLoop(1, 0)], heap, 0, m.trace), m)
  {
    var s := State([InLoop(1, 0)], heap, 0, m.trace);
    assert 1 in InLoop(1, 0).regs && 1 in map[0 := Int(1), 1 := Int(1)];
    assert |m.frames| == 1 ==> !Matches([SWAPPING], s.stack, m.frames, 0);
  }
}
