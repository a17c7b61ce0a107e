/** The emitted C functions, run on the trampoline, do what the SSA program does. */
module Simulation {
  import opened Options
  import opened Sequences
  import opened MethodTables
  import opened Ssa
  import opened Emission
  import opened Trampoline
  import opened Phis
  import opened Validity

  // ----- the relation between the two machines

  /** Every register the program has assigned holds the same value in the C frame. */
  ghost predicate Agree(regs: Registers, frame: Registers) {
    forall r | r in regs :: r in frame && frame[r] == regs[r]
  }

  ghost function FreeVarsOf(p: Program, a: Activation): Option<seq<Value>>
    requires a.fn < |p|
  {
    if p[a.fn].freeVars == 0 then None else Some(a.captured)
  }

  ghost predicate FrameMatches(p: Program, a: Activation, f: Frame)
    requires a.fn < |p|
  {
    f.UserFrame? && f.params == a.params && f.freeVars == FreeVarsOf(p, a) && Agree(a.regs, f.regs)
  }

  /** Where the frame of activation `i` returns to, and where it leaves its result. */
  ghost predicate LinkMatches(p: Program, stack: seq<Activation>, f: Frame, i: nat)
    requires i < |stack| && stack[i].fn < |p|
  {
    if i == 0 then
      f.resume == Terminate && f.resultPtr == (if p[stack[0].fn].hasResult then Scratch else Nowhere)
    else
      var caller := stack[i - 1];
      && caller.pc > 0
      && f.resume == After(caller.fn, caller.block, caller.pc - 1)
      && f.resultPtr == (if stack[i].result.Some? then Slot(i - 1, stack[i].result.value) else Nowhere)
      && (p[stack[i].fn].hasResult <==> stack[i].result.Some?)
      && IsDefined(p, f.resume)
  }

  ghost predicate Matches(p: Program, stack: seq<Activation>, frames: seq<Frame>, i: nat)
    requires i < |stack| && |stack| == |frames|
  {
    && stack[i].fn < |p|
    && FrameMatches(p, stack[i], frames[i])
    && LinkMatches(p, stack, frames[i], i)
  }

  ghost predicate StacksMatch(p: Program, stack: seq<Activation>, frames: seq<Frame>) {
    && |stack| == |frames|
    && (forall i {:trigger Matches(p, stack, frames, i)} | 0 <= i < |stack| :: Matches(p, stack, frames, i))
  }

  function StartOf(l: Label): nat
    requires l.BlockStart? || l.After?
  {
    if l.After? then l.index + 1 else 0
  }

  ghost predicate NoSwitch(instrs: seq<Instr>, from: nat, to: nat) {
    forall j | from <= j < to && j < |instrs| :: !RequireSwitchFunction(instrs[j])
  }

  /** Label `l`, at statement `offset`, is where instruction `a.pc` was emitted. */
  ghost predicate PositionMatches(p: Program, a: Activation, l: Label, offset: nat)
    requires a.fn < |p| && a.block < |p[a.fn].blocks|
  {
    && OfBlock(l, a.fn, a.block)
    && IsDefined(p, l)
    && StartOf(l) + offset == a.pc
    && NoSwitch(p[a.fn].blocks[a.block].instrs, StartOf(l), a.pc)
  }

  ghost predicate Related(p: Program, s: State, m: Machine) {
    && s.heap == m.heap && s.calls == m.calls && s.trace == m.trace
    && StacksMatch(p, s.stack, m.frames)
    && if s.stack == [] then m.current == Code(Terminate)
       else
         && m.entered && m.current.Code?
         && Top(s).fn < |p| && Top(s).block < |p[Top(s).fn].blocks|
         && PositionMatches(p, Top(s), m.current.label', m.offset)
  }

  ghost predicate CodeOf(p: Program, code: map<Label, seq<Stmt>>)
    requires WellShaped(p)
  {
    forall l {:trigger l in code} :: (l in code <==> IsDefined(p, l)) && (IsDefined(p, l) ==> code[l] == BodyOf(p, l))
  }

  // ----- where instructions are found in the emitted functions

  lemma {:induction false} BodyAt(p: Program, fn: nat, b: nat, start: nat, offset: nat)
    requires WellShaped(p) && fn < |p| && b < |p[fn].blocks|
    requires start + offset < |p[fn].blocks[b].instrs|
    requires NoSwitch(p[fn].blocks[b].instrs, start, start + offset)
    ensures offset < |LabelBody(p, fn, b, start)|
    ensures LabelBody(p, fn, b, start)[offset] == Translate(p, fn, b, start + offset)
    decreases offset
  {
    if offset > 0 {
      assert !RequireSwitchFunction(p[fn].blocks[b].instrs[start]);
      BodyAt(p, fn, b, start + 1, offset - 1);
    }
  }

  lemma {:induction false} LatestReached(p: Program, l: Label, n: nat)
    requires IsDefined(p, l) && (l.BlockStart? || l.After?)
    requires StartOf(l) <= n <= |p[l.fn].blocks[l.block].instrs|
    requires NoSwitch(p[l.fn].blocks[l.block].instrs, StartOf(l), n)
    ensures LatestAmong(l.fn, l.block, p[l.fn].blocks[l.block].instrs, n) == l
  {
    if n > StartOf(l) {
      assert !RequireSwitchFunction(p[l.fn].blocks[l.block].instrs[n - 1]);
      LatestReached(p, l, n - 1);
    }
  }

  lemma {:induction false} LatestOwner(fn: nat, b: nat, instrs: seq<Instr>, n: nat)
    requires n <= |instrs|
    ensures OfBlock(LatestAmong(fn, b, instrs, n), fn, b)
  {
    if n > 0 { LatestOwner(fn, b, instrs, n - 1); }
  }

  lemma {:induction false} FirstMatchIs(cases: seq<(Label, Operand)>, prev: Label, i: nat)
    requires i < |cases| && cases[i].0 == prev && forall j | 0 <= j < i :: cases[j].0 != prev
    ensures FirstMatch(cases, prev) == Some(cases[i].1)
  {
    if i > 0 { FirstMatchIs(cases[1..], prev, i - 1); }
  }

  /** The if-chain of a phi takes the operand of the predecessor that control came from. */
  lemma PhiPicksEdge(p: Program, fn: nat, b: nat, index: nat, pred: nat)
    requires WellShaped(p) && fn < |p| && b < |p[fn].blocks| && index < |p[fn].blocks[b].instrs|
    requires Distinct(p[fn].blocks[b].preds)
    requires p[fn].blocks[b].instrs[index].Phi? && pred in p[fn].blocks[b].preds
    ensures pred < |p[fn].blocks|
    ensures var phi := p[fn].blocks[b].instrs[index];
            var i := IndexOf(p[fn].blocks[b].preds, pred);
            && Translate(p, fn, b, index).Select?
            && Translate(p, fn, b, index).dst == phi.dst
            && i < |phi.edges|
            && FirstMatch(Translate(p, fn, b, index).cases, LatestLabel(p, fn, pred)) == Some(phi.edges[i])
  {
    var preds := p[fn].blocks[b].preds;
    var i := IndexOf(preds, pred);
    var edges := p[fn].blocks[b].instrs[index].edges;
    var cases := Cases(p, fn, b, edges, |edges|);
    assert WellShapedInstr(p[fn].blocks[b], index);
    LatestOwner(fn, pred, p[fn].blocks[pred].instrs, |p[fn].blocks[pred].instrs|);
    forall j | 0 <= j < i ensures cases[j].0 != LatestLabel(p, fn, pred) {
      LatestOwner(fn, preds[j], p[fn].blocks[preds[j]].instrs, |p[fn].blocks[preds[j]].instrs|);
    }
    FirstMatchIs(cases, LatestLabel(p, fn, pred), i);
  }

  // ----- reading operands

  lemma ReadAgrees(p: Program, a: Activation, f: Frame, o: Operand)
    requires a.fn < |p| && FrameMatches(p, a, f) && |a.captured| == p[a.fn].freeVars
    requires Eval(o, a.params, a.captured, a.regs).Some?
    ensures Read(o, f) == Eval(o, a.params, a.captured, a.regs).value
  {
  }

  lemma {:induction false} ReadAllAgrees(p: Program, a: Activation, f: Frame, os: seq<Operand>)
    requires a.fn < |p| && FrameMatches(p, a, f) && |a.captured| == p[a.fn].freeVars
    requires EvalAll(os, a.params, a.captured, a.regs).Some?
    ensures ReadAll(os, f) == EvalAll(os, a.params, a.captured, a.regs).value
  {
    if os != [] {
      ReadAgrees(p, a, f, os[0]);
      ReadAllAgrees(p, a, f, os[1..]);
    }
  }

  // ----- one step of the program against the steps of the machine

  function InstrsOf(p: Program, a: Activation): seq<Instr> {
    if a.fn < |p| && a.block < |p[a.fn].blocks| then p[a.fn].blocks[a.block].instrs else []
  }

  /** The machine is about to execute the statement emitted for the instruction the program is about
      to execute, in a frame that matches the running activation. */
  lemma FindStmt(p: Program, code: map<Label, seq<Stmt>>, s: State, m: Machine)
    requires WellShaped(p) && CodeOf(p, code) && Related(p, s, m) && s.stack != []
    requires Top(s).pc < |InstrsOf(p, Top(s))|
    ensures m.frames != [] && m.current.label' in code && m.offset < |code[m.current.label']|
    ensures code[m.current.label'][m.offset] == Translate(p, Top(s).fn, Top(s).block, Top(s).pc)
    ensures FrameMatches(p, Top(s), m.frames[|m.frames| - 1])
  {
    var a, l := Top(s), m.current.label';
    assert Matches(p, s.stack, m.frames, |s.stack| - 1);
    BodyAt(p, a.fn, a.block, StartOf(l), m.offset);
  }

  /** What the machine does next: the statement emitted for the program's next instruction. */
  lemma Executes(p: Program, code: map<Label, seq<Stmt>>, sem: Semantics, s: State, m: Machine)
    requires WellShaped(p) && CodeOf(p, code) && Related(p, s, m) && s.stack != []
    requires Top(s).pc < |InstrsOf(p, Top(s))|
    ensures |m.frames| == |s.stack| && Top(s).fn < |p|
            && m.entered && m.current.Code? && m.frames[|m.frames| - 1].UserFrame?
    ensures FrameMatches(p, Top(s), m.frames[|m.frames| - 1])
    ensures var a := Top(s);
            Advance(p, code, sem, m)
            == ExecuteStmt(p, sem, m, m.frames[|m.frames| - 1], a.fn, Translate(p, a.fn, a.block, a.pc))
  {
    assert StacksMatch(p, s.stack, m.frames);
    hide WellShaped, CodeOf, Translate, ExecuteStmt, Matches;
    FindStmt(p, code, s, m);
  }

  lemma TopUpdated(p: Program, stack: seq<Activation>, frames: seq<Frame>, a: Activation, f: Frame)
    requires StacksMatch(p, stack, frames) && stack != []
    requires a.fn == stack[|stack| - 1].fn && a.result == stack[|stack| - 1].result
             && a.fn < |p| && FrameMatches(p, a, f)
    requires f.resume == frames[|stack| - 1].resume && f.resultPtr == frames[|stack| - 1].resultPtr
    ensures StacksMatch(p, stack[..|stack| - 1] + [a], frames[..|stack| - 1] + [f])
  {
    var stack', frames' := stack[..|stack| - 1] + [a], frames[..|stack| - 1] + [f];
    forall i | 0 <= i < |stack'| ensures Matches(p, stack', frames', i) {
      assert Matches(p, stack, frames, i);
    }
  }

  ghost predicate Simulates(p: Program, code: map<Label, seq<Stmt>>, sem: Semantics, m: Machine, s: State,
                            n: nat, m': Machine) {
    n >= 1 && AdvanceBy(p, code, sem, m, n) == Some(m') && Related(p, s, m')
  }

  lemma OneStep(p: Program, code: map<Label, seq<Stmt>>, sem: Semantics, m: Machine, s: State, m': Machine)
    requires Advance(p, code, sem, m) == Some(m') && Related(p, s, m')
    ensures Simulates(p, code, sem, m, s, 1, m')
  {
    assert AdvanceBy(p, code, sem, m', 0) == Some(m');
  }

  lemma Then(p: Program, code: map<Label, seq<Stmt>>, sem: Semantics, m: Machine, m1: Machine, s: State,
             n: nat, m': Machine)
    requires Advance(p, code, sem, m) == Some(m1) && Simulates(p, code, sem, m1, s, n, m')
    ensures Simulates(p, code, sem, m, s, n + 1, m')
  {
    hide Advance, Related;
    assert AdvanceBy(p, code, sem, m, n + 1) == AdvanceBy(p, code, sem, m1, n);
  }

  lemma Prefixed(p: Program, code: map<Label, seq<Stmt>>, sem: Semantics, m: Machine, k: nat, m1: Machine,
                 s: State, n: nat, m': Machine)
    requires AdvanceBy(p, code, sem, m, k) == Some(m1) && Simulates(p, code, sem, m1, s, n, m')
    ensures Simulates(p, code, sem, m, s, k + n, m')
  {
    hide Advance, Related;
    AdvanceByCompose(p, code, sem, m, k, n);
  }

  lemma StepInline(p: Program, code: map<Label, seq<Stmt>>, sem: Semantics, s: State, m: Machine)
    returns (n: nat, m': Machine)
    requires WellShaped(p) && CodeOf(p, code) && Related(p, s, m) && s.stack != [] && ValidActivation(p, Top(s))
    requires Top(s).pc < |InstrsOf(p, Top(s))| && InstrsOf(p, Top(s))[Top(s).pc].Inline?
    requires Step(p, sem, s).Some?
    ensures Simulates(p, code, sem, m, Step(p, sem, s).value, n, m')
  {
    hide WellShaped, CodeOf, StacksMatch, FrameMatches, EvalAll, ReadAll, Advance, AdvanceBy;
    Executes(p, code, sem, s, m);
    var a, f, instr := Top(s), m.frames[|m.frames| - 1], InstrsOf(p, Top(s))[Top(s).pc];
    ReadAllAgrees(p, a, f, instr.args);
    var vs := EvalAll(instr.args, a.params, a.captured, a.regs).value;
    var v := sem.inline(instr.op, vs, s.heap).0;
    ResultStored(p, a, f, instr.result, v);
    TopUpdated(p, s.stack, m.frames, Advanced(a, instr.result, v), f.(regs := Assign(f.regs, instr.result, v)));
    n, m' := 1, Advance(p, code, sem, m).value;
    OneStep(p, code, sem, m, Step(p, sem, s).value, m');
  }

  /** A frame for a runtime function has been pushed and its function is about to be invoked. */
  lemma EnterRuntime(p: Program, code: map<Label, seq<Stmt>>, sem: Semantics, m: Machine)
    requires !m.entered && m.current.Code? && m.frames != []
    requires m.current.label'.RuntimeApi? || m.current.label'.ClosureNew? || m.current.label'.InterfaceInvoke?
    ensures Advance(p, code, sem, m) == Some(m.(entered := true, offset := 0))
  {
  }

  /** However often a runtime call has to be retried, it reaches the attempt that completes. */
  lemma {:induction false} RetriesPass(p: Program, code: map<Label, seq<Stmt>>, sem: Semantics, m: Machine)
    returns (n: nat, m': Machine)
    requires m.entered && m.current.Code? && m.current.label'.RuntimeApi?
    requires m.frames != [] && m.frames[|m.frames| - 1].RuntimeFrame? && m.offset == 0
    requires m.tries <= sem.delay(m.calls)
    ensures AdvanceBy(p, code, sem, m, n) == Some(m')
    ensures m'.tries == sem.delay(m.calls) && m' == m.(prev := m'.prev, tries := m'.tries)
    decreases sem.delay(m.calls) - m.tries
  {
    if m.tries == sem.delay(m.calls) {
      n, m' := 0, m;
    } else {
      var blocked := Advance(p, code, sem, m).value;
      EnterRuntime(p, code, sem, blocked);
      var again := Advance(p, code, sem, blocked).value;
      var k, last := RetriesPass(p, code, sem, again);
      n, m' := k + 2, last;
      assert AdvanceBy(p, code, sem, blocked, k + 1) == AdvanceBy(p, code, sem, again, k);
    }
  }

  /** A function has returned into the continuation of instruction `pc - 1` of the running activation. */
  lemma ResumeAfter(p: Program, code: map<Label, seq<Stmt>>, sem: Semantics, s: State, m: Machine)
    returns (m': Machine)
    requires StacksMatch(p, s.stack, m.frames) && s.stack != [] && ValidActivation(p, Top(s))
    requires s.heap == m.heap && s.calls == m.calls && s.trace == m.trace
    requires Top(s).pc > 0 && IsDefined(p, After(Top(s).fn, Top(s).block, Top(s).pc - 1))
    requires m.current == Code(After(Top(s).fn, Top(s).block, Top(s).pc - 1)) && !m.entered
    ensures Simulates(p, code, sem, m, s, 1, m')
  {
    assert Matches(p, s.stack, m.frames, |s.stack| - 1);
    m' := Advance(p, code, sem, m).value;
    OneStep(p, code, sem, m, s, m');
  }

  /** The activation after its current instruction has left `v` as its result. */
  function Advanced(a: Activation, result: Option<nat>, v: Value): Activation {
    a.(pc := a.pc + 1, regs := Assign(a.regs, result, v))
  }

  /** A runtime function stores its result into the frame below its own, which stays matched. */
  lemma ResultStored(p: Program, a: Activation, f: Frame, result: Option<nat>, v: Value)
    requires a.fn < |p| && FrameMatches(p, a, f)
    ensures FrameMatches(p, Advanced(a, result, v), f.(regs := Assign(f.regs, result, v)))
  {
  }

  /** What a runtime function leaves behind when it was called from the running activation. */
  lemma RuntimeReturns(p: Program, stack: seq<Activation>, frames: seq<Frame>, top: Frame, m: Machine,
                       result: Option<nat>, v: Value)
    returns (f': Frame)
    requires StacksMatch(p, stack, frames) && stack != []
    requires m.frames == frames + [top] && top.RuntimeFrame?
    requires top.resultPtr == if result.Some? then Slot(|frames| - 1, result.value) else Nowhere
    ensures FinishRuntimeCall(m, v) == Some(Yield(m, Code(top.resume)).(frames := frames[..|frames| - 1] + [f']))
    ensures StacksMatch(p, stack[..|stack| - 1] + [Advanced(stack[|stack| - 1], result, v)],
                        frames[..|frames| - 1] + [f'])
  {
    var last := |frames| - 1;
    var a, f := stack[last], frames[last];
    assert Matches(p, stack, frames, last);
    f' := f.(regs := Assign(f.regs, result, v));
    ResultStored(p, a, f, result, v);
    TopUpdated(p, stack, frames, Advanced(a, result, v), f');
    assert m.frames[..last + 1] == frames;
    assert frames[last := f'] == frames[..last] + [f'];
    assert frames == frames[..last] + [f];
  }

  lemma TwoSteps(p: Program, code: map<Label, seq<Stmt>>, sem: Semantics, m: Machine, m1: Machine, m2: Machine)
    requires Advance(p, code, sem, m) == Some(m1) && Advance(p, code, sem, m1) == Some(m2)
    ensures AdvanceBy(p, code, sem, m, 2) == Some(m2)
  {
    assert AdvanceBy(p, code, sem, m2, 0) == Some(m2);
    assert AdvanceBy(p, code, sem, m1, 1) == Some(m2);
  }

  /** The running activation has called a runtime function, which is about to make its first attempt. */
  lemma RuntimeCalled(p: Program, code: map<Label, seq<Stmt>>, sem: Semantics, s: State, m: Machine,
                      top: Frame, l: Label)
    returns (running: Machine)
    requires WellShaped(p) && CodeOf(p, code) && Related(p, s, m) && s.stack != []
    requires l.RuntimeApi? || l.ClosureNew? || l.InterfaceInvoke?
    requires Advance(p, code, sem, m).Some?
    requires var called := Advance(p, code, sem, m).value;
             && !called.entered && called.current == Code(l) && called.frames == m.frames + [top]
    ensures AdvanceBy(p, code, sem, m, 2) == Some(running)
    ensures running == Advance(p, code, sem, m).value.(entered := true, offset := 0)
  {
    var called := Advance(p, code, sem, m).value;
    EnterRuntime(p, code, sem, called);
    running := Advance(p, code, sem, called).value;
    TwoSteps(p, code, sem, m, called, running);
  }

  /** A finished runtime call, seen as one step of the program. */
  lemma RuntimeResumed(p: Program, code: map<Label, seq<Stmt>>, sem: Semantics, stack: seq<Activation>,
                       ready: Machine, s': State, done: Machine)
    returns (m': Machine)
    requires Advance(p, code, sem, ready) == Some(done) && stack != []
    requires StacksMatch(p, s'.stack, done.frames) && s'.stack != [] && ValidActivation(p, Top(s'))
    requires s'.heap == done.heap && s'.calls == done.calls && s'.trace == done.trace
    requires Top(s').pc > 0 && IsDefined(p, After(Top(s').fn, Top(s').block, Top(s').pc - 1))
    requires done.current == Code(After(Top(s').fn, Top(s').block, Top(s').pc - 1)) && !done.entered
    ensures Simulates(p, code, sem, ready, s', 2, m')
  {
    m' := ResumeAfter(p, code, sem, s', done);
    Then(p, code, sem, ready, done, s', 1, m');
  }

  /** The program's state after a runtime call has completed. */
  function AfterApi(sem: Semantics, s: State, result: Option<nat>, api: nat, vs: seq<Value>): State
    requires s.stack != []
  {
    var (v, heap) := sem.api(s.calls, api, vs, s.heap);
    ReplaceTop(s, Advanced(Top(s), result, v))
    .(heap := heap, calls := s.calls + 1, trace := s.trace + [ApiDone(api, vs, v)])
  }

  /** The completing attempt of a runtime call. */
  lemma ApiCompletes(p: Program, code: map<Label, seq<Stmt>>, sem: Semantics, s: State, frames: seq<Frame>, top: Frame,
                     ready: Machine, result: Option<nat>, api: nat) returns (m': Machine)
    requires StacksMatch(p, s.stack, frames) && s.stack != []
    requires ready.frames == frames + [top] && top.RuntimeFrame?
    requires top.resultPtr == if result.Some? then Slot(|frames| - 1, result.value) else Nowhere
    requires ready.entered && ready.current == Code(RuntimeApi(api)) && ready.tries == sem.delay(ready.calls)
    requires ready.heap == s.heap && ready.calls == s.calls && ready.trace == s.trace
    requires top.resume == After(Top(s).fn, Top(s).block, Top(s).pc) && IsDefined(p, top.resume)
    requires ValidActivation(p, Top(AfterApi(sem, s, result, api, top.args)))
    ensures Simulates(p, code, sem, ready, AfterApi(sem, s, result, api, top.args), 2, m')
  {
    var f' := RuntimeReturns(p, s.stack, frames, top, ready, result, sem.api(s.calls, api, top.args, s.heap).0);
    var done := AttemptApi(sem, ready, api).value;
    m' := RuntimeResumed(p, code, sem, s.stack, ready, AfterApi(sem, s, result, api, top.args), done);
  }

  lemma ApiTaken(p: Program, sem: Semantics, s: State)
    requires s.stack != [] && Top(s).pc < |InstrsOf(p, Top(s))| && InstrsOf(p, Top(s))[Top(s).pc].Api?
    requires Step(p, sem, s).Some?
    ensures var a := Top(s);
            var instr := InstrsOf(p, a)[a.pc];
            var vs := EvalAll(instr.args, a.params, a.captured, a.regs);
            vs.Some? && Step(p, sem, s) == Some(AfterApi(sem, s, instr.result, instr.api, vs.value))
  {
  }

  lemma ApiCalled(p: Program, code: map<Label, seq<Stmt>>, sem: Semantics, s: State, m: Machine, vs: seq<Value>)
    requires WellShaped(p) && CodeOf(p, code) && Related(p, s, m) && s.stack != [] && ValidActivation(p, Top(s))
    requires Top(s).pc < |InstrsOf(p, Top(s))| && InstrsOf(p, Top(s))[Top(s).pc].Api?
    requires EvalAll(InstrsOf(p, Top(s))[Top(s).pc].args, Top(s).params, Top(s).captured, Top(s).regs) == Some(vs)
    ensures m.frames != []
    ensures var a := Top(s);
            var instr := InstrsOf(p, a)[a.pc];
            var top := RuntimeFrame(After(a.fn, a.block, a.pc), PointerTo(m, instr.result), vs);
            Advance(p, code, sem, m) ==
              Some(Yield(m, Code(RuntimeApi(instr.api))).(frames := m.frames + [top], tries := 0))
  {
    hide WellShaped, CodeOf, StacksMatch, EvalAll, ReadAll, Advance;
    Executes(p, code, sem, s, m);
    ReadAllAgrees(p, Top(s), m.frames[|m.frames| - 1], InstrsOf(p, Top(s))[Top(s).pc].args);
  }

  lemma StepApi(p: Program, code: map<Label, seq<Stmt>>, sem: Semantics, s: State, m: Machine)
    returns (n: nat, m': Machine)
    requires WellShaped(p) && CodeOf(p, code) && Related(p, s, m) && s.stack != [] && ValidActivation(p, Top(s))
    requires Top(s).pc < |InstrsOf(p, Top(s))| && InstrsOf(p, Top(s))[Top(s).pc].Api?
    requires Step(p, sem, s).Some? && ValidActivation(p, Top(Step(p, sem, s).value))
    ensures Simulates(p, code, sem, m, Step(p, sem, s).value, n, m')
  {
    hide WellShaped, CodeOf, StacksMatch, EvalAll, Step, Advance, AdvanceBy, AfterApi;
    ApiTaken(p, sem, s);
    var a, instr := Top(s), InstrsOf(p, Top(s))[Top(s).pc];
    var vs := EvalAll(instr.args, a.params, a.captured, a.regs).value;
    ApiCalled(p, code, sem, s, m, vs);
    var top := RuntimeFrame(After(a.fn, a.block, a.pc), PointerTo(m, instr.result), vs);
    var running := RuntimeCalled(p, code, sem, s, m, top, RuntimeApi(instr.api));
    var k, ready := RetriesPass(p, code, sem, running);
    m' := ApiCompletes(p, code, sem, s, m.frames, top, ready, instr.result, instr.api);
    var s' := AfterApi(sem, s, instr.result, instr.api, vs);
    Prefixed(p, code, sem, running, k, ready, s', 2, m');
    Prefixed(p, code, sem, m, 2, running, s', k + 2, m');
    n := k + 4;
  }

  lemma ClosureTaken(p: Program, sem: Semantics, s: State)
    requires s.stack != [] && Top(s).pc < |InstrsOf(p, Top(s))| && InstrsOf(p, Top(s))[Top(s).pc].MakeClosure?
    requires Step(p, sem, s).Some?
    ensures var a := Top(s);
            var instr := InstrsOf(p, a)[a.pc];
            var vs := EvalAll(instr.bindings, a.params, a.captured, a.regs);
            vs.Some? && Step(p, sem, s) ==
              Some(ReplaceTop(s, Advanced(a, Some(instr.closure), Closure(instr.fn, vs.value))))
  {
  }

  lemma ClosureCalled(p: Program, code: map<Label, seq<Stmt>>, sem: Semantics, s: State, m: Machine, vs: seq<Value>)
    requires WellShaped(p) && CodeOf(p, code) && Related(p, s, m) && s.stack != [] && ValidActivation(p, Top(s))
    requires Top(s).pc < |InstrsOf(p, Top(s))| && InstrsOf(p, Top(s))[Top(s).pc].MakeClosure?
    requires EvalAll(InstrsOf(p, Top(s))[Top(s).pc].bindings, Top(s).params, Top(s).captured, Top(s).regs) == Some(vs)
    ensures m.frames != []
    ensures var a := Top(s);
            var instr := InstrsOf(p, a)[a.pc];
            var top := RuntimeFrame(After(a.fn, a.block, a.pc), Slot(|m.frames| - 1, instr.closure), vs);
            Advance(p, code, sem, m) == Some(Yield(m, Code(ClosureNew(instr.fn))).(frames := m.frames + [top]))
  {
    hide WellShaped, CodeOf, StacksMatch, EvalAll, ReadAll, Advance;
    Executes(p, code, sem, s, m);
    ReadAllAgrees(p, Top(s), m.frames[|m.frames| - 1], InstrsOf(p, Top(s))[Top(s).pc].bindings);
  }

  lemma StepClosure(p: Program, code: map<Label, seq<Stmt>>, sem: Semantics, s: State, m: Machine)
    returns (n: nat, m': Machine)
    requires WellShaped(p) && CodeOf(p, code) && Related(p, s, m) && s.stack != [] && ValidActivation(p, Top(s))
    requires Top(s).pc < |InstrsOf(p, Top(s))| && InstrsOf(p, Top(s))[Top(s).pc].MakeClosure?
    requires Step(p, sem, s).Some? && ValidActivation(p, Top(Step(p, sem, s).value))
    ensures Simulates(p, code, sem, m, Step(p, sem, s).value, n, m')
  {
    hide WellShaped, CodeOf, StacksMatch, EvalAll, Step, AdvanceBy;
    ClosureTaken(p, sem, s);
    var a, instr, s' := Top(s), InstrsOf(p, Top(s))[Top(s).pc], Step(p, sem, s).value;
    var vs := EvalAll(instr.bindings, a.params, a.captured, a.regs).value;
    ClosureCalled(p, code, sem, s, m, vs);
    var top := RuntimeFrame(After(a.fn, a.block, a.pc), Slot(|m.frames| - 1, instr.closure), vs);
    var running := RuntimeCalled(p, code, sem, s, m, top, ClosureNew(instr.fn));
    var f' := RuntimeReturns(p, s.stack, m.frames, top, running, Some(instr.closure), Closure(instr.fn, vs));
    var done := FinishRuntimeCall(running, Closure(instr.fn, vs)).value;
    m' := RuntimeResumed(p, code, sem, s.stack, running, s', done);
    Prefixed(p, code, sem, m, 2, running, s', 2, m');
    n := 4;
  }

  // ----- calls and returns

  lemma CallerAdvanced(p: Program, stack: seq<Activation>, frames: seq<Frame>, callee: Activation, f: Frame)
    requires StacksMatch(p, stack, frames) && stack != []
    requires callee.fn < |p| && FrameMatches(p, callee, f)
    requires var a := stack[|stack| - 1];
             && f.resume == After(a.fn, a.block, a.pc) && IsDefined(p, f.resume)
             && f.resultPtr == (if callee.result.Some? then Slot(|frames| - 1, callee.result.value) else Nowhere)
             && (p[callee.fn].hasResult <==> callee.result.Some?)
    ensures StacksMatch(p, stack[..|stack| - 1] + [stack[|stack| - 1].(pc := stack[|stack| - 1].pc + 1), callee],
                        frames + [f])
  {
    var last := |stack| - 1;
    var a' := stack[last].(pc := stack[last].pc + 1);
    assert Matches(p, stack, frames, last);
    TopUpdated(p, stack, frames, a', frames[last]);
    assert frames[..last] + [frames[last]] == frames;
    var stack', frames' := stack[..last] + [a', callee], frames + [f];
    forall i | 0 <= i < |stack'| ensures Matches(p, stack', frames', i) {
      if i <= last { assert Matches(p, stack[..last] + [a'], frames, i); }
    }
  }

  /** The function a goroutine enters first hands over to the block function of its first block. */
  lemma EntryRuns(p: Program, code: map<Label, seq<Stmt>>, sem: Semantics, m: Machine, s: State)
    returns (m': Machine)
    requires WellShaped(p) && CodeOf(p, code) && s.stack != [] && m.frames != [] && !m.entered
    requires Top(s).block == 0 && Top(s).pc == 0 && Top(s).fn < |p|
    requires ExtractUserFunction(m.current) == Entry(Top(s).fn)
    requires StacksMatch(p, s.stack, PrepareUserFunction(m))
    requires s.heap == m.heap && s.calls == m.calls && s.trace == m.trace + [Entered(Top(s).fn, 0)]
    ensures Simulates(p, code, sem, m, s, 3, m')
  {
    hide *;
    var m1, m2 := EntryHandsOver(p, code, sem, m, s);
    m' := FirstBlockEntered(p, code, sem, m2, s);
    OneStep(p, code, sem, m2, s, m');
    Then(p, code, sem, m1, m2, s, 1, m');
    Then(p, code, sem, m, m1, s, 2, m');
  }

  lemma EntryHandsOver(p: Program, code: map<Label, seq<Stmt>>, sem: Semantics, m: Machine, s: State)
    returns (m1: Machine, m2: Machine)
    requires WellShaped(p) && CodeOf(p, code) && s.stack != [] && m.frames != [] && !m.entered && Top(s).fn < |p|
    requires ExtractUserFunction(m.current) == Entry(Top(s).fn) && StacksMatch(p, s.stack, PrepareUserFunction(m))
    ensures Advance(p, code, sem, m) == Some(m1) && Advance(p, code, sem, m1) == Some(m2)
    ensures !m2.entered && m2.current == Code(BlockStart(Top(s).fn, 0)) && m2.frames == PrepareUserFunction(m)
    ensures m2.heap == m.heap && m2.calls == m.calls && m2.trace == m.trace
  {
    hide *;
    EntryCode(p, code, Top(s).fn);
    TopIsUserFrame(p, s, PrepareUserFunction(m));
    m1 := EntryEntered(p, code, sem, m, Top(s).fn);
    m2 := EntryJumps(p, code, sem, m1, Top(s).fn);
  }

  lemma TopIsUserFrame(p: Program, s: State, frames: seq<Frame>)
    requires s.stack != [] && StacksMatch(p, s.stack, frames)
    ensures frames != [] && frames[|frames| - 1].UserFrame?
  {
    assert Matches(p, s.stack, frames, |s.stack| - 1);
  }

  lemma EntryCode(p: Program, code: map<Label, seq<Stmt>>, fn: nat)
    requires WellShaped(p) && CodeOf(p, code) && fn < |p|
    ensures Entry(fn) in code && code[Entry(fn)] == [ReturnLabel(BlockStart(fn, 0))]
  {
    hide WellShaped;
    assert IsDefined(p, Entry(fn));
  }

  lemma EntryEntered(p: Program, code: map<Label, seq<Stmt>>, sem: Semantics, m: Machine, fn: nat)
    returns (m': Machine)
    requires !m.entered && m.frames != [] && ExtractUserFunction(m.current) == Entry(fn)
    ensures Advance(p, code, sem, m) == Some(m')
    ensures m' == m.(entered := true, offset := 0, frames := PrepareUserFunction(m))
  {
    m' := Enter(p, m).value;
  }

  lemma EntryJumps(p: Program, code: map<Label, seq<Stmt>>, sem: Semantics, m: Machine, fn: nat)
    returns (m': Machine)
    requires m.entered && m.offset == 0 && ExtractUserFunction(m.current) == Entry(fn) && fn < |p|
    requires m.frames != [] && m.frames[|m.frames| - 1].UserFrame?
    requires Entry(fn) in code && code[Entry(fn)] == [ReturnLabel(BlockStart(fn, 0))]
    ensures Advance(p, code, sem, m) == Some(m')
    ensures !m'.entered && m'.current == Code(BlockStart(fn, 0)) && m'.frames == m.frames
    ensures m'.heap == m.heap && m'.calls == m.calls && m'.trace == m.trace
  {
    m' := Advance(p, code, sem, m).value;
  }

  /** Entering the first block, with nothing yet executed. */
  lemma FirstBlockEntered(p: Program, code: map<Label, seq<Stmt>>, sem: Semantics, m: Machine, s: State)
    returns (m': Machine)
    requires WellShaped(p) && s.stack != [] && !m.entered && m.current == Code(BlockStart(Top(s).fn, 0))
    requires Top(s).block == 0 && Top(s).pc == 0 && Top(s).fn < |p| && StacksMatch(p, s.stack, m.frames)
    requires s.heap == m.heap && s.calls == m.calls && s.trace == m.trace + [Entered(Top(s).fn, 0)]
    ensures Advance(p, code, sem, m) == Some(m') && Related(p, s, m')
  {
    assert Matches(p, s.stack, m.frames, |s.stack| - 1);
    m' := Advance(p, code, sem, m).value;
  }

  /** The function object that is called. */
  function ObjectOf(fn: nat, captured: seq<Value>): FunctionObject {
    if captured == [] then Code(Entry(fn)) else Tagged(fn, captured)
  }

  lemma CallAdvances(p: Program, code: map<Label, seq<Stmt>>, sem: Semantics, s: State, m: Machine,
                     fn: nat, captured: seq<Value>, vs: seq<Value>)
    requires WellShaped(p) && CodeOf(p, code) && Related(p, s, m) && s.stack != [] && ValidActivation(p, Top(s))
    requires Top(s).pc < |InstrsOf(p, Top(s))| && InstrsOf(p, Top(s))[Top(s).pc].Call?
    requires var instr := InstrsOf(p, Top(s))[Top(s).pc];
             && EvalAll(instr.args, Top(s).params, Top(s).captured, Top(s).regs) == Some(vs)
             && Eval(instr.callee, Top(s).params, Top(s).captured, Top(s).regs)
                == Some(if captured == [] then Func(fn) else Closure(fn, captured))
    ensures m.frames != []
    ensures var a := Top(s);
            var result := InstrsOf(p, a)[a.pc].result;
            var frame := UserFrame(After(a.fn, a.block, a.pc), None, PointerTo(m, result), vs, sem.stale(|m.trace|));
            Advance(p, code, sem, m)
            == Some(Yield(m, ObjectOf(fn, captured))
                    .(frames := m.frames + [frame], trace := m.trace + [Called(fn, vs)]))
  {
    hide WellShaped, CodeOf, StacksMatch, EvalAll, ReadAll, Advance;
    Executes(p, code, sem, s, m);
    var a, f, instr := Top(s), m.frames[|m.frames| - 1], InstrsOf(p, Top(s))[Top(s).pc];
    ReadAgrees(p, a, f, instr.callee);
    ReadAllAgrees(p, a, f, instr.args);
  }

  lemma SameTrace(p: Program, s: State, m: Machine)
    requires Related(p, s, m)
    ensures s.heap == m.heap && s.calls == m.calls && s.trace == m.trace
  {
  }

  /** The frame of a called function, once the trampoline has installed the captured block. */
  lemma CallIssued(p: Program, code: map<Label, seq<Stmt>>, sem: Semantics, s: State, m: Machine,
                   fn: nat, captured: seq<Value>, vs: seq<Value>) returns (called: Machine, frame: Frame)
    requires WellShaped(p) && CodeOf(p, code) && Related(p, s, m) && s.stack != [] && ValidActivation(p, Top(s))
    requires Top(s).pc < |InstrsOf(p, Top(s))| && InstrsOf(p, Top(s))[Top(s).pc].Call?
    requires var instr := InstrsOf(p, Top(s))[Top(s).pc];
             && EvalAll(instr.args, Top(s).params, Top(s).captured, Top(s).regs) == Some(vs)
             && Eval(instr.callee, Top(s).params, Top(s).captured, Top(s).regs)
                == Some(if captured == [] then Func(fn) else Closure(fn, captured))
    requires fn < |p| && |captured| == p[fn].freeVars
    ensures Advance(p, code, sem, m) == Some(called) && !called.entered
    ensures ExtractUserFunction(called.current) == Entry(fn) && called.frames != []
    ensures PrepareUserFunction(called) == m.frames + [frame]
    ensures called.heap == s.heap && called.calls == s.calls && called.trace == s.trace + [Called(fn, vs)]
    ensures var instr := InstrsOf(p, Top(s))[Top(s).pc];
            && FrameMatches(p, Activation(fn, 0, 0, vs, captured, map[], instr.result), frame)
            && frame.resume == After(Top(s).fn, Top(s).block, Top(s).pc)
            && frame.resultPtr == (if instr.result.Some? then Slot(|m.frames| - 1, instr.result.value) else Nowhere)
  {
    hide WellShaped, CodeOf, StacksMatch, EvalAll, Eval, Advance, Related, ValidActivation;
    CallAdvances(p, code, sem, s, m, fn, captured, vs);
    SameTrace(p, s, m);
    var a, instr := Top(s), InstrsOf(p, Top(s))[Top(s).pc];
    var start := UserFrame(After(a.fn, a.block, a.pc), None, PointerTo(m, instr.result), vs, sem.stale(|m.trace|));
    called := Advance(p, code, sem, m).value;
    frame := start.(freeVars := if captured == [] then None else Some(captured));
    assert called.frames[..|m.frames|] == m.frames;
  }

  lemma CallTaken(p: Program, sem: Semantics, s: State) returns (fn: nat, captured: seq<Value>, vs: seq<Value>)
    requires s.stack != [] && Top(s).pc < |InstrsOf(p, Top(s))| && InstrsOf(p, Top(s))[Top(s).pc].Call?
    requires Step(p, sem, s).Some?
    requires var instr := InstrsOf(p, Top(s))[Top(s).pc];
             forall callee | Eval(instr.callee, Top(s).params, Top(s).captured, Top(s).regs) == Some(callee) ::
               ValidValue(p, callee)
    ensures fn < |p| && |captured| == p[fn].freeVars
    ensures var a := Top(s);
            var instr := InstrsOf(p, a)[a.pc];
            && EvalAll(instr.args, a.params, a.captured, a.regs) == Some(vs)
            && Eval(instr.callee, a.params, a.captured, a.regs) ==
                 Some(if captured == [] then Func(fn) else Closure(fn, captured))
            && (p[fn].hasResult <==> instr.result.Some?)
            && Step(p, sem, s)
               == Some(s.(stack := s.stack[..|s.stack| - 1]
                                   + [a.(pc := a.pc + 1), Activation(fn, 0, 0, vs, captured, map[], instr.result)],
                          trace := s.trace + [Called(fn, vs), Entered(fn, 0)]))
  {
    var a := Top(s);
    var instr := InstrsOf(p, a)[a.pc];
    vs := EvalAll(instr.args, a.params, a.captured, a.regs).value;
    var callee := Eval(instr.callee, a.params, a.captured, a.regs).value;
    assert ValidValue(p, callee);
    fn, captured := Callee(callee).value.0, Callee(callee).value.1;
  }

  lemma StepCall(p: Program, code: map<Label, seq<Stmt>>, sem: Semantics, s: State, m: Machine)
    returns (n: nat, m': Machine)
    requires WellShaped(p) && CodeOf(p, code) && Related(p, s, m) && s.stack != [] && ValidActivation(p, Top(s))
    requires Top(s).pc < |InstrsOf(p, Top(s))| && InstrsOf(p, Top(s))[Top(s).pc].Call?
    requires Step(p, sem, s).Some?
    requires var instr := InstrsOf(p, Top(s))[Top(s).pc];
             forall callee | Eval(instr.callee, Top(s).params, Top(s).captured, Top(s).regs) == Some(callee) ::
               ValidValue(p, callee)
    ensures Simulates(p, code, sem, m, Step(p, sem, s).value, n, m')
  {
    hide WellShaped, CodeOf, StacksMatch, FrameMatches, EvalAll, Eval, Step, AdvanceBy, Advance, Related;
    var fn, captured, vs := CallTaken(p, sem, s);
    m' := CallEnters(p, code, sem, s, m, fn, captured, vs, Step(p, sem, s).value);
    n := 4;
  }

  /** The call is issued, and the callee's entry hands over to its first block. */
  lemma CallEnters(p: Program, code: map<Label, seq<Stmt>>, sem: Semantics, s: State, m: Machine,
                   fn: nat, captured: seq<Value>, vs: seq<Value>, s': State) returns (m': Machine)
    requires WellShaped(p) && CodeOf(p, code) && Related(p, s, m) && s.stack != [] && ValidActivation(p, Top(s))
    requires Top(s).pc < |InstrsOf(p, Top(s))| && InstrsOf(p, Top(s))[Top(s).pc].Call?
    requires var instr := InstrsOf(p, Top(s))[Top(s).pc];
             && EvalAll(instr.args, Top(s).params, Top(s).captured, Top(s).regs) == Some(vs)
             && Eval(instr.callee, Top(s).params, Top(s).captured, Top(s).regs)
                == Some(if captured == [] then Func(fn) else Closure(fn, captured))
             && fn < |p| && |captured| == p[fn].freeVars && (p[fn].hasResult <==> instr.result.Some?)
             && s' == s.(stack := s.stack[..|s.stack| - 1]
                                  + [Top(s).(pc := Top(s).pc + 1),
                                     Activation(fn, 0, 0, vs, captured, map[], instr.result)],
                         trace := s.trace + [Called(fn, vs), Entered(fn, 0)])
    ensures Simulates(p, code, sem, m, s', 4, m')
  {
    hide *;
    var callee := Activation(fn, 0, 0, vs, captured, map[], InstrsOf(p, Top(s))[Top(s).pc].result);
    var called, frame := CallIssued(p, code, sem, s, m, fn, captured, vs);
    CallerPushed(p, s, m, callee, frame);
    TopIs(s', callee);
    assert called.trace + [Entered(fn, 0)] == s'.trace;
    m' := EntryRuns(p, code, sem, called, s');
    Then(p, code, sem, m, called, s', 3, m');
  }

  lemma TopIs(s: State, a: Activation)
    requires s.stack != [] && s.stack[|s.stack| - 1] == a
    ensures Top(s) == a
  {
  }

  lemma CallerPushed(p: Program, s: State, m: Machine, callee: Activation, f: Frame)
    requires WellShaped(p) && Related(p, s, m) && s.stack != [] && ValidActivation(p, Top(s))
    requires Top(s).pc < |InstrsOf(p, Top(s))|
    requires InstrsOf(p, Top(s))[Top(s).pc].Call? || InstrsOf(p, Top(s))[Top(s).pc].CallMethod?
    requires callee.fn < |p| && FrameMatches(p, callee, f) && (p[callee.fn].hasResult <==> callee.result.Some?)
    requires f.resume == After(Top(s).fn, Top(s).block, Top(s).pc)
    requires f.resultPtr == (if callee.result.Some? then Slot(|m.frames| - 1, callee.result.value) else Nowhere)
    ensures StacksMatch(p, s.stack[..|s.stack| - 1] + [Top(s).(pc := Top(s).pc + 1), callee], m.frames + [f])
    ensures s.heap == m.heap && s.calls == m.calls && s.trace == m.trace
  {
    hide WellShaped, StacksMatch, FrameMatches, PositionMatches;
    CallerAdvanced(p, s.stack, m.frames, callee, f);
  }

  // ----- calls through an interface

  /** The receiver and the method of the call that the program is about to make. */
  predicate CallsMethod(p: Program, s: State, typ: TypeInfo, receiver: Value, vs: seq<Value>) {
    && s.stack != [] && Top(s).pc < |InstrsOf(p, Top(s))| && InstrsOf(p, Top(s))[Top(s).pc].CallMethod?
    && var a := Top(s);
       var instr := InstrsOf(p, a)[a.pc];
       && EvalAll(instr.args, a.params, a.captured, a.regs) == Some(vs)
       && Eval(instr.iface, a.params, a.captured, a.regs) == Some(Interface(typ, receiver))
  }

  lemma MethodTaken(p: Program, sem: Semantics, s: State)
    returns (typ: TypeInfo, receiver: Value, vs: seq<Value>, fn: nat)
    requires s.stack != [] && Top(s).pc < |InstrsOf(p, Top(s))| && InstrsOf(p, Top(s))[Top(s).pc].CallMethod?
    requires Step(p, sem, s).Some?
    ensures CallsMethod(p, s, typ, receiver, vs)
    ensures var instr := InstrsOf(p, Top(s))[Top(s).pc];
            && MethodOf(typ.methods, instr.id) == Some(fn) && fn < |p| && (p[fn].hasResult <==> instr.result.Some?)
            && Step(p, sem, s)
               == Some(s.(stack := s.stack[..|s.stack| - 1]
                                   + [Top(s).(pc := Top(s).pc + 1),
                                      Activation(fn, 0, 0, [receiver] + vs, [], map[], instr.result)],
                          trace := s.trace + [Called(fn, [receiver] + vs), Entered(fn, 0)]))
  {
    var a := Top(s);
    var instr := InstrsOf(p, a)[a.pc];
    var v := Eval(instr.iface, a.params, a.captured, a.regs).value;
    typ, receiver := v.typ, v.receiver;
    vs := EvalAll(instr.args, a.params, a.captured, a.regs).value;
    fn := MethodOf(typ.methods, instr.id).value;
  }

  /** The frame of the runtime function that looks for the method. */
  function InvokeFrame(p: Program, s: State, m: Machine, typ: TypeInfo, receiver: Value, vs: seq<Value>): Frame
    requires CallsMethod(p, s, typ, receiver, vs) && m.frames != []
  {
    var a := Top(s);
    var instr := InstrsOf(p, a)[a.pc];
    RuntimeFrame(After(a.fn, a.block, a.pc), PointerTo(m, instr.result),
                 [Interface(typ, receiver), Int(instr.id.name), receiver] + vs)
  }

  lemma InvokeCalled(p: Program, code: map<Label, seq<Stmt>>, sem: Semantics, s: State, m: Machine,
                     typ: TypeInfo, receiver: Value, vs: seq<Value>)
    requires WellShaped(p) && CodeOf(p, code) && Related(p, s, m) && s.stack != [] && ValidActivation(p, Top(s))
    requires CallsMethod(p, s, typ, receiver, vs)
    ensures m.frames != []
    ensures Advance(p, code, sem, m)
            == Some(Yield(m, Code(InterfaceInvoke))
                    .(frames := m.frames + [InvokeFrame(p, s, m, typ, receiver, vs)]))
  {
    hide WellShaped, CodeOf, StacksMatch, EvalAll, ReadAll, Advance;
    Executes(p, code, sem, s, m);
    var a, f, instr := Top(s), m.frames[|m.frames| - 1], InstrsOf(p, Top(s))[Top(s).pc];
    ReadAgrees(p, a, f, instr.iface);
    ReadAllAgrees(p, a, f, instr.args);
  }

  /** After two steps of the machine the runtime function is about to look for the method. */
  lemma InvokeReached(p: Program, code: map<Label, seq<Stmt>>, sem: Semantics, s: State, m: Machine,
                      typ: TypeInfo, receiver: Value, vs: seq<Value>) returns (running: Machine)
    requires WellShaped(p) && CodeOf(p, code) && Related(p, s, m) && s.stack != [] && ValidActivation(p, Top(s))
    requires CallsMethod(p, s, typ, receiver, vs)
    ensures m.frames != [] && AdvanceBy(p, code, sem, m, 2) == Some(running)
    ensures running.entered && running.current == Code(InterfaceInvoke)
    ensures running.frames == m.frames + [InvokeFrame(p, s, m, typ, receiver, vs)]
    ensures running.heap == m.heap && running.calls == m.calls && running.trace == m.trace
    ensures Advance(p, code, sem, m).Some? && Advance(p, code, sem, m).value.trace == m.trace
  {
    hide *;
    InvokeCalled(p, code, sem, s, m, typ, receiver, vs);
    Yields(m, Code(InterfaceInvoke));
    running := RuntimeCalled(p, code, sem, s, m, InvokeFrame(p, s, m, typ, receiver, vs), InterfaceInvoke);
  }

  lemma Yields(m: Machine, next: FunctionObject)
    ensures var m' := Yield(m, next);
            && m'.current == next && !m'.entered
            && m'.heap == m.heap && m'.calls == m.calls && m'.trace == m.trace
  {
  }

  /** The runtime function has found `fn`, and left its frame to it. */
  lemma InvokeFinds(p: Program, code: map<Label, seq<Stmt>>, sem: Semantics, m: Machine, below: seq<Frame>, top: Frame,
                    typ: TypeInfo, name: nat, params: seq<Value>)
    requires m.entered && m.current == Code(InterfaceInvoke) && m.frames == below + [top] && top.RuntimeFrame?
    requires exists receiver :: top.args == [Interface(typ, receiver), Int(name)] + params
    requires params != []
    ensures Search(Table(typ), name).None? ==> Advance(p, code, sem, m).None?
    ensures Search(Table(typ), name).Some? ==>
              var fn := Search(Table(typ), name).value;
              var frame := UserFrame(top.resume, None, top.resultPtr, params, sem.stale(|m.trace|));
              && Advance(p, code, sem, m)
                 == Some(Yield(m, Code(Entry(fn))).(frames := below + [frame], trace := m.trace + [Called(fn, params)]))
              && Advance(p, code, sem, m).value.trace == m.trace + [Called(fn, params)]
  {
    var receiver :| top.args == [Interface(typ, receiver), Int(name)] + params;
    assert top.args[2..] == params;
    assert m.frames[..|m.frames| - 1] == below;
  }

  /** The method is called: the runtime function hands over to it, and its entry to its first block. */
  lemma MethodEnters(p: Program, code: map<Label, seq<Stmt>>, sem: Semantics, s: State, m: Machine,
                     typ: TypeInfo, receiver: Value, vs: seq<Value>, fn: nat, s': State) returns (m': Machine)
    requires WellShaped(p) && CodeOf(p, code) && Related(p, s, m) && s.stack != [] && ValidActivation(p, Top(s))
    requires CallsMethod(p, s, typ, receiver, vs)
    requires Top(s).pc < |InstrsOf(p, Top(s))| && InstrsOf(p, Top(s))[Top(s).pc].CallMethod?
    requires var instr := InstrsOf(p, Top(s))[Top(s).pc];
             && Search(Table(typ), instr.id.name) == Some(fn)
             && fn < |p| && p[fn].freeVars == 0 && (p[fn].hasResult <==> instr.result.Some?)
             && s' == s.(stack := s.stack[..|s.stack| - 1]
                                  + [Top(s).(pc := Top(s).pc + 1),
                                     Activation(fn, 0, 0, [receiver] + vs, [], map[], instr.result)],
                         trace := s.trace + [Called(fn, [receiver] + vs), Entered(fn, 0)])
    ensures Simulates(p, code, sem, m, s', 6, m')
  {
    hide *;
    var running := InvokeReached(p, code, sem, s, m, typ, receiver, vs);
    var called, callee, frame := MethodFound(p, code, sem, s, m, running, typ, receiver, vs, fn);
    CallerPushed(p, s, m, callee, frame);
    TopIs(s', callee);
    assert called.trace + [Entered(fn, 0)] == s'.trace;
    m' := EntryRuns(p, code, sem, called, s');
    Then(p, code, sem, running, called, s', 3, m');
    Prefixed(p, code, sem, m, 2, running, s', 4, m');
  }

  lemma MethodFound(p: Program, code: map<Label, seq<Stmt>>, sem: Semantics, s: State, m: Machine, running: Machine,
                    typ: TypeInfo, receiver: Value, vs: seq<Value>, fn: nat)
    returns (called: Machine, callee: Activation, frame: Frame)
    requires CallsMethod(p, s, typ, receiver, vs) && m.frames != []
    requires running.entered && running.current == Code(InterfaceInvoke)
    requires running.frames == m.frames + [InvokeFrame(p, s, m, typ, receiver, vs)]
    requires Search(Table(typ), InstrsOf(p, Top(s))[Top(s).pc].id.name) == Some(fn) && fn < |p| && p[fn].freeVars == 0
    ensures callee == Activation(fn, 0, 0, [receiver] + vs, [], map[], InstrsOf(p, Top(s))[Top(s).pc].result)
    ensures Advance(p, code, sem, running) == Some(called) && !called.entered
    ensures ExtractUserFunction(called.current) == Entry(fn) && called.frames != []
    ensures PrepareUserFunction(called) == m.frames + [frame]
    ensures called.heap == running.heap && called.calls == running.calls
    ensures called.trace == running.trace + [Called(fn, [receiver] + vs)]
    ensures FrameMatches(p, callee, frame) && frame.resume == After(Top(s).fn, Top(s).block, Top(s).pc)
    ensures frame.resultPtr == (if callee.result.Some? then Slot(|m.frames| - 1, callee.result.value) else Nowhere)
  {
    hide Search, Table, Advance;
    var top, instr := InvokeFrame(p, s, m, typ, receiver, vs), InstrsOf(p, Top(s))[Top(s).pc];
    assert top.args == [Interface(typ, receiver), Int(instr.id.name)] + ([receiver] + vs);
    InvokeFinds(p, code, sem, running, m.frames, top, typ, instr.id.name, [receiver] + vs);
    called := Advance(p, code, sem, running).value;
    callee := Activation(fn, 0, 0, [receiver] + vs, [], map[], instr.result);
    frame := UserFrame(top.resume, None, top.resultPtr, [receiver] + vs, sem.stale(|running.trace|));
  }

  /** The search by name, in the table of the type, finds the method the program is about to call. */
  predicate Resolved(p: Program, s: State) {
    s.stack != [] && Top(s).pc < |InstrsOf(p, Top(s))| ==>
      var a := Top(s);
      match InstrsOf(p, a)[a.pc]
      case CallMethod(_, iface, id, _) =>
        (match Eval(iface, a.params, a.captured, a.regs)
         case Some(Interface(typ, _)) => Resolves(typ, id)
         case _ => true)
      case _ => true
  }

  lemma StepCallMethod(p: Program, code: map<Label, seq<Stmt>>, sem: Semantics, s: State, m: Machine)
    returns (n: nat, m': Machine)
    requires WellShaped(p) && CodeOf(p, code) && Related(p, s, m) && s.stack != [] && ValidActivation(p, Top(s))
    requires Top(s).pc < |InstrsOf(p, Top(s))| && InstrsOf(p, Top(s))[Top(s).pc].CallMethod?
    requires Step(p, sem, s).Some? && Resolved(p, s)
    requires Step(p, sem, s).value.stack != [] && ValidActivation(p, Top(Step(p, sem, s).value))
    ensures Simulates(p, code, sem, m, Step(p, sem, s).value, n, m')
  {
    hide WellShaped, CodeOf, StacksMatch, FrameMatches, EvalAll, Step, AdvanceBy, Advance, Related, Search;
    var typ, receiver, vs, fn := MethodTaken(p, sem, s);
    assert Top(Step(p, sem, s).value).fn == fn;
    m' := MethodEnters(p, code, sem, s, m, typ, receiver, vs, fn, Step(p, sem, s).value);
    n := 6;
  }

  lemma Popped(p: Program, stack: seq<Activation>, frames: seq<Frame>)
    requires StacksMatch(p, stack, frames) && stack != []
    ensures StacksMatch(p, stack[..|stack| - 1], frames[..|stack| - 1])
  {
    var stack', frames' := stack[..|stack| - 1], frames[..|stack| - 1];
    forall i | 0 <= i < |stack'| ensures Matches(p, stack', frames', i) {
      assert Matches(p, stack, frames, i);
    }
  }

  /** A function of a nested call returns: its caller gets the result and goes on after the call. */
  lemma ReturnStored(p: Program, stack: seq<Activation>, frames: seq<Frame>, v: Value)
    returns (frames': seq<Frame>)
    requires StacksMatch(p, stack, frames) && |stack| >= 2
    ensures frames[|frames| - 1].UserFrame?
    ensures var a, f, last := stack[|stack| - 1], frames[|frames| - 1], |stack| - 1;
            && stack[last - 1].pc > 0
            && f.resume == After(stack[last - 1].fn, stack[last - 1].block, stack[last - 1].pc - 1)
            && IsDefined(p, f.resume)
            && a.fn < |p| && (p[a.fn].hasResult <==> a.result.Some?)
            && (if a.result.Some? then Store(frames[..last], f.resultPtr, v) == Some(frames')
                else frames' == frames[..last])
            && StacksMatch(p, stack[..last - 1] + [stack[last - 1].(regs := Assign(stack[last - 1].regs, a.result, v))],
                           frames')
  {
    var last := |stack| - 1;
    var a, caller, g := stack[last], stack[last - 1], frames[last - 1];
    assert Matches(p, stack, frames, last);
    assert Matches(p, stack, frames, last - 1);
    Popped(p, stack, frames);
    var g' := g.(regs := Assign(g.regs, a.result, v));
    TopUpdated(p, stack[..last], frames[..last], caller.(regs := Assign(caller.regs, a.result, v)), g');
    assert stack[..last][..last - 1] == stack[..last - 1];
    assert frames[..last] == frames[..last][..last - 1] + [g];
    assert frames[..last][last - 1 := g'] == frames[..last][..last - 1] + [g'];
    frames' := frames[..last][..last - 1] + [g'];
  }

  lemma StepReturn(p: Program, code: map<Label, seq<Stmt>>, sem: Semantics, s: State, m: Machine)
    returns (n: nat, m': Machine)
    requires WellShaped(p) && CodeOf(p, code) && Related(p, s, m) && s.stack != [] && ValidActivation(p, Top(s))
    requires Top(s).pc < |InstrsOf(p, Top(s))| && InstrsOf(p, Top(s))[Top(s).pc].Return?
    requires Step(p, sem, s).Some?
    requires Step(p, sem, s).value.stack != [] ==> ValidActivation(p, Top(Step(p, sem, s).value))
    ensures Simulates(p, code, sem, m, Step(p, sem, s).value, n, m')
  {
    hide WellShaped, CodeOf, EvalAll, ReadAll, Advance, AdvanceBy;
    Executes(p, code, sem, s, m);
    var last := |m.frames| - 1;
    var a, instr, s' := Top(s), InstrsOf(p, Top(s))[Top(s).pc], Step(p, sem, s).value;
    ReadAllAgrees(p, a, m.frames[last], instr.results);
    var vs := EvalAll(instr.results, a.params, a.captured, a.regs).value;
    assert s' == Leave(p, s, vs).value;
    if last == 0 {
      assert Matches(p, s.stack, m.frames, last);
      n, m' := 1, Advance(p, code, sem, m).value;
      OneStep(p, code, sem, m, s', m');
    } else {
      var frames := ReturnStored(p, s.stack, m.frames, Packed(vs));
      var done := Advance(p, code, sem, m).value;
      m' := ResumeAfter(p, code, sem, s', done);
      Then(p, code, sem, m, done, s', 1, m');
      n := 2;
    }
  }

  // ----- jumps and phis

  /** Machine `m` after it has run `j` statements that only changed the registers of the top frame. */
  function WithRegisters(m: Machine, j: nat, g: Registers): Machine
    requires m.frames != [] && m.frames[|m.frames| - 1].UserFrame?
  {
    m.(offset := j, frames := m.frames[..|m.frames| - 1] + [m.frames[|m.frames| - 1].(regs := g)])
  }

  /** The machine in the block function of `to`, before any of its phis, coming from `a.block`. */
  ghost predicate AtBlockHead(p: Program, m: Machine, a: Activation, to: nat) {
    && a.fn < |p| && a.block < |p[a.fn].blocks| && to < |p[a.fn].blocks| && |a.captured| == p[a.fn].freeVars
    && m.entered && m.current == Code(BlockStart(a.fn, to)) && m.offset == 0
    && m.prev == LatestLabel(p, a.fn, a.block)
    && m.frames != [] && FrameMatches(p, a, m.frames[|m.frames| - 1])
    && a.block in p[a.fn].blocks[to].preds
  }

  lemma OnePhi(p: Program, code: map<Label, seq<Stmt>>, sem: Semantics, m: Machine, fn: nat, j: nat, g: Registers)
    returns (o: Operand)
    requires m.entered && m.current.Code? && m.frames != [] && m.frames[|m.frames| - 1].UserFrame?
    requires m.current.label'.BlockStart? && m.current.label'.fn == fn < |p|
    requires m.current.label' in code && j < |code[m.current.label']| && code[m.current.label'][j].Select?
    requires FirstMatch(code[m.current.label'][j].cases, m.prev).Some?
    ensures o == FirstMatch(code[m.current.label'][j].cases, m.prev).value
    ensures var f := m.frames[|m.frames| - 1].(regs := g);
            var g' := g[code[m.current.label'][j].dst := Read(o, f)];
            Advance(p, code, sem, WithRegisters(m, j, g)) == Some(WithRegisters(m, j + 1, g'))
  {
    var stmt := code[m.current.label'][j];
    o := FirstMatch(stmt.cases, m.prev).value;
    var now := WithRegisters(m, j, g);
    var f := now.frames[|now.frames| - 1];
    assert Advance(p, code, sem, now) == ExecuteStmt(p, sem, now, f, fn, stmt);
    assert now.frames[..|m.frames| - 1] == m.frames[..|m.frames| - 1];
  }

  /** The statement emitted for phi `j` of a block, and the operand it takes. */
  lemma PhiStmt(p: Program, code: map<Label, seq<Stmt>>, fn: nat, b: nat, j: nat, pred: nat)
    requires WellShaped(p) && CodeOf(p, code) && fn < |p| && b < |p[fn].blocks| && j < PhiCount(p[fn].blocks[b].instrs)
    requires pred in p[fn].blocks[b].preds && Distinct(p[fn].blocks[b].preds)
    ensures pred < |p[fn].blocks|
    ensures BlockStart(fn, b) in code && j < |code[BlockStart(fn, b)]|
    ensures var stmt, phi := code[BlockStart(fn, b)][j], p[fn].blocks[b].instrs[j];
            var edge := IndexOf(p[fn].blocks[b].preds, pred);
            && stmt.Select? && stmt.dst == phi.dst && edge < |phi.edges|
            && FirstMatch(stmt.cases, LatestLabel(p, fn, pred)) == Some(phi.edges[edge])
  {
    assert IsDefined(p, BlockStart(fn, b));
    assert NoSwitch(p[fn].blocks[b].instrs, 0, j);
    BodyAt(p, fn, b, 0, j);
    PhiPicksEdge(p, fn, b, j, pred);
  }

  /** The emitted phis compute the sequential reading of the phis of the block, stale reads or not. */
  lemma {:induction false} PhisRun(p: Program, code: map<Label, seq<Stmt>>, sem: Semantics, m: Machine,
                                   a: Activation, to: nat, j: nat)
    returns (g: Registers)
    requires WellShaped(p) && CodeOf(p, code) && AtBlockHead(p, m, a, to) && Distinct(p[a.fn].blocks[to].preds)
    requires var instrs := p[a.fn].blocks[to].instrs;
             var edge := IndexOf(p[a.fn].blocks[to].preds, a.block);
             && j <= PhiCount(instrs) && ArePhis(instrs, PhiCount(instrs), edge)
             && SequentialPhis(instrs, j, edge, a.params, a.captured, a.regs).Some?
    ensures AdvanceBy(p, code, sem, m, j) == Some(WithRegisters(m, j, g))
    ensures var edge := IndexOf(p[a.fn].blocks[to].preds, a.block);
            Agree(SequentialPhis(p[a.fn].blocks[to].instrs, j, edge, a.params, a.captured, a.regs).value, g)
  {
    hide WellShaped, CodeOf, Advance, AdvanceBy;
    var f := m.frames[|m.frames| - 1];
    if j == 0 {
      g := f.regs;
      assert AdvanceBy(p, code, sem, m, 0) == Some(m) by { NoSteps(p, code, sem, m); }
      assert m.frames == m.frames[..|m.frames| - 1] + [f];
      assert f == f.(regs := g);
    } else {
      var instrs, edge := p[a.fn].blocks[to].instrs, IndexOf(p[a.fn].blocks[to].preds, a.block);
      var before := PhisRun(p, code, sem, m, a, to, j - 1);
      var regs := SequentialPhis(instrs, j - 1, edge, a.params, a.captured, a.regs).value;
      PhiStmt(p, code, a.fn, to, j - 1, a.block);
      var o := OnePhi(p, code, sem, m, a.fn, j - 1, before);
      ReadAgrees(p, a.(regs := regs), f.(regs := before), o);
      g := before[instrs[j - 1].dst := Read(o, f.(regs := before))];
      StepsJoin(p, code, sem, m, j - 1, WithRegisters(m, j - 1, before), WithRegisters(m, j, g));
    }
  }

  lemma NoSteps(p: Program, code: map<Label, seq<Stmt>>, sem: Semantics, m: Machine)
    ensures AdvanceBy(p, code, sem, m, 0) == Some(m)
  {
  }

  lemma StepsJoin(p: Program, code: map<Label, seq<Stmt>>, sem: Semantics, m: Machine, n: nat, m1: Machine, m2: Machine)
    requires AdvanceBy(p, code, sem, m, n) == Some(m1) && Advance(p, code, sem, m1) == Some(m2)
    ensures AdvanceBy(p, code, sem, m, n + 1) == Some(m2)
  {
    hide Advance;
    AdvanceByCompose(p, code, sem, m, n, 1);
    assert AdvanceBy(p, code, sem, m2, 0) == Some(m2);
  }

  /** Block `to` has no phi that reads stale when control comes from block `pred`. */
  ghost predicate SafeEdge(p: Program, fn: nat, to: nat, pred: nat)
    requires fn < |p| && to < |p[fn].blocks| && pred in p[fn].blocks[to].preds
  {
    var instrs, edge := p[fn].blocks[to].instrs, IndexOf(p[fn].blocks[to].preds, pred);
    && Distinct(p[fn].blocks[to].preds)
    && ArePhis(instrs, PhiCount(instrs), edge) && NoStalePhiRead(instrs, PhiCount(instrs), edge)
  }

  /** So it is on all edges out of block `b`. */
  ghost predicate SafeExits(p: Program, fn: nat, b: nat)
    requires fn < |p|
  {
    forall to | 0 <= to < |p[fn].blocks| && b in p[fn].blocks[to].preds :: SafeEdge(p, fn, to, b)
  }

  lemma ExitsAreSafe(p: Program, fn: nat, b: nat)
    requires WellFormed(p) && fn < |p|
    ensures SafeExits(p, fn, b)
  {
    forall to | 0 <= to < |p[fn].blocks| && b in p[fn].blocks[to].preds ensures SafeEdge(p, fn, to, b) {
      assert SafePhis(p[fn].blocks[to]);
    }
  }

  /** Control has been handed to the block function of `to`. */
  lemma HeadReached(p: Program, code: map<Label, seq<Stmt>>, sem: Semantics, s: State, m: Machine, to: nat)
    returns (head: Machine)
    requires StacksMatch(p, s.stack, m.frames) && s.stack != [] && ValidActivation(p, Top(s))
    requires to < |p[Top(s).fn].blocks| && Top(s).block in p[Top(s).fn].blocks[to].preds
    requires !m.entered && m.current == Code(BlockStart(Top(s).fn, to))
             && m.prev == LatestLabel(p, Top(s).fn, Top(s).block)
    ensures Advance(p, code, sem, m) == Some(head) && AtBlockHead(p, head, Top(s), to)
    ensures head == m.(entered := true, offset := 0, trace := m.trace + [Entered(Top(s).fn, to)])
  {
    hide StacksMatch, FrameMatches, LatestLabel;
    TopMatches(p, s.stack, m.frames);
    FreeVarsTested(p, Top(s), m.frames[|m.frames| - 1]);
    head := Advance(p, code, sem, m).value;
  }

  lemma TopMatches(p: Program, stack: seq<Activation>, frames: seq<Frame>)
    requires StacksMatch(p, stack, frames) && stack != []
    ensures |frames| == |stack| && stack[|stack| - 1].fn < |p|
    ensures FrameMatches(p, stack[|stack| - 1], frames[|stack| - 1])
  {
    assert Matches(p, stack, frames, |stack| - 1);
  }

  /** The frame of an activation passes the test at the head of each C function. */
  lemma FreeVarsTested(p: Program, a: Activation, f: Frame)
    requires a.fn < |p| && FrameMatches(p, a, f)
    ensures f.UserFrame? && (f.freeVars.Some? <==> p[a.fn].freeVars != 0)
  {
  }

  lemma PhisDone(p: Program, s: State, m: Machine, head: Machine, to: nat, a': Activation, g: Registers)
    requires StacksMatch(p, s.stack, head.frames) && s.stack != [] && AtBlockHead(p, head, Top(s), to)
    requires a' == Top(s).(block := to, pc := PhiCount(p[Top(s).fn].blocks[to].instrs), regs := a'.regs)
             && Agree(a'.regs, g)
    requires s.heap == head.heap && s.calls == head.calls && head.trace == s.trace + [Entered(Top(s).fn, to)]
    ensures Related(p, ReplaceTop(s, a').(trace := s.trace + [Entered(Top(s).fn, to)]), WithRegisters(head, a'.pc, g))
  {
    TopUpdated(p, s.stack, head.frames, a', head.frames[|s.stack| - 1].(regs := g));
    assert NoSwitch(p[a'.fn].blocks[to].instrs, 0, a'.pc);
  }

  lemma ActivationPlace(p: Program, a: Activation)
    requires ValidActivation(p, a)
    ensures a.fn < |p| && a.block < |p[a.fn].blocks|
  {
  }

  lemma BlockEntered(p: Program, code: map<Label, seq<Stmt>>, sem: Semantics, s: State, m: Machine, to: nat, s': State)
    returns (n: nat, m': Machine)
    requires WellShaped(p) && CodeOf(p, code) && StacksMatch(p, s.stack, m.frames)
    requires s.stack != [] && ValidActivation(p, Top(s)) && SafeExits(p, Top(s).fn, Top(s).block)
    requires s.heap == m.heap && s.calls == m.calls && s.trace == m.trace
    requires !m.entered && m.current == Code(BlockStart(Top(s).fn, to))
             && m.prev == LatestLabel(p, Top(s).fn, Top(s).block)
    requires EnterBlock(p, Top(s), to).Some?
    requires s' == ReplaceTop(s, EnterBlock(p, Top(s), to).value).(trace := s.trace + [Entered(Top(s).fn, to)])
    ensures Simulates(p, code, sem, m, s', n, m')
  {
    hide WellShaped, CodeOf, StacksMatch, ValidActivation, Advance, Related, SequentialPhis, ParallelPhis,
      NoStalePhiRead;
    var a := Top(s);
    ActivationPlace(p, a);
    var edge := IndexOf(p[a.fn].blocks[to].preds, a.block);
    var k := PhiCount(p[a.fn].blocks[to].instrs);
    assert SafeEdge(p, a.fn, to, a.block);
    SequentialIsParallel(p[a.fn].blocks[to].instrs, k, edge, a.params, a.captured, a.regs);
    var head := HeadReached(p, code, sem, s, m, to);
    var g := PhisRun(p, code, sem, head, a, to, k);
    PhisDone(p, s, m, head, to, EnterBlock(p, a, to).value, g);
    n, m' := k + 1, WithRegisters(head, k, g);
  }

  /** Which successor a jump or branch takes. */
  function Choice(a: Activation, instr: Instr): nat {
    if instr.If? && Eval(instr.cond, a.params, a.captured, a.regs) == Some(Int(0)) then 1 else 0
  }

  lemma GotoTaken(p: Program, sem: Semantics, s: State)
    requires s.stack != [] && Top(s).pc < |InstrsOf(p, Top(s))|
    requires InstrsOf(p, Top(s))[Top(s).pc].Jump? || InstrsOf(p, Top(s))[Top(s).pc].If?
    requires Step(p, sem, s).Some?
    ensures InstrsOf(p, Top(s))[Top(s).pc].If? ==>
              var o := InstrsOf(p, Top(s))[Top(s).pc].cond;
              exists n :: Eval(o, Top(s).params, Top(s).captured, Top(s).regs) == Some(Int(n))
    ensures Step(p, sem, s) == Goto(p, s, Top(s), Choice(Top(s), InstrsOf(p, Top(s))[Top(s).pc]))
  {
  }

  lemma GotoReturned(p: Program, code: map<Label, seq<Stmt>>, sem: Semantics, s: State, m: Machine)
    requires WellShaped(p) && CodeOf(p, code) && Related(p, s, m) && s.stack != [] && ValidActivation(p, Top(s))
    requires Top(s).pc < |InstrsOf(p, Top(s))|
    requires var instr := InstrsOf(p, Top(s))[Top(s).pc];
             || instr.Jump?
             || (instr.If? && exists n :: Eval(instr.cond, Top(s).params, Top(s).captured, Top(s).regs) == Some(Int(n)))
    ensures var a := Top(s);
            var choice := Choice(a, InstrsOf(p, a)[a.pc]);
            && choice < |p[a.fn].blocks[a.block].succs|
            && Advance(p, code, sem, m) == Some(Yield(m, Code(BlockStart(a.fn, p[a.fn].blocks[a.block].succs[choice]))))
    ensures m.current == Code(LatestLabel(p, Top(s).fn, Top(s).block))
  {
    hide CodeOf, StacksMatch, Advance;
    Executes(p, code, sem, s, m);
    var a, instr := Top(s), InstrsOf(p, Top(s))[Top(s).pc];
    assert WellShapedInstr(p[a.fn].blocks[a.block], a.pc);
    hide WellShaped;
    if instr.If? { ReadAgrees(p, a, m.frames[|m.frames| - 1], instr.cond); }
    LatestReached(p, m.current.label', a.pc);
  }

  lemma StepGoto(p: Program, code: map<Label, seq<Stmt>>, sem: Semantics, s: State, m: Machine)
    returns (n: nat, m': Machine)
    requires WellShaped(p) && CodeOf(p, code) && Related(p, s, m) && s.stack != [] && ValidActivation(p, Top(s))
    requires Top(s).pc < |InstrsOf(p, Top(s))| && SafeExits(p, Top(s).fn, Top(s).block)
    requires InstrsOf(p, Top(s))[Top(s).pc].Jump? || InstrsOf(p, Top(s))[Top(s).pc].If?
    requires Step(p, sem, s).Some?
    ensures Simulates(p, code, sem, m, Step(p, sem, s).value, n, m')
  {
    hide CodeOf, StacksMatch, FrameMatches, Step, Advance, AdvanceBy;
    var a, s' := Top(s), Step(p, sem, s).value;
    var choice := Choice(a, InstrsOf(p, a)[a.pc]);
    GotoTaken(p, sem, s);
    GotoReturned(p, code, sem, s, m);
    hide WellShaped, SafeExits;
    var to := p[a.fn].blocks[a.block].succs[choice];
    var jumped := Yield(m, Code(BlockStart(a.fn, to)));
    var k, last := BlockEntered(p, code, sem, s, jumped, to, s');
    Then(p, code, sem, m, jumped, s', k, last);
    n, m' := k + 1, last;
  }

  // ----- whole runs

  /** Any step of the program is matched by one or more steps of the machine. */
  lemma StepSimulated(p: Program, code: map<Label, seq<Stmt>>, sem: Semantics, s: State, m: Machine)
    returns (n: nat, m': Machine)
    requires WellFormed(p) && CodeOf(p, code) && ValidSemantics(p, sem)
    requires ValidState(p, s) && Related(p, s, m) && Step(p, sem, s).Some? && Resolved(p, s)
    ensures ValidState(p, Step(p, sem, s).value)
    ensures Simulates(p, code, sem, m, Step(p, sem, s).value, n, m')
  {
    StepValid(p, sem, s);
    assert ValidActivation(p, Top(s));
    var s' := Step(p, sem, s).value;
    assert s'.stack != [] ==> ValidActivation(p, Top(s'));
    var instr := InstrsOf(p, Top(s))[Top(s).pc];
    match instr
    case Inline(_, _, _) => n, m' := StepInline(p, code, sem, s, m);
    case Api(_, _, _) => n, m' := StepApi(p, code, sem, s, m);
    case MakeClosure(_, _, _) => n, m' := StepClosure(p, code, sem, s, m);
    case Call(_, callee, _) =>
      assert WellFormedInstr(p, instr);
      EvalValid(p, Top(s), callee);
      n, m' := StepCall(p, code, sem, s, m);
    case CallMethod(_, _, _, _) => n, m' := StepCallMethod(p, code, sem, s, m);
    case Jump =>
      ExitsAreSafe(p, Top(s).fn, Top(s).block);
      n, m' := StepGoto(p, code, sem, s, m);
    case If(_) =>
      ExitsAreSafe(p, Top(s).fn, Top(s).block);
      n, m' := StepGoto(p, code, sem, s, m);
    case Return(_) => n, m' := StepReturn(p, code, sem, s, m);
  }

  /** Every method that is called in the first `k` steps is found by its name. */
  predicate AllResolved(p: Program, sem: Semantics, s: State, k: nat)
    decreases k
  {
    k > 0 && Step(p, sem, s).Some? ==> Resolved(p, s) && AllResolved(p, sem, Step(p, sem, s).value, k - 1)
  }

  lemma {:induction false} RunSimulated(p: Program, code: map<Label, seq<Stmt>>, sem: Semantics, s: State,
                                        m: Machine, k: nat)
    returns (n: nat, m': Machine)
    requires WellFormed(p) && CodeOf(p, code) && ValidSemantics(p, sem)
    requires ValidState(p, s) && Related(p, s, m) && Run(p, sem, s, k).Some? && AllResolved(p, sem, s, k)
    ensures n >= k && AdvanceBy(p, code, sem, m, n) == Some(m') && Related(p, Run(p, sem, s, k).value, m')
    decreases k
  {
    hide Advance, Step, ValidState, ValidSemantics, WellFormed, CodeOf, Resolved, Related;
    if k == 0 {
      n, m' := 0, m;
    } else {
      var i, m1 := StepSimulated(p, code, sem, s, m);
      var j, last := RunSimulated(p, code, sem, Step(p, sem, s).value, m1, k - 1);
      AdvanceByCompose(p, code, sem, m, i, j);
      n, m' := i + j, last;
    }
  }

  lemma InitialRelated(p: Program, code: map<Label, seq<Stmt>>, sem: Semantics, fn: nat, captured: seq<Value>,
                       args: seq<Value>, heap: Heap, stale: Registers) returns (m: Machine)
    requires WellShaped(p) && CodeOf(p, code)
    requires ValidActivation(p, Initial(fn, captured, args, heap).stack[0])
    ensures Simulates(p, code, sem, Spawned(p, ObjectOf(fn, captured), args, heap, stale),
                      Initial(fn, captured, args, heap), 3, m)
  {
    var s, start := Initial(fn, captured, args, heap), Spawned(p, ObjectOf(fn, captured), args, heap, stale);
    var frames := PrepareUserFunction(start);
    assert |frames| == 1;
    forall i | 0 <= i < |s.stack| ensures Matches(p, s.stack, frames, i) {}
    m := EntryRuns(p, code, sem, start, s);
  }

  /** The translation is correct: for every run of a well-formed program, linking the emitted package
      and dispatching it on the trampoline reaches a machine state with the same activations, the same
      register values, the same heap and the same sequence of calls, blocks, runtime calls and returns;
      and when the program has finished, the goroutine is about to terminate. */
  lemma TranslationCorrect(p: Program, sem: Semantics, fn: nat, captured: seq<Value>, args: seq<Value>,
                           heap: Heap, stale: Registers, k: nat) returns (n: nat, m: Machine)
    requires WellFormed(p) && ValidSemantics(p, sem)
    requires ValidState(p, Initial(fn, captured, args, heap))
    requires Run(p, sem, Initial(fn, captured, args, heap), k).Some?
    requires AllResolved(p, sem, Initial(fn, captured, args, heap), k)
    ensures n >= k
    ensures AdvanceBy(p, Link(PackageDefinitions(p, |p|)),
                      sem, Spawned(p, ObjectOf(fn, captured), args, heap, stale), n) == Some(m)
    ensures Related(p, Run(p, sem, Initial(fn, captured, args, heap), k).value, m)
  {
    hide Advance, Step, ValidSemantics, CodeOf, Link, PackageDefinitions;
    var code := Link(PackageDefinitions(p, |p|));
    LinkedCode(p);
    var s, start := Initial(fn, captured, args, heap), Spawned(p, ObjectOf(fn, captured), args, heap, stale);
    assert ValidActivation(p, s.stack[0]);
    var first := InitialRelated(p, code, sem, fn, captured, args, heap, stale);
    var j, last := RunSimulated(p, code, sem, s, first, k);
    AdvanceByCompose(p, code, sem, start, 3, j);
    n, m := 3 + j, last;
  }

  lemma LinkedCode(p: Program)
    requires WellShaped(p)
    ensures CodeOf(p, Link(PackageDefinitions(p, |p|)))
  {
    forall l {:trigger l in Link(PackageDefinitions(p, |p|))}
      ensures l in Link(PackageDefinitions(p, |p|)) <==> IsDefined(p, l)
      ensures IsDefined(p, l) ==> Link(PackageDefinitions(p, |p|))[l] == BodyOf(p, l)
    {
      EmittedPackageLinks(p, l);
    }
  }

  /** None of the assertions in the emitted code can fail: the machine gets through every one of the steps
      that take it to the state related to the program's, in particular past every test of the
      free-variable pointer and every phi. */
  lemma NoAssertionFails(p: Program, sem: Semantics, fn: nat, captured: seq<Value>, args: seq<Value>,
                         heap: Heap, stale: Registers, k: nat) returns (n: nat, m: Machine)
    requires WellFormed(p) && ValidSemantics(p, sem)
    requires ValidState(p, Initial(fn, captured, args, heap))
    requires Run(p, sem, Initial(fn, captured, args, heap), k).Some?
    requires AllResolved(p, sem, Initial(fn, captured, args, heap), k)
    ensures n >= k && Related(p, Run(p, sem, Initial(fn, captured, args, heap), k).value, m)
    ensures var start := Spawned(p, ObjectOf(fn, captured), args, heap, stale);
            var code := Link(PackageDefinitions(p, |p|));
            && AdvanceBy(p, code, sem, start, n) == Some(m)
            && forall i | 0 <= i <= n :: AdvanceBy(p, code, sem, start, i).Some?
  {
    hide Advance, Step, ValidSemantics, CodeOf, Link, PackageDefinitions, Related;
    n, m := TranslationCorrect(p, sem, fn, captured, args, heap, stale, k);
    var start, code := Spawned(p, ObjectOf(fn, captured), args, heap, stale), Link(PackageDefinitions(p, |p|));
    forall i | 0 <= i <= n ensures AdvanceBy(p, code, sem, start, i).Some? {
      AdvanceByCompose(p, code, sem, start, i, n - i);
    }
  }
}
