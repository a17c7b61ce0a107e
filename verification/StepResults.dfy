/** What the steps of a program leave behind, in the program's state and in the machine's, said without
    the functions that compute it. */
module StepResults {
  import opened Options
  import opened Ssa
  import opened Emission
  import opened Trampoline
  import opened Validity
  import opened Simulation
  import MethodTables

  /** What a function that returns these values leaves for its caller: a single value as it is, and
      otherwise a tuple of them, in order. */
  predicate IsResultOf(vs: seq<Value>, v: Value) {
    if |vs| == 1 then v == vs[0]
    else v.Tuple? && |v.elems| == |vs| && forall i | 0 <= i < |vs| :: v.elems[i] == vs[i]
  }

  /** The instruction the program is about to execute. */
  ghost predicate AboutTo(p: Program, s: State, instr: Instr) {
    s.stack != [] && Top(s).pc < |InstrsOf(p, Top(s))| && InstrsOf(p, Top(s))[Top(s).pc] == instr
  }

  /** The frame of the running activation holds its values. */
  lemma FrameHolds(p: Program, s: State, m: Machine)
    requires Related(p, s, m) && s.stack != []
    ensures |m.frames| == |s.stack| && Top(s).fn < |p| && m.current.Code?
    ensures Top(s).block < |p[Top(s).fn].blocks| && OfBlock(m.current.label', Top(s).fn, Top(s).block)
    ensures FrameMatches(p, Top(s), m.frames[|m.frames| - 1])
  {
    assert Matches(p, s.stack, m.frames, |s.stack| - 1);
  }

  // ----- returns

  lemma ReturnedTo(p: Program, sem: Semantics, s: State, results: seq<Operand>, vs: seq<Value>)
    requires AboutTo(p, s, Return(results)) && Step(p, sem, s).Some? && |s.stack| >= 2
    requires EvalAll(results, Top(s).params, Top(s).captured, Top(s).regs) == Some(vs)
    ensures var s', before, result := Step(p, sem, s).value, s.stack[|s.stack| - 2], Top(s).result;
            && |s'.stack| == |s.stack| - 1 && s'.stack[..|s'.stack| - 1] == s.stack[..|s.stack| - 2]
            && s'.heap == s.heap && s'.trace == s.trace + [Returned(Top(s).fn, vs)]
            && Top(s') == before.(regs := Top(s').regs)
            && (result.None? ==> Top(s').regs == before.regs)
            && (result.Some? ==>
                  && Top(s').regs.Keys == before.regs.Keys + {result.value}
                  && IsResultOf(vs, Top(s').regs[result.value])
                  && forall r | r in before.regs && r != result.value :: Top(s').regs[r] == before.regs[r])
  {
    hide EvalAll;
  }

  /** A nested return delivers its values to the caller's result register, in the program and in the frame
      of the machine, and leaves the caller's other registers alone. */
  lemma ReturnDelivers(p: Program, code: map<Label, seq<Stmt>>, sem: Semantics, s: State, m: Machine,
                       results: seq<Operand>, vs: seq<Value>) returns (n: nat, m': Machine)
    requires WellFormed(p) && CodeOf(p, code) && ValidSemantics(p, sem)
    requires ValidState(p, s) && Related(p, s, m) && Step(p, sem, s).Some?
    requires AboutTo(p, s, Return(results)) && |s.stack| >= 2
    requires EvalAll(results, Top(s).params, Top(s).captured, Top(s).regs) == Some(vs)
    ensures n >= 1 && AdvanceBy(p, code, sem, m, n) == Some(m') && m'.frames != []
    ensures var s', before, result := Step(p, sem, s).value, s.stack[|s.stack| - 2], Top(s).result;
            var frame := m'.frames[|m'.frames| - 1];
            && |m'.frames| == |s'.stack| == |s.stack| - 1 && frame.UserFrame?
            && (forall r | r in before.regs && result != Some(r) ::
                  r in Top(s').regs && Top(s').regs[r] == before.regs[r]
                  && r in frame.regs && frame.regs[r] == before.regs[r])
            && (result.Some? ==>
                  && result.value in Top(s').regs && IsResultOf(vs, Top(s').regs[result.value])
                  && result.value in frame.regs && IsResultOf(vs, frame.regs[result.value]))
  {
    hide WellFormed, WellShaped, CodeOf, ValidSemantics, ValidState, Step, EvalAll, AdvanceBy, Related;
    NothingToResolve(p, s, Return(results));
    n, m' := StepSimulated(p, code, sem, s, m);
    ReturnedTo(p, sem, s, results, vs);
    FrameHolds(p, Step(p, sem, s).value, m');
  }

  lemma NothingToResolve(p: Program, s: State, instr: Instr)
    requires AboutTo(p, s, instr) && !instr.CallMethod?
    ensures Resolved(p, s)
  {
  }

  // ----- branches

  lemma BranchTaken(p: Program, sem: Semantics, s: State, cond: Operand, n: int)
    requires AboutTo(p, s, If(cond)) && Step(p, sem, s).Some?
    requires Eval(cond, Top(s).params, Top(s).captured, Top(s).regs) == Some(Int(n))
    ensures var s', a := Step(p, sem, s).value, Top(s);
            var succs := p[a.fn].blocks[a.block].succs;
            && |s'.stack| == |s.stack| && |succs| > (if n == 0 then 1 else 0)
            && Top(s').fn == a.fn && Top(s').block == succs[if n == 0 then 1 else 0]
  {
    hide EnterBlock;
    EntersThere(p, Top(s), p[Top(s).fn].blocks[Top(s).block].succs, if n == 0 then 1 else 0);
  }

  lemma EntersThere(p: Program, a: Activation, succs: seq<nat>, choice: nat)
    ensures choice < |succs| && EnterBlock(p, a, succs[choice]).Some? ==>
              var b := EnterBlock(p, a, succs[choice]).value;
              b == a.(block := succs[choice], pc := b.pc, regs := b.regs)
  {
    hide ParallelPhis, PhiCount, IndexOf;
  }

  /** A branch goes to the first successor of its block if the condition holds and else to the second, and
      so does the emitted code. */
  lemma BranchGoes(p: Program, code: map<Label, seq<Stmt>>, sem: Semantics, s: State, m: Machine, cond: Operand, c: int)
    returns (n: nat, m': Machine)
    requires WellFormed(p) && CodeOf(p, code) && ValidSemantics(p, sem)
    requires ValidState(p, s) && Related(p, s, m) && Step(p, sem, s).Some? && AboutTo(p, s, If(cond))
    requires Eval(cond, Top(s).params, Top(s).captured, Top(s).regs) == Some(Int(c))
    ensures n >= 1 && AdvanceBy(p, code, sem, m, n) == Some(m')
    ensures var s', a := Step(p, sem, s).value, Top(s);
            var succs := p[a.fn].blocks[a.block].succs;
            && |succs| > (if c == 0 then 1 else 0)
            && s'.stack != [] && Top(s').block == succs[if c == 0 then 1 else 0]
            && m'.current.Code? && OfBlock(m'.current.label', a.fn, succs[if c == 0 then 1 else 0])
  {
    hide WellFormed, WellShaped, CodeOf, ValidSemantics, ValidState, Step, AdvanceBy, Related, Eval;
    NothingToResolve(p, s, If(cond));
    n, m' := StepSimulated(p, code, sem, s, m);
    BranchTaken(p, sem, s, cond, c);
    FrameHolds(p, Step(p, sem, s).value, m');
  }

  // ----- calls

  /** The function or the method is about to run with these parameters and captured values, on a frame of its
      own, and the caller is as it was, but for its place. */
  ghost predicate CalledWith(p: Program, s: State, s': State, m': Machine, fn: nat, params: seq<Value>,
                             captured: seq<Value>)
    requires s.stack != []
  {
    && |s'.stack| == |m'.frames| == |s.stack| + 1 && fn < |p|
    && s'.stack[..|s.stack| - 1] == s.stack[..|s.stack| - 1]
    && s'.stack[|s.stack| - 1] == Top(s).(pc := Top(s).pc + 1)
    && Top(s').fn == fn && Top(s').block == 0 && Top(s').pc == 0
    && Top(s').params == params && Top(s').captured == captured
    && var frame := m'.frames[|m'.frames| - 1];
       && frame.UserFrame? && frame.params == params
       && frame.freeVars == (if p[fn].freeVars == 0 then None else Some(captured))
       && m'.current.Code? && OfBlock(m'.current.label', fn, 0)
  }

  /** A call passes its arguments in order, and a closure its captured values. */
  lemma CallPasses(p: Program, code: map<Label, seq<Stmt>>, sem: Semantics, s: State, m: Machine,
                   result: Option<nat>, callee: Operand, args: seq<Operand>, vs: seq<Value>)
    returns (n: nat, m': Machine)
    requires WellFormed(p) && CodeOf(p, code) && ValidSemantics(p, sem)
    requires ValidState(p, s) && Related(p, s, m) && Step(p, sem, s).Some? && AboutTo(p, s, Call(result, callee, args))
    requires EvalAll(args, Top(s).params, Top(s).captured, Top(s).regs) == Some(vs)
    ensures n >= 1 && AdvanceBy(p, code, sem, m, n) == Some(m')
    ensures var f := Eval(callee, Top(s).params, Top(s).captured, Top(s).regs);
            && f.Some? && (f.value.Func? || f.value.Closure?)
            && CalledWith(p, s, Step(p, sem, s).value, m', f.value.fn, vs,
                          if f.value.Func? then [] else f.value.captured)
  {
    hide WellFormed, WellShaped, CodeOf, ValidSemantics, ValidState, Step, EvalAll, Eval, AdvanceBy, Related;
    NothingToResolve(p, s, Call(result, callee, args));
    n, m' := StepSimulated(p, code, sem, s, m);
    CallTook(p, sem, s, result, callee, args, vs);
    FrameHolds(p, Step(p, sem, s).value, m');
  }

  lemma CallTook(p: Program, sem: Semantics, s: State, result: Option<nat>, callee: Operand, args: seq<Operand>,
                 vs: seq<Value>)
    requires AboutTo(p, s, Call(result, callee, args)) && Step(p, sem, s).Some?
    requires EvalAll(args, Top(s).params, Top(s).captured, Top(s).regs) == Some(vs)
    ensures var s', f := Step(p, sem, s).value, Eval(callee, Top(s).params, Top(s).captured, Top(s).regs);
            && f.Some? && (f.value.Func? || f.value.Closure?) && f.value.fn < |p|
            && |s'.stack| == |s.stack| + 1 && s'.stack[..|s.stack| - 1] == s.stack[..|s.stack| - 1]
            && s'.stack[|s.stack| - 1] == Top(s).(pc := Top(s).pc + 1)
            && Top(s').fn == f.value.fn && Top(s').block == 0 && Top(s').pc == 0 && Top(s').params == vs
            && Top(s').captured == (if f.value.Func? then [] else f.value.captured)
  {
    hide EvalAll, Eval;
  }

  /** A call through an interface passes the receiver, and after it the arguments in order, to the method that
      is meant. */
  lemma MethodPasses(p: Program, code: map<Label, seq<Stmt>>, sem: Semantics, s: State, m: Machine,
                     typ: MethodTables.TypeInfo, receiver: Value, vs: seq<Value>)
    returns (n: nat, m': Machine, fn: nat)
    requires WellFormed(p) && CodeOf(p, code) && ValidSemantics(p, sem)
    requires ValidState(p, s) && Related(p, s, m) && Step(p, sem, s).Some?
    requires CallsMethod(p, s, typ, receiver, vs) && Resolved(p, s)
    ensures n >= 1 && AdvanceBy(p, code, sem, m, n) == Some(m')
    ensures exists i | 0 <= i < |typ.methods| ::
              typ.methods[i].id == InstrsOf(p, Top(s))[Top(s).pc].id && typ.methods[i].fn == Some(fn)
    ensures s.stack != [] && CalledWith(p, s, Step(p, sem, s).value, m', fn, [receiver] + vs, [])
  {
    hide WellFormed, WellShaped, CodeOf, ValidSemantics, ValidState, Step, AdvanceBy, Related, Resolved;
    fn := MethodTook(p, sem, s, typ, receiver, vs);
    n, m' := StepSimulated(p, code, sem, s, m);
    FrameHolds(p, Step(p, sem, s).value, m');
  }

  lemma MethodTook(p: Program, sem: Semantics, s: State, typ: MethodTables.TypeInfo, receiver: Value, vs: seq<Value>)
    returns (fn: nat)
    requires Step(p, sem, s).Some? && CallsMethod(p, s, typ, receiver, vs)
    ensures exists i | 0 <= i < |typ.methods| ::
              typ.methods[i].id == InstrsOf(p, Top(s))[Top(s).pc].id && typ.methods[i].fn == Some(fn)
    ensures var s' := Step(p, sem, s).value;
            && fn < |p| && |s'.stack| == |s.stack| + 1 && s'.stack[..|s.stack| - 1] == s.stack[..|s.stack| - 1]
            && s'.stack[|s.stack| - 1] == Top(s).(pc := Top(s).pc + 1)
            && Top(s').fn == fn && Top(s').block == 0 && Top(s').pc == 0
            && Top(s').params == [receiver] + vs && Top(s').captured == []
  {
    hide Step, EvalAll, Eval, MethodTables.MethodOf;
    var typ', receiver', vs', f := MethodTaken(p, sem, s);
    fn := f;
    var i := MethodTables.MethodIs(typ.methods, InstrsOf(p, Top(s))[Top(s).pc].id);
  }

  // ----- results of instructions that stay in their function

  /** What such an instruction computes from the values of its operands, and the heap it leaves. */
  function Computed(sem: Semantics, s: State, instr: Instr, vs: seq<Value>): (Value, Heap)
    requires instr.Inline? || instr.Api? || instr.MakeClosure?
  {
    match instr
    case Inline(_, op, _) => sem.inline(op, vs, s.heap)
    case Api(_, api, _) => sem.api(s.calls, api, vs, s.heap)
    case MakeClosure(_, fn, _) => (Closure(fn, vs), s.heap)
  }

  /** The operands of the instruction, and where its result goes. */
  function OperandsOf(instr: Instr): (seq<Operand>, Option<nat>)
    requires instr.Inline? || instr.Api? || instr.MakeClosure?
  {
    match instr
    case Inline(result, _, args) => (args, result)
    case Api(result, _, args) => (args, result)
    case MakeClosure(closure, _, bindings) => (bindings, Some(closure))
  }

  /** The result is in its register, in the program and in the frame, however often a runtime call had to be
      retried; all other registers are as they were. */
  lemma ResultStored(p: Program, code: map<Label, seq<Stmt>>, sem: Semantics, s: State, m: Machine,
                     instr: Instr, vs: seq<Value>) returns (n: nat, m': Machine)
    requires WellFormed(p) && CodeOf(p, code) && ValidSemantics(p, sem)
    requires ValidState(p, s) && Related(p, s, m) && Step(p, sem, s).Some? && AboutTo(p, s, instr)
    requires instr.Inline? || instr.Api? || instr.MakeClosure?
    requires EvalAll(OperandsOf(instr).0, Top(s).params, Top(s).captured, Top(s).regs) == Some(vs)
    ensures n >= 1 && AdvanceBy(p, code, sem, m, n) == Some(m') && m'.frames != []
    ensures var s', (v, heap), result := Step(p, sem, s).value, Computed(sem, s, instr, vs), OperandsOf(instr).1;
            var frame := m'.frames[|m'.frames| - 1];
            && |m'.frames| == |s'.stack| == |s.stack| && frame.UserFrame?
            && s'.heap == m'.heap == heap && Top(s').pc == Top(s).pc + 1
            && (forall r | r in Top(s).regs && result != Some(r) ::
                  r in Top(s').regs && Top(s').regs[r] == Top(s).regs[r]
                  && r in frame.regs && frame.regs[r] == Top(s).regs[r])
            && (result.Some? ==>
                  && result.value in Top(s').regs && Top(s').regs[result.value] == v
                  && result.value in frame.regs && frame.regs[result.value] == v)
  {
    hide WellFormed, WellShaped, CodeOf, ValidSemantics, ValidState, Step, EvalAll, AdvanceBy, Related;
    NothingToResolve(p, s, instr);
    n, m' := StepSimulated(p, code, sem, s, m);
    ResultComputed(p, sem, s, instr, vs);
    FrameHolds(p, Step(p, sem, s).value, m');
    SameTrace(p, Step(p, sem, s).value, m');
  }

  lemma ResultComputed(p: Program, sem: Semantics, s: State, instr: Instr, vs: seq<Value>)
    requires AboutTo(p, s, instr) && Step(p, sem, s).Some? && (instr.Inline? || instr.Api? || instr.MakeClosure?)
    requires EvalAll(OperandsOf(instr).0, Top(s).params, Top(s).captured, Top(s).regs) == Some(vs)
    ensures var s', (v, heap), result := Step(p, sem, s).value, Computed(sem, s, instr, vs), OperandsOf(instr).1;
            && |s'.stack| == |s.stack| && s'.heap == heap && Top(s').pc == Top(s).pc + 1
            && (forall r | r in Top(s).regs && result != Some(r) ::
                  r in Top(s').regs && Top(s').regs[r] == Top(s).regs[r])
            && (result.Some? ==> result.value in Top(s').regs && Top(s').regs[result.value] == v)
  {
    hide EvalAll;
  }
}
