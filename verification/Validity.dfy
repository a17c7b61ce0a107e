/** Function objects keep their shape: whatever a program computes, a plain function object names a
    function without free variables and a closure object carries exactly the free variables of its
    function. This is what the test at the head of every emitted function relies on. */
module Validity {
  import opened Options
  import opened MethodTables
  import opened Ssa

  ghost predicate ValidValue(p: Program, v: Value) {
    match v
    case Int(_) => true
    case Func(fn) => fn < |p| && p[fn].freeVars == 0
    case Closure(fn, captured) =>
      && fn < |p| && |captured| == p[fn].freeVars && captured != []
      && forall i | 0 <= i < |captured| :: ValidValue(p, captured[i])
    case Tuple(elems) => forall i | 0 <= i < |elems| :: ValidValue(p, elems[i])
    case Interface(typ, receiver) => ValidMethods(p, typ.methods) && ValidValue(p, receiver)
  }

  /** Methods are functions without free variables. */
  ghost predicate ValidMethods(p: Program, methods: seq<Method>) {
    forall i | 0 <= i < |methods| && methods[i].fn.Some? ::
      methods[i].fn.value < |p| && p[methods[i].fn.value].freeVars == 0
  }

  ghost predicate ValidValues(p: Program, vs: seq<Value>) {
    forall i | 0 <= i < |vs| :: ValidValue(p, vs[i])
  }

  ghost predicate ValidRegisters(p: Program, regs: Registers) {
    forall r | r in regs :: ValidValue(p, regs[r])
  }

  ghost predicate ValidHeap(p: Program, heap: Heap) {
    forall a | a in heap :: ValidValue(p, heap[a])
  }

  /** The abstract instructions never invent a function object the program cannot make. */
  ghost predicate ValidSemantics(p: Program, sem: Semantics) {
    && (forall op, args, heap | ValidValues(p, args) && ValidHeap(p, heap) ::
          ValidValue(p, sem.inline(op, args, heap).0) && ValidHeap(p, sem.inline(op, args, heap).1))
    && (forall k, api, args, heap | ValidValues(p, args) && ValidHeap(p, heap) ::
          ValidValue(p, sem.api(k, api, args, heap).0) && ValidHeap(p, sem.api(k, api, args, heap).1))
  }

  ghost predicate ValidActivation(p: Program, a: Activation) {
    && a.fn < |p| && a.block < |p[a.fn].blocks|
    && ValidValues(p, a.params) && ValidValues(p, a.captured) && ValidRegisters(p, a.regs)
    && |a.captured| == p[a.fn].freeVars
  }

  ghost predicate ValidState(p: Program, s: State) {
    && (forall i | 0 <= i < |s.stack| :: ValidActivation(p, s.stack[i]))
    && ValidHeap(p, s.heap)
  }

  lemma EvalValid(p: Program, a: Activation, o: Operand)
    requires ValidActivation(p, a) && WellFormedOperand(p, o)
    requires Eval(o, a.params, a.captured, a.regs).Some?
    ensures ValidValue(p, Eval(o, a.params, a.captured, a.regs).value)
  {
  }

  lemma {:induction false} EvalAllValid(p: Program, a: Activation, os: seq<Operand>)
    requires ValidActivation(p, a) && WellFormedOperands(p, os)
    requires EvalAll(os, a.params, a.captured, a.regs).Some?
    ensures ValidValues(p, EvalAll(os, a.params, a.captured, a.regs).value)
  {
    var vs := EvalAll(os, a.params, a.captured, a.regs).value;
    forall i | 0 <= i < |vs| ensures ValidValue(p, vs[i]) {
      assert WellFormedOperand(p, os[i]);
      assert Eval(os[i], a.params, a.captured, a.regs) == Some(vs[i]);
    }
  }

  lemma AssignValid(p: Program, regs: Registers, dst: Option<nat>, v: Value)
    requires ValidRegisters(p, regs) && (dst.Some? ==> ValidValue(p, v))
    ensures ValidRegisters(p, Assign(regs, dst, v))
  {
  }

  lemma {:induction false} PhisValid(p: Program, a: Activation, instrs: seq<Instr>, n: nat, edge: nat)
    requires ValidActivation(p, a)
    requires n <= |instrs| && forall i | 0 <= i < n :: instrs[i].Phi? && edge < |instrs[i].edges|
    requires forall i | 0 <= i < n :: WellFormedInstr(p, instrs[i])
    requires ParallelPhis(instrs, n, edge, a.params, a.captured, a.regs).Some?
    ensures ValidRegisters(p, ParallelPhis(instrs, n, edge, a.params, a.captured, a.regs).value)
  {
    if n > 0 {
      PhisValid(p, a, instrs, n - 1, edge);
      assert WellFormedInstr(p, instrs[n - 1]) && WellFormedOperand(p, instrs[n - 1].edges[edge]);
      EvalValid(p, a, instrs[n - 1].edges[edge]);
    }
  }

  lemma TopValid(p: Program, s: State, a: Activation)
    requires ValidState(p, s) && s.stack != [] && ValidActivation(p, a)
    ensures ValidState(p, ReplaceTop(s, a))
  {
  }

  lemma InvokeValid(p: Program, s: State, callee: Value, args: seq<Value>, result: Option<nat>)
    requires WellShaped(p) && ValidState(p, s) && s.stack != [] && ValidValue(p, callee) && ValidValues(p, args)
    requires Invoke(p, s, Callee(callee), args, result).Some?
    ensures ValidState(p, Invoke(p, s, Callee(callee), args, result).value)
  {
    var fn := Callee(callee).value.0;
    assert p[fn].blocks != [];
    assert ValidActivation(p, Top(s));
  }

  /** The method of a valid interface value is called on valid arguments. */
  lemma InvokeMethodValid(p: Program, s: State, typ: TypeInfo, receiver: Value, id: MethodId, args: seq<Value>,
                          result: Option<nat>)
    requires WellShaped(p) && ValidState(p, s) && s.stack != []
    requires ValidValue(p, Interface(typ, receiver)) && ValidValues(p, args) && MethodOf(typ.methods, id).Some?
    requires Invoke(p, s, Some((MethodOf(typ.methods, id).value, [])), [receiver] + args, result).Some?
    ensures ValidState(p, Invoke(p, s, Some((MethodOf(typ.methods, id).value, [])), [receiver] + args, result).value)
  {
    var i := MethodIs(typ.methods, id);
    InvokeValid(p, s, Func(MethodOf(typ.methods, id).value), [receiver] + args, result);
  }

  lemma PackedValid(p: Program, vs: seq<Value>)
    requires ValidValues(p, vs)
    ensures ValidValue(p, Packed(vs))
  {
  }

  lemma LeaveValid(p: Program, s: State, vs: seq<Value>)
    requires ValidState(p, s) && s.stack != [] && ValidValues(p, vs) && Leave(p, s, vs).Some?
    ensures ValidState(p, Leave(p, s, vs).value)
  {
    PackedValid(p, vs);
    if |s.stack| > 1 {
      var caller := s.stack[|s.stack| - 2];
      assert ValidActivation(p, caller);
      AssignValid(p, caller.regs, Top(s).result, Packed(vs));
    }
  }

  lemma GotoValid(p: Program, s: State, choice: nat)
    requires WellFormed(p) && ValidState(p, s) && s.stack != [] && ValidActivation(p, Top(s))
    requires Goto(p, s, Top(s), choice).Some?
    ensures ValidState(p, Goto(p, s, Top(s), choice).value)
  {
    var a := Top(s);
    var to := p[a.fn].blocks[a.block].succs[choice];
    var instrs := p[a.fn].blocks[to].instrs;
    PhisValid(p, a, instrs, PhiCount(instrs), IndexOf(p[a.fn].blocks[to].preds, a.block));
    TopValid(p, s, EnterBlock(p, a, to).value);
  }

  /** The running activation goes on after its instruction, with a valid result. */
  lemma GoesOnValid(p: Program, s: State, result: Option<nat>, v: Value)
    requires ValidState(p, s) && s.stack != [] && (result.Some? ==> ValidValue(p, v))
    ensures var a := Top(s); ValidState(p, ReplaceTop(s, a.(pc := a.pc + 1, regs := Assign(a.regs, result, v))))
  {
    hide ValidRegisters, ValidValue;
    var a := Top(s);
    assert ValidActivation(p, a);
    AssignValid(p, a.regs, result, v);
    TopValid(p, s, a.(pc := a.pc + 1, regs := Assign(a.regs, result, v)));
  }

  /** An instruction that hands over to no other function and stays in its block. */
  lemma PlainValid(p: Program, sem: Semantics, s: State, a: Activation, instr: Instr)
    requires ValidSemantics(p, sem) && ValidState(p, s) && WellFormedInstr(p, instr)
    requires s.stack != [] && a == Top(s) && ValidActivation(p, a)
    requires instr.Inline? || instr.Api? || instr.MakeClosure?
    requires Execute(p, sem, s, a, instr).Some?
    ensures ValidState(p, Execute(p, sem, s, a, instr).value)
  {
    match instr
    case Inline(result, op, args) =>
      EvalAllValid(p, a, args);
      GoesOnValid(p, s, result, sem.inline(op, EvalAll(args, a.params, a.captured, a.regs).value, s.heap).0);
    case Api(result, api, args) =>
      EvalAllValid(p, a, args);
      GoesOnValid(p, s, result, sem.api(s.calls, api, EvalAll(args, a.params, a.captured, a.regs).value, s.heap).0);
    case MakeClosure(closure, fn, bindings) =>
      EvalAllValid(p, a, bindings);
      GoesOnValid(p, s, Some(closure), Closure(fn, EvalAll(bindings, a.params, a.captured, a.regs).value));
  }

  lemma CallValid(p: Program, sem: Semantics, s: State, a: Activation, instr: Instr)
    requires WellShaped(p) && ValidState(p, s) && WellFormedInstr(p, instr)
    requires s.stack != [] && a == Top(s) && ValidActivation(p, a) && (instr.Call? || instr.CallMethod?)
    requires Execute(p, sem, s, a, instr).Some?
    ensures ValidState(p, Execute(p, sem, s, a, instr).value)
  {
    hide WellShaped, ValidState, ValidActivation, ValidValues, Invoke, WellFormedOperand, WellFormedOperands;
    EvalAllValid(p, a, instr.args);
    var vs := EvalAll(instr.args, a.params, a.captured, a.regs).value;
    match instr
    case Call(result, callee, _) =>
      EvalValid(p, a, callee);
      InvokeValid(p, s, Eval(callee, a.params, a.captured, a.regs).value, vs, result);
    case CallMethod(result, iface, id, _) =>
      EvalValid(p, a, iface);
      var v := Eval(iface, a.params, a.captured, a.regs).value;
      InvokeMethodValid(p, s, v.typ, v.receiver, id, vs, result);
  }

  /** A step never makes a function object of the wrong kind. */
  lemma StepValid(p: Program, sem: Semantics, s: State)
    requires WellFormed(p) && ValidSemantics(p, sem) && ValidState(p, s) && Step(p, sem, s).Some?
    ensures ValidState(p, Step(p, sem, s).value)
  {
    var a := Top(s);
    assert ValidActivation(p, a);
    var instr := p[a.fn].blocks[a.block].instrs[a.pc];
    assert WellFormedInstr(p, instr);
    hide WellFormed, ValidState, ValidActivation, ValidSemantics, WellFormedInstr;
    match instr
    case Jump => GotoValid(p, s, 0);
    case If(cond) =>
      if Eval(cond, a.params, a.captured, a.regs) == Some(Int(0)) { GotoValid(p, s, 1); } else { GotoValid(p, s, 0); }
    case Return(results) =>
      EvalAllValid(p, a, results);
      LeaveValid(p, s, EvalAll(results, a.params, a.captured, a.regs).value);
    case Call(_, _, _) => CallValid(p, sem, s, a, instr);
    case CallMethod(_, _, _, _) => CallValid(p, sem, s, a, instr);
    case _ => if !instr.Phi? { PlainValid(p, sem, s, a, instr); }
  }
}
