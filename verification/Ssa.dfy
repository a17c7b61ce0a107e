/** The static-single-assignment programs that cgen takes as input, and what they mean.

    A run of an SSA program is a sequence of small steps over a stack of activations. Phi
    instructions of a block are evaluated together, from the values the registers had when control
    left the predecessor. A register that was never assigned has no value, and a step that would
    need it does not exist. */
module Ssa {
  import opened Options
  import opened Sequences
  import opened MethodTables

  /** An interface that is not nil holds a value and what is known of its type. */
  datatype Value =
    | Int(n: int)
    | Func(fn: nat)
    | Closure(fn: nat, captured: seq<Value>)
    | Tuple(elems: seq<Value>)
    | Interface(typ: TypeInfo, receiver: Value)

  datatype Operand = Const(n: int) | FuncRef(fn: nat) | Reg(r: nat) | Param(i: nat) | FreeVar(i: nat)

  /** `Inline` stands for every instruction cgen turns into plain C statements; `Api` for every one
      it turns into a call of a runtime function (allocation, channels, go, defer, maps, ...).
      `CallMethod` is a call through an interface. */
  datatype Instr =
    | Phi(dst: nat, edges: seq<Operand>)
    | Inline(result: Option<nat>, op: nat, args: seq<Operand>)
    | Api(result: Option<nat>, api: nat, args: seq<Operand>)
    | MakeClosure(closure: nat, fn: nat, bindings: seq<Operand>)
    | Call(result: Option<nat>, callee: Operand, args: seq<Operand>)
    | CallMethod(result: Option<nat>, iface: Operand, id: MethodId, args: seq<Operand>)
    | Jump
    | If(cond: Operand)
    | Return(results: seq<Operand>)

  datatype Block = Block(instrs: seq<Instr>, preds: seq<nat>, succs: seq<nat>)

  datatype Function = Function(blocks: seq<Block>, params: nat, hasResult: bool, freeVars: nat)

  type Program = seq<Function>

  type Registers = map<nat, Value>

  type Heap = map<int, Value>

  /** What the abstract instructions do. `api` also gets the number of runtime calls completed so far,
      so it covers any behaviour of the other goroutines while this one is suspended. `delay` is the
      number of times a runtime call is retried before it completes, and `stale` is what the memory
      of a new frame holds before anything is stored in it. */
  datatype Semantics = Semantics(
    inline: (nat, seq<Value>, Heap) -> (Value, Heap),
    api: (nat, nat, seq<Value>, Heap) -> (Value, Heap),
    delay: nat -> nat,
    stale: nat -> Registers)

  /** Observable steps of a run. */
  datatype Event =
    | Called(fn: nat, args: seq<Value>)
    | Entered(fn: nat, block: nat)
    | ApiDone(api: nat, args: seq<Value>, value: Value)
    | Returned(fn: nat, results: seq<Value>)

  datatype Activation = Activation(
    fn: nat, block: nat, pc: nat,
    params: seq<Value>, captured: seq<Value>, regs: Registers, result: Option<nat>)

  /** The last activation of the stack is the running one; an empty stack is a finished run. */
  datatype State = State(stack: seq<Activation>, heap: Heap, calls: nat, trace: seq<Event>)

  function Eval(o: Operand, params: seq<Value>, captured: seq<Value>, regs: Registers): Option<Value> {
    match o
    case Const(n) => Some(Int(n))
    case FuncRef(fn) => Some(Func(fn))
    case Reg(r) => if r in regs then Some(regs[r]) else None
    case Param(i) => if i < |params| then Some(params[i]) else None
    case FreeVar(i) => if i < |captured| then Some(captured[i]) else None
  }

  function EvalAll(os: seq<Operand>, params: seq<Value>, captured: seq<Value>, regs: Registers):
    (vs: Option<seq<Value>>)
    ensures vs.Some? ==> |vs.value| == |os|
    ensures vs.Some? ==> forall i | 0 <= i < |os| :: Eval(os[i], params, captured, regs) == Some(vs.value[i])
  {
    if os == [] then Some([])
    else
      match (Eval(os[0], params, captured, regs), EvalAll(os[1..], params, captured, regs))
      case (Some(v), Some(vs)) => Some([v] + vs)
      case _ => None
  }

  function Assign(regs: Registers, dst: Option<nat>, v: Value): Registers {
    if dst.Some? then regs[dst.value := v] else regs
  }

  function PhiCount(instrs: seq<Instr>): (n: nat)
    ensures n <= |instrs|
    ensures forall i | 0 <= i < n :: instrs[i].Phi?
    ensures n < |instrs| ==> !instrs[n].Phi?
  {
    if instrs == [] || !instrs[0].Phi? then 0 else 1 + PhiCount(instrs[1..])
  }

  /** The meaning of the first `n` phis of a block entered over its `edge`-th predecessor: every
      operand is read from the registers as they were on entry. */
  function ParallelPhis(instrs: seq<Instr>, n: nat, edge: nat,
                        params: seq<Value>, captured: seq<Value>, regs: Registers): Option<Registers>
    requires n <= |instrs| && forall i | 0 <= i < n :: instrs[i].Phi? && edge < |instrs[i].edges|
  {
    if n == 0 then Some(regs)
    else
      match (ParallelPhis(instrs, n - 1, edge, params, captured, regs),
             Eval(instrs[n - 1].edges[edge], params, captured, regs))
      case (Some(after), Some(v)) => Some(after[instrs[n - 1].dst := v])
      case _ => None
  }

  function IndexOf(s: seq<nat>, x: nat): (i: nat)
    requires x in s
    ensures i < |s| && s[i] == x
  {
    if s[0] == x then 0 else 1 + IndexOf(s[1..], x)
  }

  predicate IsTerminator(instr: Instr) {
    instr.Jump? || instr.If? || instr.Return?
  }

  /** True for the instructions after which cgen starts a new C function. */
  predicate RequireSwitchFunction(instr: Instr) {
    instr.Api? || instr.MakeClosure? || instr.Call? || instr.CallMethod?
  }

  predicate WellFormedOperand(p: Program, o: Operand) {
    o.FuncRef? ==> o.fn < |p| && p[o.fn].freeVars == 0
  }

  predicate WellFormedOperands(p: Program, os: seq<Operand>) {
    forall i | 0 <= i < |os| :: WellFormedOperand(p, os[i])
  }

  predicate WellFormedInstr(p: Program, instr: Instr) {
    match instr
    case Phi(_, edges) => WellFormedOperands(p, edges)
    case Inline(_, _, args) => WellFormedOperands(p, args)
    case Api(_, _, args) => WellFormedOperands(p, args)
    case MakeClosure(_, fn, bindings) =>
      WellFormedOperands(p, bindings) && fn < |p| && |bindings| == p[fn].freeVars > 0
    case Call(_, callee, args) => WellFormedOperand(p, callee) && WellFormedOperands(p, args)
    case CallMethod(_, iface, _, args) => WellFormedOperand(p, iface) && WellFormedOperands(p, args)
    case Jump => true
    case If(cond) => WellFormedOperand(p, cond)
    case Return(results) => WellFormedOperands(p, results)
  }

  /** No phi reads, on the given edge, a register that an earlier phi of the block has changed. */
  predicate NoStalePhiRead(instrs: seq<Instr>, n: nat, edge: nat)
    requires n <= |instrs| && forall i | 0 <= i < n :: instrs[i].Phi? && edge < |instrs[i].edges|
  {
    forall i, j | 0 <= i < j < n ::
      instrs[j].edges[edge] == Reg(instrs[i].dst) ==> instrs[i].edges[edge] == Reg(instrs[i].dst)
  }

  ghost predicate WellShapedInstr(block: Block, i: nat)
    requires i < |block.instrs|
  {
    && (IsTerminator(block.instrs[i]) <==> i == |block.instrs| - 1)
    && match block.instrs[i]
       case Phi(_, edges) => i < PhiCount(block.instrs) && |edges| == |block.preds|
       case Jump => |block.succs| == 1
       case If(_) => |block.succs| == 2
       case _ => true
  }

  /** The shape every block built by the SSA front end has; cgen needs no more than this. */
  ghost predicate WellShapedBlock(f: Function, b: nat)
    requires b < |f.blocks|
  {
    var block := f.blocks[b];
    && block.instrs != []
    && (forall i {:trigger block.instrs[i]} | 0 <= i < |block.instrs| :: WellShapedInstr(block, i))
    && (forall i | 0 <= i < |block.preds| :: block.preds[i] < |f.blocks|)
    && (forall i | 0 <= i < |block.succs| :: block.succs[i] < |f.blocks| && b in f.blocks[block.succs[i]].preds)
  }

  ghost predicate WellShapedFunction(f: Function) {
    && f.blocks != []
    && (forall b {:trigger f.blocks[b]} | 0 <= b < |f.blocks| :: WellShapedBlock(f, b))
  }

  ghost predicate WellShaped(p: Program) {
    forall f {:trigger p[f]} | 0 <= f < |p| :: WellShapedFunction(p[f])
  }

  /** No predecessor is listed twice, and no two phis of the block assign the same register. */
  ghost predicate DistinctPhis(block: Block) {
    var n := PhiCount(block.instrs);
    && (forall i | 0 <= i < n :: |block.instrs[i].edges| == |block.preds|)
    && Distinct(block.preds)
    && (forall i, j | 0 <= i < j < n :: block.instrs[i].dst != block.instrs[j].dst)
  }

  /** What the phis of a block must satisfy for their translation to keep their meaning. */
  ghost predicate SafePhis(block: Block) {
    && DistinctPhis(block)
    && forall edge | 0 <= edge < |block.preds| :: NoStalePhiRead(block.instrs, PhiCount(block.instrs), edge)
  }

  /** What the front end guarantees: no phis in entry blocks, and phis of a block are distinct. */
  ghost predicate Regular(p: Program) {
    && WellShaped(p)
    && (forall f | 0 <= f < |p| :: PhiCount(p[f].blocks[0].instrs) == 0)
    && (forall f, b {:trigger p[f].blocks[b]} | 0 <= f < |p| && 0 <= b < |p[f].blocks| ::
          DistinctPhis(p[f].blocks[b]))
  }

  /** The programs the translation is proved correct for. */
  ghost predicate WellFormed(p: Program) {
    && Regular(p)
    && (forall f, b {:trigger p[f].blocks[b]} | 0 <= f < |p| && 0 <= b < |p[f].blocks| ::
          && SafePhis(p[f].blocks[b])
          && forall i | 0 <= i < |p[f].blocks[b].instrs| :: WellFormedInstr(p, p[f].blocks[b].instrs[i]))
  }

  /** Leaves block `a.block` for block `to`, evaluating the phis of `to`. */
  function EnterBlock(p: Program, a: Activation, to: nat): Option<Activation> {
    if a.fn >= |p| || to >= |p[a.fn].blocks| then None
    else
      var block := p[a.fn].blocks[to];
      var n := PhiCount(block.instrs);
      if a.block !in block.preds then None
      else
        var edge := IndexOf(block.preds, a.block);
        if forall i | 0 <= i < n :: edge < |block.instrs[i].edges| then
          match ParallelPhis(block.instrs, n, edge, a.params, a.captured, a.regs)
          case Some(regs) => Some(a.(block := to, pc := n, regs := regs))
          case None => None
        else None
  }

  function Callee(v: Value): Option<(nat, seq<Value>)> {
    match v
    case Func(fn) => Some((fn, []))
    case Closure(fn, captured) => Some((fn, captured))
    case _ => None
  }

  function Top(s: State): Activation
    requires s.stack != []
  {
    s.stack[|s.stack| - 1]
  }

  function ReplaceTop(s: State, a: Activation): State
    requires s.stack != []
  {
    s.(stack := s.stack[..|s.stack| - 1] + [a])
  }

  function Invoke(p: Program, s: State, callee: Option<(nat, seq<Value>)>, args: seq<Value>, result: Option<nat>):
    Option<State>
    requires s.stack != []
  {
    match callee
    case None => None
    case Some((fn, captured)) =>
      if fn < |p| && |args| == p[fn].params && (p[fn].hasResult <==> result.Some?) then
        var caller := Top(s).(pc := Top(s).pc + 1);
        Some(s.(stack := s.stack[..|s.stack| - 1] + [caller, Activation(fn, 0, 0, args, captured, map[], result)],
                trace := s.trace + [Called(fn, args), Entered(fn, 0)]))
      else None
  }

  /** The value a function leaves for its caller: nothing, one value, or a tuple. */
  function Packed(results: seq<Value>): Value {
    if |results| == 1 then results[0] else Tuple(results)
  }

  function Leave(p: Program, s: State, results: seq<Value>): Option<State>
    requires s.stack != []
  {
    var a := Top(s);
    var trace := s.trace + [Returned(a.fn, results)];
    if a.fn >= |p| || (p[a.fn].hasResult <==> results == []) then None
    else if |s.stack| == 1 then Some(s.(stack := [], trace := trace))
    else
      var caller := s.stack[|s.stack| - 2];
      var regs := Assign(caller.regs, a.result, Packed(results));
      Some(s.(stack := s.stack[..|s.stack| - 2] + [caller.(regs := regs)], trace := trace))
  }

  function Goto(p: Program, s: State, a: Activation, choice: nat): Option<State>
    requires s.stack != [] && a.fn < |p| && a.block < |p[a.fn].blocks|
  {
    var succs := p[a.fn].blocks[a.block].succs;
    if choice >= |succs| then None
    else
      match EnterBlock(p, a, succs[choice])
      case None => None
      case Some(b) => Some(ReplaceTop(s, b).(trace := s.trace + [Entered(a.fn, succs[choice])]))
  }

  function Execute(p: Program, sem: Semantics, s: State, a: Activation, instr: Instr): Option<State>
    requires s.stack != [] && a == Top(s) && a.fn < |p| && a.block < |p[a.fn].blocks|
  {
    match instr
    case Phi(_, _) => None
    case Inline(result, op, args) =>
      (match EvalAll(args, a.params, a.captured, a.regs)
       case None => None
       case Some(vs) =>
         var (v, heap) := sem.inline(op, vs, s.heap);
         Some(ReplaceTop(s, a.(pc := a.pc + 1, regs := Assign(a.regs, result, v))).(heap := heap)))
    case Api(result, api, args) =>
      (match EvalAll(args, a.params, a.captured, a.regs)
       case None => None
       case Some(vs) =>
         var (v, heap) := sem.api(s.calls, api, vs, s.heap);
         Some(ReplaceTop(s, a.(pc := a.pc + 1, regs := Assign(a.regs, result, v)))
              .(heap := heap, calls := s.calls + 1, trace := s.trace + [ApiDone(api, vs, v)])))
    case MakeClosure(closure, fn, bindings) =>
      (match EvalAll(bindings, a.params, a.captured, a.regs)
       case None => None
       case Some(vs) => Some(ReplaceTop(s, a.(pc := a.pc + 1, regs := a.regs[closure := Closure(fn, vs)]))))
    case Call(result, callee, args) =>
      (match (Eval(callee, a.params, a.captured, a.regs), EvalAll(args, a.params, a.captured, a.regs))
       case (Some(f), Some(vs)) => Invoke(p, s, Callee(f), vs, result)
       case _ => None)
    case CallMethod(result, iface, id, args) =>
      (match (Eval(iface, a.params, a.captured, a.regs), EvalAll(args, a.params, a.captured, a.regs))
       case (Some(Interface(typ, receiver)), Some(vs)) =>
         (match MethodOf(typ.methods, id)
          case None => None
          case Some(fn) => Invoke(p, s, Some((fn, [])), [receiver] + vs, result))
       case _ => None)
    case Jump => Goto(p, s, a, 0)
    case If(cond) =>
      (match Eval(cond, a.params, a.captured, a.regs)
       case Some(Int(n)) => Goto(p, s, a, if n != 0 then 0 else 1)
       case _ => None)
    case Return(results) =>
      (match EvalAll(results, a.params, a.captured, a.regs)
       case None => None
       case Some(vs) => Leave(p, s, vs))
  }

  function Step(p: Program, sem: Semantics, s: State): Option<State> {
    if s.stack == [] then None
    else
      var a := Top(s);
      if a.fn < |p| && a.block < |p[a.fn].blocks| && a.pc < |p[a.fn].blocks[a.block].instrs| then
        Execute(p, sem, s, a, p[a.fn].blocks[a.block].instrs[a.pc])
      else None
  }

  function Run(p: Program, sem: Semantics, s: State, n: nat): Option<State>
    decreases n
  {
    if n == 0 then Some(s)
    else
      match Step(p, sem, s)
      case None => None
      case Some(next) => Run(p, sem, next, n - 1)
  }

  /** A goroutine about to run `fn` on `args`; the result of the outermost function is dropped. */
  function Initial(fn: nat, captured: seq<Value>, args: seq<Value>, heap: Heap): State {
    State([Activation(fn, 0, 0, args, captured, map[], None)], heap, 0, [Entered(fn, 0)])
  }
}
