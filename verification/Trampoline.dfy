/** The machine that runs emitted C functions: the trampoline of the runtime, one goroutine's stack
    frames, and the statements the emitted functions consist of. */
module Trampoline {
  import opened Options
  import opened MethodTables
  import opened Ssa
  import opened Emission

  /** What a C function hands back to the trampoline. A closure carries its captured block; the runtime
      tells the two apart by the top bit of the address. */
  datatype FunctionObject = Code(label': Label) | Tagged(fn: nat, captured: seq<Value>)

  /** `Scratch` is the result space below the first frame of a goroutine. */
  datatype ResultPtr = Nowhere | Scratch | Slot(frame: nat, reg: nat)

  datatype Frame =
    | UserFrame(resume: Label, freeVars: Option<seq<Value>>, resultPtr: ResultPtr, params: seq<Value>, regs: Registers)
    | RuntimeFrame(resume: Label, resultPtr: ResultPtr, args: seq<Value>)

  /** `entered` tells whether the current function has been invoked yet; `offset` is the next statement
      inside it; `tries` counts the attempts of the runtime call that is in progress. */
  datatype Machine = Machine(
    current: FunctionObject, prev: Label, entered: bool, offset: nat,
    frames: seq<Frame>, heap: Heap, calls: nat, tries: nat, trace: seq<Event>)

  function ExtractUserFunction(f: FunctionObject): Label {
    match f
    case Code(l) => l
    case Tagged(fn, _) => Entry(fn)
  }

  /** A C function returns `next` to the trampoline, which remembers where it came from. */
  function Yield(m: Machine, next: FunctionObject): Machine {
    m.(prev := ExtractUserFunction(m.current), current := next, entered := false, offset := 0)
  }

  /** The trampoline installs the captured block of a closure in the frame on top. */
  function PrepareUserFunction(m: Machine): seq<Frame>
    requires m.frames != []
  {
    var top := m.frames[|m.frames| - 1];
    if m.current.Tagged? && top.UserFrame? then
      m.frames[..|m.frames| - 1] + [top.(freeVars := Some(m.current.captured))]
    else m.frames
  }

  /** The test at the head of every block and continuation function. */
  predicate PrologueHolds(p: Program, l: Label, frame: Frame) {
    (l.BlockStart? || l.After?) ==>
      frame.UserFrame? && l.fn < |p| && (frame.freeVars.Some? <==> p[l.fn].freeVars != 0)
  }

  function Enter(p: Program, m: Machine): Option<Machine> {
    var l := ExtractUserFunction(m.current);
    if m.frames == [] || l.Terminate? then None
    else
      var frames := PrepareUserFunction(m);
      if !PrologueHolds(p, l, frames[|frames| - 1]) then None
      else
        Some(m.(frames := frames, entered := true, offset := 0,
                trace := if l.BlockStart? then m.trace + [Entered(l.fn, l.block)] else m.trace))
  }

  /** Reads an operand; memory that was never written yields an arbitrary value. */
  function Read(o: Operand, f: Frame): Value
    requires f.UserFrame?
  {
    match o
    case Const(n) => Int(n)
    case FuncRef(fn) => Func(fn)
    case Reg(r) => if r in f.regs then f.regs[r] else Int(0)
    case Param(i) => if i < |f.params| then f.params[i] else Int(0)
    case FreeVar(i) => if f.freeVars.Some? && i < |f.freeVars.value| then f.freeVars.value[i] else Int(0)
  }

  function ReadAll(os: seq<Operand>, f: Frame): (vs: seq<Value>)
    requires f.UserFrame?
    ensures |vs| == |os|
  {
    if os == [] then [] else [Read(os[0], f)] + ReadAll(os[1..], f)
  }

  /** The operand the if-chain of a phi takes; none when it runs into `assert(false)`. */
  function FirstMatch(cases: seq<(Label, Operand)>, prev: Label): Option<Operand> {
    if cases == [] then None
    else if cases[0].0 == prev then Some(cases[0].1)
    else FirstMatch(cases[1..], prev)
  }

  function Store(frames: seq<Frame>, ptr: ResultPtr, v: Value): Option<seq<Frame>> {
    match ptr
    case Nowhere => None
    case Scratch => Some(frames)
    case Slot(i, r) =>
      if i < |frames| && frames[i].UserFrame?
      then Some(frames[i := frames[i].(regs := frames[i].regs[r := v])])
      else None
  }

  function PointerTo(m: Machine, result: Option<nat>): ResultPtr
    requires m.frames != []
  {
    match result
    case None => Nowhere
    case Some(r) => Slot(|m.frames| - 1, r)
  }

  function SetTop(m: Machine, f: Frame): Machine
    requires m.frames != []
  {
    m.(frames := m.frames[..|m.frames| - 1] + [f], offset := m.offset + 1)
  }

  function ExecuteStmt(p: Program, sem: Semantics, m: Machine, top: Frame, fn: nat, stmt: Stmt): Option<Machine>
    requires m.frames != [] && top == m.frames[|m.frames| - 1] && top.UserFrame? && fn < |p|
  {
    match stmt
    case Select(dst, cases) =>
      (match FirstMatch(cases, m.prev)
       case None => None
       case Some(o) => Some(SetTop(m, top.(regs := top.regs[dst := Read(o, top)]))))
    case Compute(result, op, args) =>
      var (v, heap) := sem.inline(op, ReadAll(args, top), m.heap);
      Some(SetTop(m, top.(regs := Assign(top.regs, result, v))).(heap := heap))
    case CallApi(result, api, args, resume) =>
      var frame := RuntimeFrame(resume, PointerTo(m, result), ReadAll(args, top));
      Some(Yield(m, Code(RuntimeApi(api))).(frames := m.frames + [frame], tries := 0))
    case CallClosureNew(closure, callee, bindings, resume) =>
      var frame := RuntimeFrame(resume, Slot(|m.frames| - 1, closure), ReadAll(bindings, top));
      Some(Yield(m, Code(ClosureNew(callee))).(frames := m.frames + [frame]))
    case CallFunction(result, callee, args, resume) =>
      var params := ReadAll(args, top);
      var frame := UserFrame(resume, None, PointerTo(m, result), params, sem.stale(|m.trace|));
      (match Read(callee, top)
       case Func(f) =>
         Some(Yield(m, Code(Entry(f))).(frames := m.frames + [frame], trace := m.trace + [Called(f, params)]))
       case Closure(f, captured) =>
         Some(Yield(m, Tagged(f, captured)).(frames := m.frames + [frame], trace := m.trace + [Called(f, params)]))
       case _ => None)
    case CallInvoke(result, iface, name, args, resume) =>
      (match Read(iface, top)
       case Interface(typ, receiver) =>
         var words := [Interface(typ, receiver), Int(name), receiver] + ReadAll(args, top);
         var frame := RuntimeFrame(resume, PointerTo(m, result), words);
         Some(Yield(m, Code(InterfaceInvoke)).(frames := m.frames + [frame]))
       case _ => None)
    case ReturnLabel(target) => Some(Yield(m, Code(target)))
    case ReturnEither(cond, yes, no) => Some(Yield(m, Code(if Read(cond, top) != Int(0) then yes else no)))
    case ReturnToCaller(results) =>
      var vs := ReadAll(results, top);
      var below := m.frames[..|m.frames| - 1];
      var stored := if results == [] then Some(below) else Store(below, top.resultPtr, Packed(vs));
      (match stored
       case None => None
       case Some(frames) =>
         Some(Yield(m, Code(top.resume)).(frames := frames, trace := m.trace + [Returned(fn, vs)])))
  }

  /** A runtime function finishes: it stores its result, drops its frame and returns to its caller. */
  function FinishRuntimeCall(m: Machine, v: Value): Option<Machine>
    requires m.frames != []
  {
    var top := m.frames[|m.frames| - 1];
    var below := m.frames[..|m.frames| - 1];
    var stored := if top.resultPtr == Nowhere then Some(below) else Store(below, top.resultPtr, v);
    match stored
    case None => None
    case Some(frames) => Some(Yield(m, Code(top.resume)).(frames := frames))
  }

  /** One attempt of a runtime call. An attempt that cannot complete suspends the goroutine and names
      itself as the function to run when the goroutine is next dispatched. */
  function AttemptApi(sem: Semantics, m: Machine, api: nat): Option<Machine>
    requires m.frames != []
  {
    var top := m.frames[|m.frames| - 1];
    if !top.RuntimeFrame? then None
    else if m.tries < sem.delay(m.calls) then Some(Yield(m, m.current).(tries := m.tries + 1))
    else
      var (v, heap) := sem.api(m.calls, api, top.args, m.heap);
      match FinishRuntimeCall(m, v)
      case None => None
      case Some(done) => Some(done.(heap := heap, calls := m.calls + 1, trace := m.trace + [ApiDone(api, top.args, v)]))
  }

  /** The call through an interface: searches the method by its name in the table of the type, and puts
      the frame of the method in the place of its own. */
  function InvokeMethod(sem: Semantics, m: Machine): Option<Machine>
    requires m.frames != []
  {
    var top := m.frames[|m.frames| - 1];
    if !top.RuntimeFrame? || |top.args| < 3 || !top.args[0].Interface? || !top.args[1].Int? then None
    else
      match Search(Table(top.args[0].typ), top.args[1].n)
      case None => None
      case Some(fn) =>
        var params := top.args[2..];
        var frame := UserFrame(top.resume, None, top.resultPtr, params, sem.stale(|m.trace|));
        Some(Yield(m, Code(Entry(fn)))
             .(frames := m.frames[..|m.frames| - 1] + [frame], trace := m.trace + [Called(fn, params)]))
  }

  function Advance(p: Program, code: map<Label, seq<Stmt>>, sem: Semantics, m: Machine): Option<Machine> {
    if !m.entered then Enter(p, m)
    else if m.frames == [] then None
    else
      var top := m.frames[|m.frames| - 1];
      var l := ExtractUserFunction(m.current);
      match l
      case RuntimeApi(api) => AttemptApi(sem, m, api)
      case ClosureNew(fn) =>
        if top.RuntimeFrame? then FinishRuntimeCall(m, Closure(fn, top.args)) else None
      case InterfaceInvoke => InvokeMethod(sem, m)
      case Terminate => None
      case _ =>
        if l in code && m.offset < |code[l]| && top.UserFrame? && l.fn < |p| then
          ExecuteStmt(p, sem, m, top, l.fn, code[l][m.offset])
        else None
  }

  function AdvanceBy(p: Program, code: map<Label, seq<Stmt>>, sem: Semantics, m: Machine, n: nat): Option<Machine>
    decreases n
  {
    if n == 0 then Some(m)
    else
      match Advance(p, code, sem, m)
      case None => None
      case Some(next) => AdvanceBy(p, code, sem, next, n - 1)
  }

  /** A new goroutine: one frame, whose free-variable pointer is still NULL, and the function to run.
      The previous label is `Terminate`, as the runtime sets it. */
  function Spawned(p: Program, f: FunctionObject, args: seq<Value>, heap: Heap, stale: Registers): Machine {
    var fn := if f.Tagged? then f.fn else if f.label'.Entry? then f.label'.fn else 0;
    var ptr := if fn < |p| && p[fn].hasResult then Scratch else Nowhere;
    Machine(f, Terminate, false, 0, [UserFrame(Terminate, None, ptr, args, stale)], heap, 0, 0, [])
  }

  lemma {:induction false} AdvanceByCompose(p: Program, code: map<Label, seq<Stmt>>, sem: Semantics,
                                           m: Machine, i: nat, j: nat)
    ensures AdvanceBy(p, code, sem, m, i).None? ==> AdvanceBy(p, code, sem, m, i + j).None?
    ensures AdvanceBy(p, code, sem, m, i).Some? ==>
              AdvanceBy(p, code, sem, m, i + j) == AdvanceBy(p, code, sem, AdvanceBy(p, code, sem, m, i).value, j)
    decreases i
  {
    hide Advance;
    if i > 0 && Advance(p, code, sem, m).Some? {
      AdvanceByCompose(p, code, sem, Advance(p, code, sem, m).value, i - 1, j);
    }
  }
}
