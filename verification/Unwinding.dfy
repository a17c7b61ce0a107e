/** Deferred calls, panics and recovery on one goroutine, as values. The stack is a sequence of frames,
    oldest first; the frame below is what a frame's previous stack pointer names, and the first frame
    names itself. */
module Unwinding {
  import opened Options
  import Ssa
  import Emission
  import Trampoline

  type Value = Ssa.Value
  type Label = Emission.Label
  type FunctionObject = Trampoline.FunctionObject

  /** Where a frame resumes its caller. The call of `panic` passes no function to resume. */
  datatype Resume = Continuation(target: Label) | Nowhere | PanicBody | ExecuteDefers | Terminating

  datatype Deferred = Deferred(func: FunctionObject, args: seq<Value>)

  /** A frame of a user function, or of a runtime function (`func` is then absent). The serial number is
      not part of the runtime; it tells frames apart in the log. The head of `defers` is on top. */
  datatype CallFrame = CallFrame(
    serial: nat, func: Option<FunctionObject>, args: seq<Value>, resume: Resume,
    freeVars: Option<seq<Value>>, defers: seq<Deferred>)

  /** What the goroutine runs next: the function just called, user code of the frame on top at a label,
      one of the two runtime loops on the frame on top, nothing any more, or a jump to nowhere. */
  datatype Control =
    | Entering(func: FunctionObject)
    | UserCode(at: Label)
    | Raising
    | Executing
    | Terminated
    | Exited(status: Value)
    | Crashed

  datatype Occurrence = Registered(frame: nat, entry: Deferred) | Called(frame: nat, entry: Deferred)

  datatype Goroutine = Goroutine(
    frames: seq<CallFrame>, control: Control, panicking: bool, panicData: Value,
    recovered: Option<Value>, issued: nat, log: seq<Occurrence>)

  /** What user code may do (`Continue` for all that touches no frame), and `Tick` for everything the
      runtime does on its own. */
  datatype Action =
    | Call(func: FunctionObject, args: seq<Value>, resume: Label)
    | Return
    | Defer(entry: Deferred, resume: Label)
    | RunDefers(resume: Label)
    | Panic(value: Value)
    | Recover(resume: Label)
    | Continue(next: Label)
    | Tick

  /** What can be called: a function by its entry, or a closure. */
  predicate IsFunction(func: FunctionObject) {
    func.Tagged? || func.label'.Entry?
  }

  /** The C functions of one Go function. */
  predicate InFunction(l: Label, func: FunctionObject) {
    IsFunction(func) && (l.Entry? || l.BlockStart? || l.After?) && l.fn == Trampoline.ExtractUserFunction(func).fn
  }

  function Top(g: Goroutine): CallFrame
    requires g.frames != []
  {
    g.frames[|g.frames| - 1]
  }

  function SetTop(g: Goroutine, f: CallFrame): Goroutine
    requires g.frames != []
  {
    g.(frames := g.frames[..|g.frames| - 1] + [f])
  }

  /** Pushing a frame leaves no free variables and no deferred calls in it. */
  function Push(g: Goroutine, func: Option<FunctionObject>, args: seq<Value>, resume: Resume): Goroutine {
    g.(frames := g.frames + [CallFrame(g.issued, func, args, resume, None, [])], issued := g.issued + 1)
  }

  /** Popping the first frame leaves the stack pointer where it is. */
  function Popped(g: Goroutine): seq<CallFrame>
    requires g.frames != []
  {
    if |g.frames| > 1 then g.frames[..|g.frames| - 1] else g.frames
  }

  function Resuming(r: Resume): Control {
    match r
    case Continuation(l) => UserCode(l)
    case Nowhere => Crashed
    case PanicBody => Raising
    case ExecuteDefers => Executing
    case Terminating => Terminated
  }

  function PopAndResume(g: Goroutine): Goroutine
    requires g.frames != []
  {
    g.(frames := Popped(g), control := Resuming(Top(g).resume))
  }

  /** The frame below the one on top: the first frame is below itself. */
  function Below(g: Goroutine): nat
    requires g.frames != []
  {
    if |g.frames| > 1 then |g.frames| - 2 else 0
  }

  /** Takes the deferred call on top of the frame below and calls it, to come back to `resume`. */
  function CallDeferred(g: Goroutine, resume: Resume): Goroutine
    requires g.frames != [] && g.frames[Below(g)].defers != []
  {
    var owner := g.frames[Below(g)];
    var entry := owner.defers[0];
    var g' := Push(g.(frames := g.frames[Below(g) := owner.(defers := owner.defers[1..])]),
                   Some(entry.func), entry.args, resume);
    g'.(control := Entering(entry.func), log := g.log + [Called(owner.serial, entry)])
  }

  /** One round of the loop that unwinds. The frame on top is the loop's own, be it the frame of the call
      of `panic` or the dead frame of a user function. */
  function RaiseRound(g: Goroutine): Goroutine
    requires g.frames != []
  {
    if g.frames[Below(g)].defers != [] then CallDeferred(g, PanicBody)
    else
      var g' := g.(frames := Popped(g));
      if g.panicking then
        if |g'.frames| == 1 then g'.(panicking := false, control := Exited(g.panicData)) else g'.(control := Raising)
      else PopAndResume(g')
  }

  /** One round of the loop that runs the deferred calls of a function about to return. */
  function ExecuteRound(g: Goroutine): Goroutine
    requires g.frames != []
  {
    if g.frames[Below(g)].defers != [] then CallDeferred(g, ExecuteDefers) else PopAndResume(g)
  }

  /** The trampoline enters a function: a closure's captured block goes into the frame. */
  function EnterFunction(g: Goroutine, func: FunctionObject): Goroutine
    requires g.frames != []
  {
    var g' := if func.Tagged? then SetTop(g, Top(g).(freeVars := Some(func.captured))) else g;
    g'.(control := UserCode(Trampoline.ExtractUserFunction(func)))
  }

  /** The label is one of the function that runs. */
  predicate IsHere(g: Goroutine, l: Label)
    requires g.frames != []
  {
    Top(g).func.Some? && InFunction(l, Top(g).func.value)
  }

  /** The labels that user code jumps to and passes for itself to be resumed at. */
  predicate StaysInFunction(g: Goroutine, a: Action)
    requires g.frames != []
  {
    match a
    case Call(func, _, resume) => IsFunction(func) && IsHere(g, resume)
    case Defer(entry, resume) => IsFunction(entry.func) && IsHere(g, resume)
    case RunDefers(resume) => IsHere(g, resume)
    case Recover(resume) => IsHere(g, resume)
    case Continue(next) => IsHere(g, next)
    case _ => true
  }

  /** Emitted code only names labels of its own function. A function with deferred calls runs them
      before it returns, so `Return` finds none. */
  function Step(g: Goroutine, a: Action): Option<Goroutine> {
    if g.frames == [] then None
    else if a.Tick? then
      match g.control
      case Entering(func) => Some(EnterFunction(g, func))
      case Raising => Some(RaiseRound(g))
      case Executing => Some(ExecuteRound(g))
      case _ => None
    else if !g.control.UserCode? || !StaysInFunction(g, a) then None
    else
      match a
      case Call(func, args, resume) => Some(Push(g, Some(func), args, Continuation(resume)).(control := Entering(func)))
      case Return => if Top(g).defers == [] then Some(PopAndResume(g)) else None
      case Defer(entry, resume) =>
        Some(SetTop(g, Top(g).(defers := [entry] + Top(g).defers))
             .(control := UserCode(resume), log := g.log + [Registered(Top(g).serial, entry)]))
      case RunDefers(resume) => Some(Push(g, None, [], Continuation(resume)).(control := Executing))
      case Panic(v) =>
        Some(Push(g, None, [v], Nowhere).(control := Raising, panicking := true, panicData := v))
      case Recover(resume) =>
        Some(g.(control := UserCode(resume), panicking := false,
                recovered := if g.panicking then Some(g.panicData) else None))
      case Continue(next) => Some(g.(control := UserCode(next)))
  }

  function Run(g: Goroutine, actions: seq<Action>): Option<Goroutine>
    decreases actions
  {
    if actions == [] then Some(g)
    else
      match Step(g, actions[0])
      case None => None
      case Some(next) => Run(next, actions[1..])
  }

  /** A goroutine about to run `func`, with no result slot under its frame. */
  function Launched(func: FunctionObject, args: seq<Value>): Goroutine {
    Goroutine([CallFrame(0, Some(func), args, Terminating, None, [])], Entering(func), false, Ssa.Int(0), None, 1, [])
  }

  // ----- what holds of every goroutine, at every moment

  /** What a frame knows about the frames below it. */
  ghost predicate LinkInv(frames: seq<CallFrame>, i: nat)
    requires i < |frames|
  {
    && (frames[i].func.Some? ==> IsFunction(frames[i].func.value))
    && (frames[i].func.None? ==>
          frames[i].defers == [] && (frames[i].resume.Nowhere? || frames[i].resume.Continuation?))
    && (forall e | e in frames[i].defers :: IsFunction(e.func))
    && match frames[i].resume
       case Terminating => i == 0
       case Nowhere => i > 0 && frames[i].func.None?
       case Continuation(l) => i > 0 && frames[i - 1].func.Some? && InFunction(l, frames[i - 1].func.value)
       case PanicBody =>
         i > 1 && frames[i - 1].defers == [] && !frames[i - 1].resume.PanicBody? && frames[i - 2].func.Some?
       case ExecuteDefers =>
         i > 1 && frames[i - 1].defers == [] && frames[i - 1].func.None? && frames[i - 1].resume.Continuation?
  }

  /** In particular, code runs on a frame of its own function, and the loop that unwinds only passes a
      runtime function's frame, or one that another such loop called, while the goroutine is panicking. */
  ghost predicate ControlInv(g: Goroutine)
    requires g.frames != []
  {
    match g.control
    case UserCode(at) => IsHere(g, at)
    case Entering(func) =>
      IsFunction(func) && Top(g).func == Some(func) && Top(g).freeVars == None && Top(g).defers == []
    case Raising =>
      && |g.frames| > 1 && Top(g).defers == []
      && (g.frames[Below(g)].func.None? || Top(g).resume.PanicBody? ==> g.panicking)
    case Executing => |g.frames| > 1 && Top(g).defers == [] && Top(g).func.None? && Top(g).resume.Continuation?
    case Crashed => false
    case _ => |g.frames| == 1 && Top(g).defers == []
  }

  /** The free-variable pointer a function expects: its captured block if it is a closure, else NULL. */
  function Captured(func: FunctionObject): Option<seq<Value>> {
    if func.Tagged? then Some(func.captured) else None
  }

  /** Every user frame that has been entered holds the free variables its function expects. */
  ghost predicate FreeVarsInv(g: Goroutine) {
    forall i | 0 <= i < |g.frames| && g.frames[i].func.Some? ::
      g.frames[i].freeVars == Captured(g.frames[i].func.value) || (i == |g.frames| - 1 && g.control.Entering?)
  }

  /** The deferred calls of a frame that a log leaves pending; none if the log calls one out of turn. */
  function Replay(log: seq<Occurrence>, frame: nat): Option<seq<Deferred>> {
    if log == [] then Some([])
    else
      var last := log[|log| - 1];
      match Replay(log[..|log| - 1], frame)
      case None => None
      case Some(pending) =>
        if last.frame != frame then Some(pending)
        else if last.Registered? then Some([last.entry] + pending)
        else if pending != [] && pending[0] == last.entry then Some(pending[1..])
        else None
  }

  ghost predicate LogInv(g: Goroutine) {
    && (forall i | 0 <= i < |g.frames| :: g.frames[i].serial < g.issued)
    && (forall i, j | 0 <= i < j < |g.frames| :: g.frames[i].serial != g.frames[j].serial)
    && (forall i | 0 <= i < |g.frames| :: Replay(g.log, g.frames[i].serial) == Some(g.frames[i].defers))
    && (forall n: nat | (forall i | 0 <= i < |g.frames| :: g.frames[i].serial != n) :: Replay(g.log, n) == Some([]))
  }

  ghost predicate FramesInv(g: Goroutine) {
    g.frames != [] && (forall i | 0 <= i < |g.frames| :: LinkInv(g.frames, i)) && FreeVarsInv(g) && LogInv(g)
  }

  ghost predicate Inv(g: Goroutine) {
    FramesInv(g) && ControlInv(g)
  }

  lemma ReplayAppend(log: seq<Occurrence>, e: Occurrence, n: nat)
    ensures Replay(log + [e], n) ==
            match Replay(log, n)
            case None => None
            case Some(pending) =>
              if e.frame != n then Some(pending)
              else if e.Registered? then Some([e.entry] + pending)
              else if pending != [] && pending[0] == e.entry then Some(pending[1..])
              else None
  {
    assert (log + [e])[..|log|] == log;
  }

  /** Dropping a frame without deferred calls, other than the first, keeps what holds of the rest. */
  lemma DropTopKeeps(g: Goroutine, g': Goroutine)
    requires FramesInv(g) && |g.frames| > 1 && Top(g).defers == [] && !g.control.Entering?
    requires g'.frames == g.frames[..|g.frames| - 1] && g'.log == g.log && g'.issued == g.issued
    ensures (forall i | 0 <= i < |g'.frames| :: LinkInv(g'.frames, i)) && FreeVarsInv(g') && LogInv(g')
  {
    var n := |g.frames| - 1;
    forall m: nat | forall i | 0 <= i < n :: g'.frames[i].serial != m ensures Replay(g'.log, m) == Some([]) {
      assert m == g.frames[n].serial || forall i | 0 <= i < |g.frames| :: g.frames[i].serial != m;
    }
    forall i | 0 <= i < |g'.frames| ensures LinkInv(g'.frames, i) { assert LinkInv(g.frames, i); }
  }

  lemma PopKeeps(g: Goroutine)
    requires FramesInv(g) && Top(g).defers == [] && !g.control.Entering? && !Top(g).resume.Nowhere?
    ensures Inv(PopAndResume(g))
  {
    var g' := PopAndResume(g);
    assert LinkInv(g.frames, |g.frames| - 1);
    if |g.frames| > 1 {
      DropTopKeeps(g, g');
    } else {
      hide LogInv;
      assert LogInv(g') by { LogUnchanged(g, g'); }
    }
  }

  lemma LogUnchanged(g: Goroutine, g': Goroutine)
    requires LogInv(g) && g'.frames == g.frames && g'.log == g.log && g'.issued == g.issued
    ensures LogInv(g')
  {
  }

  lemma PushKeeps(g: Goroutine, g': Goroutine, f: CallFrame)
    requires FramesInv(g) && !g.control.Entering? && g'.frames == g.frames + [f]
             && g'.log == g.log && g'.issued == g.issued + 1
    requires f.serial == g.issued && f.defers == [] && f.freeVars == None
    requires LinkInv(g'.frames, |g.frames|) && ControlInv(g') && (f.func.Some? ==> g'.control.Entering?)
    ensures Inv(g')
  {
    forall i | 0 <= i < |g'.frames| ensures LinkInv(g'.frames, i) {
      if i < |g.frames| { assert LinkInv(g.frames, i); }
    }
    forall m: nat | forall i | 0 <= i < |g'.frames| :: g'.frames[i].serial != m ensures Replay(g'.log, m) == Some([]) {
      forall i | 0 <= i < |g.frames| ensures g.frames[i].serial != m { assert g'.frames[i] == g.frames[i]; }
    }
    assert forall i | 0 <= i < |g.frames| :: g'.frames[i] == g.frames[i];
    assert Replay(g'.log, f.serial) == Some([]);
  }

  /** A frame's deferred calls after an occurrence. */
  function Deferring(f: CallFrame, e: Occurrence): CallFrame
    requires e.Called? ==> f.defers != []
  {
    f.(defers := if e.Registered? then [e.entry] + f.defers else f.defers[1..])
  }

  /** The occurrence is one that can happen to frame `i`. */
  ghost predicate CanHappen(g: Goroutine, i: nat, e: Occurrence) {
    && i < |g.frames| && e.frame == g.frames[i].serial
    && (e.Called? ==> g.frames[i].defers != [] && g.frames[i].defers[0] == e.entry)
    && (e.Registered? ==> IsFunction(e.entry.func) && g.frames[i].func.Some? && i == |g.frames| - 1)
  }

  lemma DeferralLinks(frames: seq<CallFrame>, frames': seq<CallFrame>, i: nat, e: Occurrence)
    requires i < |frames| && (forall j | 0 <= j < |frames| :: LinkInv(frames, j))
    requires e.Called? ==> frames[i].defers != []
    requires e.Registered? ==> IsFunction(e.entry.func) && frames[i].func.Some? && i == |frames| - 1
    requires frames' == frames[i := Deferring(frames[i], e)]
    ensures forall j | 0 <= j < |frames'| :: LinkInv(frames', j)
  {
    forall j | 0 <= j < |frames'| ensures LinkInv(frames', j) { assert LinkInv(frames, j); }
  }

  lemma DeferralLogs(g: Goroutine, g': Goroutine, i: nat, e: Occurrence)
    requires LogInv(g) && CanHappen(g, i, e)
    requires g'.frames == g.frames[i := Deferring(g.frames[i], e)] && g'.log == g.log + [e] && g'.issued == g.issued
    ensures LogInv(g')
  {
    assert Replay(g.log, g.frames[i].serial) == Some(g.frames[i].defers);
    forall n: nat ensures Replay(g'.log, n) == if n == e.frame then Some(g'.frames[i].defers) else Replay(g.log, n) {
      ReplayAppend(g.log, e, n);
    }
    hide Replay, IsFunction;
    assert forall j | 0 <= j < |g.frames| :: g'.frames[j].serial == g.frames[j].serial;
    forall n: nat | forall j | 0 <= j < |g'.frames| :: g'.frames[j].serial != n ensures Replay(g'.log, n) == Some([]) {
      forall j | 0 <= j < |g.frames| ensures g.frames[j].serial != n {
        assert g'.frames[j].serial == g.frames[j].serial;
      }
    }
  }

  /** Changing the deferred calls of one frame, as the log says. */
  lemma DeferralKeeps(g: Goroutine, g': Goroutine, i: nat, e: Occurrence)
    requires FramesInv(g) && CanHappen(g, i, e) && (g'.control.Entering? || !g.control.Entering?)
    requires g'.frames == g.frames[i := Deferring(g.frames[i], e)] && g'.log == g.log + [e] && g'.issued == g.issued
    ensures FramesInv(g')
  {
    DeferralLinks(g.frames, g'.frames, i, e);
    DeferralLogs(g, g', i, e);
    hide LinkInv, LogInv;
  }

  lemma CallDeferredKeeps(g: Goroutine, resume: Resume)
    requires Inv(g) && !g.control.Entering? && |g.frames| > 1 && Top(g).defers == []
    requires g.frames[Below(g)].defers != []
    requires (resume.PanicBody? && g.control.Raising?)
             || (resume.ExecuteDefers? && Top(g).func.None? && Top(g).resume.Continuation?)
    ensures Inv(CallDeferred(g, resume))
  {
    var b := Below(g);
    var owner := g.frames[b];
    var entry := owner.defers[0];
    var e := Called(owner.serial, entry);
    var mid := g.(frames := g.frames[b := Deferring(owner, e)], log := g.log + [e], control := Raising);
    assert owner.func.Some? && IsFunction(entry.func) by {
      assert LinkInv(g.frames, b);
      assert entry in owner.defers;
    }
    DeferralKeeps(g, mid, b, e);
    var g' := CallDeferred(g, resume);
    assert g'.frames == mid.frames + [Top(g')];
    assert LinkInv(g.frames, |g.frames| - 1);
    assert LinkInv(g'.frames, |mid.frames|) && ControlInv(g');
    hide LinkInv, ControlInv, IsFunction;
    PushKeeps(mid, g', Top(g'));
  }

  lemma RaiseRoundKeeps(g: Goroutine)
    requires Inv(g) && g.control.Raising?
    ensures Inv(RaiseRound(g))
  {
    if g.frames[Below(g)].defers != [] {
      CallDeferredKeeps(g, PanicBody);
    } else {
      var popped := g.(frames := Popped(g));
      DropTopKeeps(g, popped);
      if g.panicking {
        var g' := RaiseRound(g);
        LogUnchanged(popped, g');
      } else {
        assert LinkInv(popped.frames, |popped.frames| - 1);
        PopKeeps(popped);
      }
    }
  }

  lemma StepKeeps(g: Goroutine, a: Action)
    requires Inv(g) && Step(g, a).Some?
    ensures Inv(Step(g, a).value)
  {
    hide LogInv, FreeVarsInv;
    var g' := Step(g, a).value;
    match a
    case Call(func, args, resume) => PushKeeps(g, g', Top(g'));
    case Return =>
      assert LinkInv(g.frames, |g.frames| - 1);
      PopKeeps(g);
    case Defer(entry, resume) => RegisterKeeps(g, entry, resume);
    case RunDefers(resume) => PushKeeps(g, g', Top(g'));
    case Panic(v) => PushKeeps(g, g', Top(g'));
    case Recover(resume) => ControlKeeps(g, g');
    case Continue(next) => ControlKeeps(g, g');
    case Tick =>
      match g.control
      case Entering(func) => EnterKeeps(g, func);
      case Raising => RaiseRoundKeeps(g);
      case Executing =>
        if g.frames[Below(g)].defers != [] { CallDeferredKeeps(g, ExecuteDefers); } else { PopKeeps(g); }
  }

  lemma ControlKeeps(g: Goroutine, g': Goroutine)
    requires Inv(g) && g'.frames == g.frames && g'.log == g.log && g'.issued == g.issued
    requires !g.control.Entering? && ControlInv(g')
    ensures Inv(g')
  {
  }

  lemma RegisterKeeps(g: Goroutine, entry: Deferred, resume: Label)
    requires Inv(g) && Step(g, Defer(entry, resume)).Some?
    ensures Inv(Step(g, Defer(entry, resume)).value)
  {
    var top := |g.frames| - 1;
    var g' := Step(g, Defer(entry, resume)).value;
    assert g'.frames == g.frames[top := g.frames[top].(defers := [entry] + g.frames[top].defers)];
    DeferralKeeps(g, g', top, Registered(g.frames[top].serial, entry));
  }

  lemma EnterKeeps(g: Goroutine, func: FunctionObject)
    requires Inv(g) && g.control == Entering(func)
    ensures Inv(EnterFunction(g, func))
  {
    hide LogInv, LinkInv, IsFunction;
    var g' := EnterFunction(g, func);
    FramesEntered(g, func);
    LogSame(g, g');
    LinksSame(g.frames, g'.frames);
    EntryIsHere(func);
  }

  /** Entering a function changes no more of a frame than its free variables. */
  lemma FramesEntered(g: Goroutine, func: FunctionObject)
    requires g.frames != []
    ensures var frames' := EnterFunction(g, func).frames;
            && |frames'| == |g.frames|
            && forall i | 0 <= i < |g.frames| :: frames'[i] == g.frames[i].(freeVars := frames'[i].freeVars)
  {
  }

  lemma LogSame(g: Goroutine, g': Goroutine)
    requires LogInv(g) && |g'.frames| == |g.frames| && g'.log == g.log && g'.issued == g.issued
    requires forall i | 0 <= i < |g.frames| :: g'.frames[i] == g.frames[i].(freeVars := g'.frames[i].freeVars)
    ensures LogInv(g')
  {
    hide Replay;
    assert forall i | 0 <= i < |g.frames| ::
        g'.frames[i].serial == g.frames[i].serial && g'.frames[i].defers == g.frames[i].defers;
    forall n: nat | forall j | 0 <= j < |g'.frames| :: g'.frames[j].serial != n ensures Replay(g'.log, n) == Some([]) {
      forall j | 0 <= j < |g.frames| ensures g.frames[j].serial != n {
        assert g'.frames[j].serial == g.frames[j].serial;
      }
    }
  }

  lemma LinksSame(frames: seq<CallFrame>, frames': seq<CallFrame>)
    requires |frames'| == |frames| && forall i | 0 <= i < |frames| :: LinkInv(frames, i)
    requires forall i | 0 <= i < |frames| :: frames'[i] == frames[i].(freeVars := frames'[i].freeVars)
    ensures forall i | 0 <= i < |frames'| :: LinkInv(frames', i)
  {
    hide IsFunction, InFunction;
    forall i | 0 <= i < |frames'| ensures LinkInv(frames', i) { assert LinkInv(frames, i); }
  }

  lemma EntryIsHere(func: FunctionObject)
    requires IsFunction(func)
    ensures InFunction(Trampoline.ExtractUserFunction(func), func)
  {
  }

  lemma {:induction false} RunKeeps(g: Goroutine, actions: seq<Action>)
    requires Inv(g) && Run(g, actions).Some?
    ensures Inv(Run(g, actions).value)
    decreases actions
  {
    hide Inv, Step;
    if actions != [] {
      StepKeeps(g, actions[0]);
      RunKeeps(Step(g, actions[0]).value, actions[1..]);
    }
  }

  lemma LaunchedInv(func: FunctionObject, args: seq<Value>)
    requires IsFunction(func)
    ensures Inv(Launched(func, args))
  {
  }
}
