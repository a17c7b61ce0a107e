/** The main results about deferred calls, over every run of a goroutine. */
module Deferrals {
  import opened Options
  import opened Unwinding
  import Trampoline

  /** How often `frame` registered, or called, the deferred call `entry`. */
  function Count(log: seq<Occurrence>, e: Occurrence): nat {
    if log == [] then 0 else Count(log[..|log| - 1], e) + (if log[|log| - 1] == e then 1 else 0)
  }

  /** What a replayed log means: every deferred call was called as often as it was registered, but for
      those that are still pending. */
  lemma {:induction false} ReplayBalances(log: seq<Occurrence>, n: nat, entry: Deferred)
    requires Replay(log, n).Some?
    ensures Count(log, Registered(n, entry)) == Count(log, Called(n, entry)) + multiset(Replay(log, n).value)[entry]
    decreases log
  {
    if log != [] {
      var before := log[..|log| - 1];
      var last := log[|log| - 1];
      ReplayBalances(before, n, entry);
      var pending := Replay(before, n).value;
      if last.frame == n && last.Called? {
        assert pending == [pending[0]] + pending[1..];
      }
    }
  }

  /** At every moment of every run, with calls, deferred calls, panics and recoveries nested in any way:
      what each frame still has to call is what its registrations and calls so far leave of a stack, and
      a frame that is gone has called all it registered, each registration once, the last one first, with
      the function and arguments it was registered with. */
  lemma ExactlyOnce(func: FunctionObject, args: seq<Value>, actions: seq<Action>, n: nat, entry: Deferred)
    requires IsFunction(func) && Run(Launched(func, args), actions).Some?
    ensures var g := Run(Launched(func, args), actions).value;
            && (forall i | 0 <= i < |g.frames| && g.frames[i].serial == n ::
                  Replay(g.log, n) == Some(g.frames[i].defers))
            && ((forall i | 0 <= i < |g.frames| :: g.frames[i].serial != n) ==>
                  && Replay(g.log, n) == Some([])
                  && Count(g.log, Registered(n, entry)) == Count(g.log, Called(n, entry)))
            && (g.control.Terminated? || g.control.Exited? ==>
                  && Replay(g.log, n) == Some([])
                  && Count(g.log, Registered(n, entry)) == Count(g.log, Called(n, entry)))
  {
    LaunchedInv(func, args);
    RunKeeps(Launched(func, args), actions);
    var g := Run(Launched(func, args), actions).value;
    if Replay(g.log, n) == Some([]) {
      ReplayBalances(g.log, n, entry);
    }
  }

  /** From `g` to `g'`, the log says what was done: if there is a call in it, a frame is pushed with the
      registered function and arguments, and without an occurrence no frame's deferred calls change. */
  ghost predicate LogTells(g: Goroutine, g': Goroutine) {
    && (g'.log == g.log || exists e :: g'.log == g.log + [e])
    && (g'.log != g.log && g'.log[|g.log|].Called? ==>
          var entry := g'.log[|g.log|].entry;
          && |g'.frames| == |g.frames| + 1 && g'.control == Entering(entry.func)
          && Top(g').func == Some(entry.func) && Top(g').args == entry.args && Top(g').defers == []
          && exists i | 0 <= i < |g.frames| :: g.frames[i].serial == g'.log[|g.log|].frame)
    && (g'.log == g.log ==>
          forall i | 0 <= i < |g.frames| && i < |g'.frames| :: g'.frames[i].defers == g.frames[i].defers)
  }

  lemma CallTells(g: Goroutine, resume: Resume)
    requires g.frames != [] && g.frames[Below(g)].defers != []
    ensures LogTells(g, CallDeferred(g, resume))
  {
    var g' := CallDeferred(g, resume);
    var e := Called(g.frames[Below(g)].serial, g.frames[Below(g)].defers[0]);
    assert g'.log == g.log + [e] && g'.log[|g.log|] == e;
    assert g'.log != g.log;
  }

  lemma TickTells(g: Goroutine)
    requires Step(g, Tick).Some?
    ensures LogTells(g, Step(g, Tick).value)
  {
    hide CallDeferred, IsFunction;
    if g.control.Entering? {
      FramesEntered(g, g.control.func);
    } else if g.frames[Below(g)].defers != [] {
      CallTells(g, if g.control.Raising? then PanicBody else ExecuteDefers);
    }
  }

  /** A call in the log is a call made: the frame pushed for it holds the registered function and arguments. */
  lemma CallsAreMade(g: Goroutine, a: Action)
    requires Step(g, a).Some?
    ensures LogTells(g, Step(g, a).value)
  {
    hide IsFunction, StaysInFunction, RaiseRound, ExecuteRound, EnterFunction;
    if a.Tick? {
      TickTells(g);
    } else if a.Defer? {
      var g', e := Step(g, a).value, Registered(Top(g).serial, a.entry);
      assert g'.log == g.log + [e] && g'.log[|g.log|] == e;
      assert g'.log != g.log;
    }
  }

  /** No frame is dropped while it has deferred calls, and the frames below it are not disturbed. */
  lemma NoneIsDropped(g: Goroutine, a: Action)
    requires Inv(g) && Step(g, a).Some?
    ensures var g' := Step(g, a).value;
            && (forall i | |g'.frames| <= i < |g.frames| :: g.frames[i].defers == [])
            && (|g'.frames| < |g.frames| ==> g'.frames == g.frames[..|g'.frames|])
            && |g.frames| - 2 <= |g'.frames|
            && (g'.control.Terminated? || g'.control.Exited? ==> |g'.frames| == 1 && g'.frames[0].defers == [])
  {
    hide Inv, IsFunction, StaysInFunction, RaiseRound;
    StepKeeps(g, a);
    InvControl(g);
    InvControl(Step(g, a).value);
    if a.Tick? && g.control.Raising? {
      RoundDropsNone(g);
    }
  }

  lemma InvControl(g: Goroutine)
    requires Inv(g)
    ensures g.frames != [] && ControlInv(g)
  {
  }

  lemma RoundDropsNone(g: Goroutine)
    requires g.frames != [] && ControlInv(g) && g.control.Raising?
    ensures var g' := RaiseRound(g);
            && (forall i | |g'.frames| <= i < |g.frames| :: g.frames[i].defers == [])
            && (|g'.frames| < |g.frames| ==> g'.frames == g.frames[..|g'.frames|])
            && |g.frames| - 2 <= |g'.frames|
  {
  }

  // ----- which code runs on which frame

  /** A closure object for a function with free variables, and a plain one for a function without. */
  ghost predicate RightKind(closures: set<nat>, func: FunctionObject) {
    IsFunction(func) && (func.Tagged? <==> Trampoline.ExtractUserFunction(func).fn in closures)
  }

  /** The function objects a program passes have the right kind. */
  ghost predicate PassesRightKind(closures: set<nat>, a: Action) {
    match a
    case Call(func, _, _) => RightKind(closures, func)
    case Defer(entry, _) => RightKind(closures, entry.func)
    case _ => true
  }

  ghost predicate Kinds(closures: set<nat>, g: Goroutine) {
    forall i | 0 <= i < |g.frames| ::
      (g.frames[i].func.Some? ==> RightKind(closures, g.frames[i].func.value))
      && forall e | e in g.frames[i].defers :: RightKind(closures, e.func)
  }

  /** Frames that hold no other function objects than those of right kinds stay so when one of them is
      changed to hold fewer, and when one is pushed. */
  lemma KindsOf(closures: set<nat>, g: Goroutine, g': Goroutine)
    requires Kinds(closures, g)
    requires forall i | 0 <= i < |g'.frames| && i < |g.frames| ::
               && g'.frames[i].func == g.frames[i].func
               && forall e | e in g'.frames[i].defers && e !in g.frames[i].defers :: RightKind(closures, e.func)
    requires forall i | |g.frames| <= i < |g'.frames| ::
               g'.frames[i].defers == [] && (g'.frames[i].func.Some? ==> RightKind(closures, g'.frames[i].func.value))
    ensures Kinds(closures, g')
  {
    hide RightKind;
  }

  lemma KindsCall(closures: set<nat>, g: Goroutine, resume: Resume)
    requires Kinds(closures, g) && g.frames != [] && g.frames[Below(g)].defers != []
    ensures Kinds(closures, CallDeferred(g, resume))
  {
    hide RightKind, Kinds;
    var entry := g.frames[Below(g)].defers[0];
    assert RightKind(closures, entry.func) by { EntryKind(closures, g, Below(g), entry); }
    KindsOf(closures, g, CallDeferred(g, resume));
  }

  lemma EntryKind(closures: set<nat>, g: Goroutine, i: nat, e: Deferred)
    requires Kinds(closures, g) && i < |g.frames| && e in g.frames[i].defers
    ensures RightKind(closures, e.func)
  {
  }

  lemma KindsTick(closures: set<nat>, g: Goroutine)
    requires Kinds(closures, g) && Step(g, Tick).Some?
    ensures Kinds(closures, Step(g, Tick).value)
  {
    hide RightKind, Kinds, CallDeferred, IsFunction;
    if g.control.Entering? {
      FramesEntered(g, g.control.func);
      KindsOf(closures, g, Step(g, Tick).value);
    } else if g.frames[Below(g)].defers != [] {
      KindsCall(closures, g, if g.control.Raising? then PanicBody else ExecuteDefers);
    } else {
      KindsOf(closures, g, Step(g, Tick).value);
    }
  }

  lemma KindsStep(closures: set<nat>, g: Goroutine, a: Action)
    requires Kinds(closures, g) && PassesRightKind(closures, a) && Step(g, a).Some?
    ensures Kinds(closures, Step(g, a).value)
  {
    hide RightKind, Kinds, IsFunction, InFunction, StaysInFunction, RaiseRound, ExecuteRound, EnterFunction;
    if a.Tick? {
      KindsTick(closures, g);
    } else {
      KindsOf(closures, g, Step(g, a).value);
    }
  }

  lemma {:induction false} KindsRun(closures: set<nat>, g: Goroutine, actions: seq<Action>)
    requires Inv(g) && Kinds(closures, g) && Run(g, actions).Some?
    requires forall i | 0 <= i < |actions| :: PassesRightKind(closures, actions[i])
    ensures Kinds(closures, Run(g, actions).value)
    decreases actions
  {
    hide Inv, Kinds, Step, PassesRightKind;
    if actions != [] {
      StepKeeps(g, actions[0]);
      KindsStep(closures, g, actions[0]);
      KindsRun(closures, Step(g, actions[0]).value, actions[1..]);
    }
  }

  /** Whatever path led to it, by calls, deferred calls, unwinding or recovery: the code that runs is that
      of the function the frame was pushed for; a closure's runs with the closure's captured block as its
      free variables and a plain function's with none, which is what every C function asserts. Nor does
      control ever go to the function that the call of `panic` does not pass. */
  lemma FreeVariablesAreRight(closures: set<nat>, func: FunctionObject, args: seq<Value>, actions: seq<Action>)
    requires RightKind(closures, func) && Run(Launched(func, args), actions).Some?
    requires forall i | 0 <= i < |actions| :: PassesRightKind(closures, actions[i])
    ensures var g := Run(Launched(func, args), actions).value;
            && !g.control.Crashed?
            && (g.control.UserCode? ==>
                  && g.frames != [] && Top(g).func.Some? && InFunction(g.control.at, Top(g).func.value)
                  && Top(g).freeVars == Captured(Top(g).func.value)
                  && (Top(g).freeVars.Some? <==> g.control.at.fn in closures))
  {
    var start := Launched(func, args);
    LaunchedInv(func, args);
    RunKeeps(start, actions);
    KindsRun(closures, start, actions);
    var g := Run(start, actions).value;
    hide Run;
    assert ControlInv(g) && FreeVarsInv(g) && Kinds(closures, g);
  }

  // ----- one flag per goroutine

  /** The value of the latest panic, if nothing has recovered since. */
  function LatestPanic(actions: seq<Action>): Option<Value>
    decreases |actions|
  {
    if actions == [] then None
    else
      match actions[|actions| - 1]
      case Panic(v) => Some(v)
      case Recover(_) => None
      case _ => LatestPanic(actions[..|actions| - 1])
  }

  /** A goroutine is panicking exactly when nothing recovered since its latest panic, however many
      panics are being unwound, and it has the value of that panic at hand. */
  lemma {:induction false} PanickingExactly(g: Goroutine, actions: seq<Action>)
    requires !g.panicking && Run(g, actions).Some? && !Run(g, actions).value.control.Exited?
    ensures var h := Run(g, actions).value;
            && (h.panicking <==> LatestPanic(actions).Some?)
            && (h.panicking ==> LatestPanic(actions) == Some(h.panicData))
    decreases |actions|
  {
    if actions != [] {
      var init, last := actions[..|actions| - 1], actions[|actions| - 1];
      RunSplits(g, actions);
      hide IsFunction, StaysInFunction;
      PanickingExactly(g, init);
    }
  }

  /** At any moment of any run, a recovery yields the value of the latest panic if nothing has recovered
      since, and otherwise nothing; and goes on where it was told to. */
  lemma RecoveryYieldsLatest(func: FunctionObject, args: seq<Value>, actions: seq<Action>, resume: Label)
    requires Run(Launched(func, args), actions).Some?
    requires Step(Run(Launched(func, args), actions).value, Recover(resume)).Some?
    ensures var g := Run(Launched(func, args), actions).value;
            var g' := Step(g, Recover(resume)).value;
            && g'.recovered == LatestPanic(actions) && !g'.panicking
            && g'.control == UserCode(resume) && g'.frames == g.frames
  {
    PanickingExactly(Launched(func, args), actions);
  }

  lemma {:induction false} RunSplits(g: Goroutine, actions: seq<Action>)
    requires actions != [] && Run(g, actions).Some?
    ensures var init := actions[..|actions| - 1];
            Run(g, init).Some? && Run(g, actions) == Step(Run(g, init).value, actions[|actions| - 1])
    decreases |actions|
  {
    hide Step;
    var init := actions[..|actions| - 1];
    if |actions| > 1 {
      assert init[1..] == actions[1..][..|actions| - 2];
      RunSplits(Step(g, actions[0]).value, actions[1..]);
    } else {
      assert actions[1..] == [] && init == [];
    }
  }
}
