/** Panics raised while another is being unwound. The runtime has one flag for them all; Go's rules have
    one for each: a recovery ends the innermost panic only, and a panic that unwinds past the deferred
    call it was raised in replaces the one that made that call. Here both are compared. */
module NestedPanics {
  import opened Options
  import opened Unwinding
  import opened LoopTurns
  import Ssa
  import Emission
  import Trampoline

  /** The loops that wait for a deferred call to return. */
  function Suspended(frames: seq<CallFrame>): nat {
    if frames == [] then 0
    else Suspended(frames[..|frames| - 1]) + (if frames[|frames| - 1].resume.PanicBody? then 1 else 0)
  }

  /** The unwindings in progress: those, and the one whose loop runs. */
  function Loops(g: Goroutine): nat {
    Suspended(g.frames) + (if g.control.Raising? then 1 else 0)
  }

  /** For each unwinding in progress, the innermost last, whether its panic has yet to be recovered. */
  type Flags = seq<bool>

  /** Go's rules for one step, on the control flow of the runtime. */
  function GoStep(g: Goroutine, a: Action, flags: Flags): Flags
    requires g.frames != []
  {
    var n := |flags|;
    if a.Panic? then flags + [true]
    else if n == 0 then flags
    else if a.Recover? then flags[n - 1 := false]
    else if a.Tick? && g.control.Raising? && g.frames[Below(g)].defers == [] then
      if !g.panicking then flags[..n - 1]
      else if n > 1 && Top(g).resume.PanicBody? then flags[..n - 2] + [flags[n - 1]]
      else flags
    else flags
  }

  function GoRun(g: Goroutine, actions: seq<Action>, flags: Flags): Flags
    decreases actions
  {
    if actions == [] || g.frames == [] || Step(g, actions[0]).None? then flags
    else GoRun(Step(g, actions[0]).value, actions[1..], GoStep(g, actions[0], flags))
  }

  /** There is a flag for each unwinding, and a panicking goroutine's innermost panic is not recovered. */
  ghost predicate Tracks(g: Goroutine, flags: Flags) {
    && (!g.control.Exited? ==> |flags| == Loops(g))
    && (g.panicking ==> flags != [] && flags[|flags| - 1])
  }

  /** An unwinding is being ended although its own panic was never recovered. */
  predicate IsLost(g: Goroutine, flags: Flags) {
    g.control.Raising? && !g.panicking && flags != [] && flags[|flags| - 1]
  }

  lemma SuspendedPush(frames: seq<CallFrame>, f: CallFrame)
    ensures Suspended(frames + [f]) == Suspended(frames) + (if f.resume.PanicBody? then 1 else 0)
  {
    assert (frames + [f])[..|frames|] == frames;
  }

  lemma {:induction false} SuspendedSame(xs: seq<CallFrame>, ys: seq<CallFrame>)
    requires |xs| == |ys| && forall i | 0 <= i < |xs| :: xs[i].resume == ys[i].resume
    ensures Suspended(xs) == Suspended(ys)
    decreases |xs|
  {
    if xs != [] {
      SuspendedSame(xs[..|xs| - 1], ys[..|ys| - 1]);
    }
  }

  lemma SuspendedPop(g: Goroutine)
    requires Inv(g)
    ensures Loops(PopAndResume(g)) == Suspended(g.frames)
  {
    assert LinkInv(g.frames, |g.frames| - 1);
  }

  /** A deferred call is pushed by the running loop, or by a loop that does not unwind. */
  lemma SuspendedCall(g: Goroutine, resume: Resume)
    requires |g.frames| > 1 && g.frames[Below(g)].defers != []
    ensures Suspended(CallDeferred(g, resume).frames) == Suspended(g.frames) + (if resume.PanicBody? then 1 else 0)
  {
    var g' := CallDeferred(g, resume);
    SuspendedPush(g'.frames[..|g.frames|], Top(g'));
    assert g'.frames == g'.frames[..|g.frames|] + [Top(g')];
    SuspendedSame(g'.frames[..|g.frames|], g.frames);
  }

  lemma RoundTracks(g: Goroutine, flags: Flags)
    requires Inv(g) && Tracks(g, flags) && g.control.Raising?
    ensures Tracks(RaiseRound(g), GoStep(g, Tick, flags))
  {
    var g' := RaiseRound(g);
    assert ControlInv(g);
    if g.frames[Below(g)].defers != [] {
      SuspendedCall(g, PanicBody);
    } else {
      var popped := g.(frames := Popped(g));
      assert Suspended(g.frames) == Suspended(popped.frames) + (if Top(g).resume.PanicBody? then 1 else 0);
      if !g.panicking {
        assert LinkInv(g.frames, Below(g)) && popped.frames[|popped.frames| - 1] == g.frames[Below(g)];
      }
    }
  }

  lemma PushTracks(g: Goroutine, g': Goroutine)
    requires g.control.UserCode? && |g'.frames| == |g.frames| + 1 && g'.frames[..|g.frames|] == g.frames
    requires !Top(g').resume.PanicBody?
    ensures Loops(g') == Loops(g) + (if g'.control.Raising? then 1 else 0)
  {
    SuspendedPush(g.frames, Top(g'));
    assert g'.frames == g.frames + [Top(g')];
  }

  lemma SameTracks(g: Goroutine, g': Goroutine)
    requires !g.control.Raising? && !g'.control.Raising? && |g'.frames| == |g.frames|
    requires forall i | 0 <= i < |g.frames| :: g'.frames[i].resume == g.frames[i].resume
    ensures Loops(g') == Loops(g)
  {
    SuspendedSame(g.frames, g'.frames);
  }

  lemma StepTracks(g: Goroutine, a: Action, flags: Flags)
    requires Inv(g) && Tracks(g, flags) && Step(g, a).Some?
    ensures Tracks(Step(g, a).value, GoStep(g, a, flags))
  {
    hide Inv, Loops, Suspended, IsFunction, InFunction, RaiseRound;
    var g' := Step(g, a).value;
    match a
    case Return => SuspendedPop(g); NotRaising(g);
    case Call(_, _, _) => PushTracks(g, g');
    case RunDefers(_) => PushTracks(g, g');
    case Panic(_) => PushTracks(g, g');
    case Tick =>
      if g.control.Raising? {
        RoundTracks(g, flags);
      } else {
        NotRaising(g);
        TickTracks(g);
      }
    case _ => SameTracks(g, g');
  }

  lemma NotRaising(g: Goroutine)
    requires !g.control.Raising?
    ensures Loops(g) == Suspended(g.frames)
  {
  }

  lemma TickTracks(g: Goroutine)
    requires Inv(g) && !g.control.Raising? && Step(g, Tick).Some?
    ensures Loops(Step(g, Tick).value) == Loops(g)
  {
    assert ControlInv(g);
    hide Inv, Suspended, IsFunction, InFunction, RaiseRound;
    if g.control.Entering? {
      SameTracks(g, Step(g, Tick).value);
    } else if g.frames[Below(g)].defers != [] {
      SuspendedCall(g, ExecuteDefers);
    } else {
      SuspendedPop(g);
    }
  }

  lemma {:induction false} RunTracks(g: Goroutine, actions: seq<Action>, flags: Flags)
    requires Inv(g) && Tracks(g, flags) && Run(g, actions).Some?
    ensures Inv(Run(g, actions).value) && Tracks(Run(g, actions).value, GoRun(g, actions, flags))
    decreases actions
  {
    assert g.frames != [];
    hide Inv, Tracks, Step, GoStep;
    if actions != [] {
      StepKeeps(g, actions[0]);
      StepTracks(g, actions[0], flags);
      RunTracks(Step(g, actions[0]).value, actions[1..], GoStep(g, actions[0], flags));
    }
  }

  // ----- after a recovery

  /** Without further panics, the flag stays down, and the panics of the unwindings that are left are as
      recovered as they were. */
  lemma {:induction false} QuietRun(g: Goroutine, actions: seq<Action>, flags: Flags)
    requires Inv(g) && !g.panicking && IsQuiet(actions) && Run(g, actions).Some?
    ensures !Run(g, actions).value.panicking
    ensures GoRun(g, actions, flags) <= flags
    decreases actions
  {
    if actions != [] {
      var next := Step(g, actions[0]).value;
      assert IsQuiet(actions[1..]) && !actions[0].Panic? && !actions[0].Recover?;
      StepKeeps(g, actions[0]);
      assert !next.panicking && GoStep(g, actions[0], flags) <= flags;
      hide Inv, Step, GoStep;
      QuietRun(next, actions[1..], GoStep(g, actions[0], flags));
    }
  }

  /** After a recovery in state `g`, and until there is another panic or recovery: the unwinding whose loop
      is found running is lost exactly if it was not the innermost and its own panic was not recovered. */
  lemma LostAfterRecovery(g: Goroutine, flags: Flags, recover: Action, after: seq<Action>)
    requires Inv(g) && Tracks(g, flags) && recover.Recover? && Step(g, recover).Some?
    requires IsQuiet(after) && Run(Step(g, recover).value, after).Some?
    ensures var h := Run(Step(g, recover).value, after).value;
            var left := GoRun(Step(g, recover).value, after, GoStep(g, recover, flags));
            && |left| <= |flags| && |left| == Loops(h)
            && (h.control.Raising? ==> (IsLost(h, left) <==> |left| < |flags| && flags[|left| - 1]))
  {
    var next, flags' := Step(g, recover).value, GoStep(g, recover, flags);
    StepKeeps(g, recover);
    StepTracks(g, recover, flags);
    assert !next.panicking && |flags'| == |flags| && !next.control.Exited?;
    assert forall i | 0 <= i < |flags| - 1 :: flags'[i] == flags[i];
    assert flags != [] ==> !flags'[|flags| - 1];
    QuietRun(next, after, flags');
    RunTracks(next, after, flags');
    NeverExits(next, after);
    hide Step, Inv, Loops, GoRun, GoStep;
  }

  lemma {:induction false} NeverExits(g: Goroutine, actions: seq<Action>)
    requires Inv(g) && !g.panicking && !g.control.Exited? && IsQuiet(actions) && Run(g, actions).Some?
    ensures !Run(g, actions).value.control.Exited?
    decreases actions
  {
    if actions != [] {
      assert IsQuiet(actions[1..]) && !actions[0].Panic? && !actions[0].Recover?;
      hide Inv, Step;
      StepKeeps(g, actions[0]);
      NeverExitsStep(g, actions[0]);
      NeverExits(Step(g, actions[0]).value, actions[1..]);
    }
  }

  lemma NeverExitsStep(g: Goroutine, a: Action)
    requires !g.panicking && !a.Panic? && !a.Recover? && Step(g, a).Some?
    ensures !Step(g, a).value.panicking && !Step(g, a).value.control.Exited?
  {
  }

  // ----- when a recovery ends an outer panic

  /** The frame pushed by the loop of the `m`-th unwinding. */
  lemma {:induction false} LoopOf(frames: seq<CallFrame>, m: nat) returns (p: nat)
    requires m < Suspended(frames)
    ensures p < |frames| && frames[p].resume.PanicBody? && Suspended(frames[..p]) == m
    decreases |frames|
  {
    var n := |frames| - 1;
    if Suspended(frames[..n]) == m {
      p := n;
    } else {
      p := LoopOf(frames[..n], m);
      assert frames[..n][..p] == frames[..p];
    }
  }

  /** An unwinding of index `m`, an outer one, can be lost after the recovery. */
  lemma CanBeLost(g: Goroutine, flags: Flags, recover: Action, m: nat) returns (after: seq<Action>)
    requires Inv(g) && Tracks(g, flags) && recover.Recover? && Step(g, recover).Some?
    requires m < |flags| - 1 && flags[m]
    ensures IsQuiet(after) && Run(Step(g, recover).value, after).Some?
    ensures IsLost(Run(Step(g, recover).value, after).value,
                   GoRun(Step(g, recover).value, after, GoStep(g, recover, flags)))
  {
    hide *;
    var next := Step(g, recover).value;
    AtRecovery(g, flags, recover);
    StepKeeps(g, recover);
    var p := LoopOf(g.frames, m);
    LoopIsHigh(g, p);
    AnyIsInnermost(next, p);
    after := LoopResumes(next, p);
    var h := Run(next, after).value;
    SuspendedSame(h.frames, g.frames[..p]);
    LostAfterRecovery(g, flags, recover, after);
    RaisingCounts(h);
  }

  lemma AtRecovery(g: Goroutine, flags: Flags, recover: Action)
    requires Inv(g) && Tracks(g, flags) && recover.Recover? && Step(g, recover).Some?
    ensures var next := Step(g, recover).value;
            g.frames != [] && next.frames == g.frames && !next.panicking && |flags| == Suspended(g.frames)
  {
    hide Suspended;
  }

  lemma LoopIsHigh(g: Goroutine, p: nat)
    requires Inv(g) && p < |g.frames| && g.frames[p].resume.PanicBody?
    ensures p > 1
  {
    assert LinkInv(g.frames, p);
  }

  lemma RaisingCounts(g: Goroutine)
    requires g.control.Raising?
    ensures Loops(g) == Suspended(g.frames) + 1
  {
  }

  /** A recovery makes the runtime lose a panic exactly when more than one is being unwound and one of the
      outer ones has not been recovered: then, and only then, can the code go on, without any further panic
      or recovery, to where an unwinding is ended that Go would continue. */
  lemma RecoveryLosesExactly(g: Goroutine, flags: Flags, recover: Action)
    requires Inv(g) && Tracks(g, flags) && recover.Recover? && Step(g, recover).Some?
    ensures |flags| == Suspended(g.frames)
    ensures (exists m :: 0 <= m < |flags| - 1 && flags[m]) <==>
            (exists after :: IsQuiet(after) && Run(Step(g, recover).value, after).Some?
               && IsLost(Run(Step(g, recover).value, after).value,
                         GoRun(Step(g, recover).value, after, GoStep(g, recover, flags))))
  {
    hide Inv, Step, Tracks, GoStep, GoRun, Run, IsQuiet, Suspended, Loops;
    AtRecovery(g, flags, recover);
    if m :| 0 <= m < |flags| - 1 && flags[m] {
      var after := CanBeLost(g, flags, recover, m);
    }
    forall after | IsQuiet(after) && Run(Step(g, recover).value, after).Some?
      && IsLost(Run(Step(g, recover).value, after).value,
                GoRun(Step(g, recover).value, after, GoStep(g, recover, flags)))
      ensures exists m :: 0 <= m < |flags| - 1 && flags[m]
    {
      LostAfterRecovery(g, flags, recover, after);
      var left := GoRun(Step(g, recover).value, after, GoStep(g, recover, flags));
      assert flags[|left| - 1];
    }
  }

  /** The flags of any run follow from its actions. */
  lemma FlagsOfRun(func: FunctionObject, args: seq<Value>, actions: seq<Action>)
    requires IsFunction(func) && Run(Launched(func, args), actions).Some?
    ensures var g := Run(Launched(func, args), actions).value;
            Inv(g) && Tracks(g, GoRun(Launched(func, args), actions, []))
  {
    LaunchedInv(func, args);
    var start := Launched(func, args);
    assert start.frames[..0] == [] && Suspended(start.frames) == Suspended(start.frames[..0]) == 0;
    RunTracks(start, actions, []);
  }

  // ----- such a run

  function Fn(n: nat): FunctionObject {
    Trampoline.Code(Emission.Entry(n))
  }

  function At(n: nat): Label {
    Emission.Entry(n)
  }

  function Pushed(n: nat, resume: Resume, serial: nat): CallFrame {
    CallFrame(serial, Some(Fn(n)), [], resume, None, [])
  }

  function Raised(v: int, serial: nat): CallFrame {
    CallFrame(serial, None, [Ssa.Int(v)], Nowhere, None, [])
  }

  /** Function `k` defers function `n` and panics; the loop calls function `n`. */
  function Raises(k: nat, n: nat, v: int): seq<Action> {
    [Defer(Deferred(Fn(n), []), At(k)), Panic(Ssa.Int(v)), Tick, Tick]
  }

  lemma RunFour(g: Goroutine, a: seq<Action>, g1: Goroutine, g2: Goroutine, g3: Goroutine, g4: Goroutine, flags: Flags)
    requires |a| == 4 && g.frames != [] && g1.frames != [] && g2.frames != [] && g3.frames != []
    requires Step(g, a[0]) == Some(g1) && Step(g1, a[1]) == Some(g2)
             && Step(g2, a[2]) == Some(g3) && Step(g3, a[3]) == Some(g4)
    ensures Run(g, a) == Some(g4)
    ensures GoRun(g, a, flags) == GoStep(g3, a[3], GoStep(g2, a[2], GoStep(g1, a[1], GoStep(g, a[0], flags))))
  {
    hide Step, GoStep;
    var rest := a[1..][1..][1..];
    var f1 := GoStep(g, a[0], flags);
    var f2 := GoStep(g1, a[1], f1);
    var f3 := GoStep(g2, a[2], f2);
    assert rest == [a[3]] && rest[1..] == [];
    assert Run(g3, rest) == Some(g4) && GoRun(g3, rest, f3) == GoStep(g3, a[3], f3);
    assert Run(g2, a[1..][1..]) == Some(g4) && GoRun(g2, a[1..][1..], f2) == GoRun(g3, rest, f3);
    assert Run(g1, a[1..]) == Some(g4) && GoRun(g1, a[1..], f1) == GoRun(g2, a[1..][1..], f2);
  }

  lemma RaisesRuns(g: Goroutine, base: seq<CallFrame>, f: CallFrame, k: nat, n: nat, v: int, flags: Flags)
    requires g.frames == base + [f] && f.func == Some(Fn(k)) && f.defers == [] && g.control == UserCode(At(k))
    ensures var d := Deferred(Fn(n), []);
            Run(g, Raises(k, n, v)) ==
            Some(Goroutine(base + [f, Raised(v, g.issued), Pushed(n, PanicBody, g.issued + 1)], UserCode(At(n)),
                           true, Ssa.Int(v), g.recovered, g.issued + 2,
                           g.log + [Registered(f.serial, d)] + [Called(f.serial, d)]))
    ensures GoRun(g, Raises(k, n, v), flags) == flags + [true]
  {
    var d := Deferred(Fn(n), []);
    var f' := f.(defers := [d]);
    var raised, deferred := Raised(v, g.issued), Pushed(n, PanicBody, g.issued + 1);
    var g1 := g.(frames := base + [f'], log := g.log + [Registered(f.serial, d)]);
    var g2 := g1.(frames := base + [f', raised], control := Raising, panicking := true, panicData := Ssa.Int(v),
                  issued := g.issued + 1);
    var g3 := g2.(frames := base + [f, raised, deferred], control := Entering(Fn(n)), issued := g.issued + 2,
                  log := g1.log + [Called(f.serial, d)]);
    var g4 := g3.(control := UserCode(At(n)));
    assert Raises(k, n, v) == [Defer(d, At(k)), Panic(Ssa.Int(v)), Tick, Tick];
    RaisesFlags(g, g1, g2, g3, d, k, v, |base|, flags);
    hide *;
    DeferStep(g, base, f, n, k);
    PanicStep(g1, base, f', k, v, g2);
    LoopStep(g2, base, f, raised, d, n, g3);
    EnterStep(g3, n);
    RunFour(g, Raises(k, n, v), g1, g2, g3, g4, flags);
  }

  lemma RaisesFlags(g: Goroutine, g1: Goroutine, g2: Goroutine, g3: Goroutine, d: Deferred, k: nat, v: int,
                    b: nat, flags: Flags)
    requires g.frames != [] && g1.frames != [] && |g2.frames| == b + 2 && g3.frames != []
    requires g2.frames[b].defers != [] && !g3.control.Raising?
    ensures GoStep(g3, Tick, GoStep(g2, Tick, GoStep(g1, Panic(Ssa.Int(v)), GoStep(g, Defer(d, At(k)), flags))))
            == flags + [true]
  {
  }

  lemma DeferStep(g: Goroutine, base: seq<CallFrame>, f: CallFrame, n: nat, k: nat)
    requires g.frames == base + [f] && f.func == Some(Fn(k)) && f.defers == [] && g.control == UserCode(At(k))
    ensures var d := Deferred(Fn(n), []);
            Step(g, Defer(d, At(k))) ==
              Some(g.(frames := base + [f.(defers := [d])], log := g.log + [Registered(f.serial, d)]))
  {
    assert g.frames[..|g.frames| - 1] == base;
    assert [Deferred(Fn(n), [])] + [] == [Deferred(Fn(n), [])];
  }

  lemma PanicStep(g: Goroutine, base: seq<CallFrame>, f: CallFrame, k: nat, v: int, g': Goroutine)
    requires g.frames == base + [f] && f.func == Some(Fn(k)) && g.control == UserCode(At(k))
    requires g' == g.(frames := base + [f, Raised(v, g.issued)], control := Raising, panicking := true,
                      panicData := Ssa.Int(v), issued := g.issued + 1)
    ensures Step(g, Panic(Ssa.Int(v))) == Some(g')
  {
    assert base + [f] + [Raised(v, g.issued)] == base + [f, Raised(v, g.issued)];
  }

  lemma LoopStep(g: Goroutine, base: seq<CallFrame>, f: CallFrame, raised: CallFrame, d: Deferred, n: nat,
                 g': Goroutine)
    requires g.frames == base + [f.(defers := [d]), raised]
             && f.defers == [] && d == Deferred(Fn(n), []) && g.control.Raising?
    requires g' == g.(frames := base + [f, raised, Pushed(n, PanicBody, g.issued)], control := Entering(Fn(n)),
                      issued := g.issued + 1, log := g.log + [Called(f.serial, d)])
    ensures Step(g, Tick) == Some(g')
  {
    assert Below(g) == |base| && g.frames[|base|] == f.(defers := [d]) && [d][1..] == [];
    assert g.frames[|base| := f] + [Pushed(n, PanicBody, g.issued)] ==
             base + [f, raised, Pushed(n, PanicBody, g.issued)];
  }

  lemma EnterStep(g: Goroutine, n: nat)
    requires g.frames != [] && g.control == Entering(Fn(n))
    ensures Step(g, Tick) == Some(g.(control := UserCode(At(n))))
  {
  }

  /** Function 0 defers function 1 and panics; function 1 calls function 2. */
  const OUTER: seq<Action> := [Tick] + Raises(0, 1, 10) + [Call(Fn(2), [], At(1)), Tick]

  /** Function 2 defers function 3 and panics; function 3 recovers. Then functions 3, 2 and 1 return. */
  const INNER: seq<Action> := Raises(2, 3, 20) + [Recover(At(3)), Return, Tick, Return]

  function OuterFrames(): seq<CallFrame> {
    [Pushed(0, Terminating, 0), Raised(10, 1), Pushed(1, PanicBody, 2)]
  }

  lemma OuterRuns()
    ensures Run(Launched(Fn(0), []), OUTER).Some?
    ensures var g := Run(Launched(Fn(0), []), OUTER).value;
            && g.frames == OuterFrames() + [Pushed(2, Continuation(At(1)), 3)]
            && g.control == UserCode(At(2)) && g.panicking && g.issued == 4 && g.recovered == None
            && GoRun(Launched(Fn(0), []), OUTER, []) == [true]
  {
    assert OUTER == [Tick] + Raises(0, 1, 10) + [Call(Fn(2), [], At(1)), Tick];
    hide *;
    FirstTick();
    OuterPanics();
    var g0 := Launched(Fn(0), []);
    CallsInner(Run(g0, [Tick] + Raises(0, 1, 10)).value);
    RunsOn(g0, [Tick] + Raises(0, 1, 10), [Call(Fn(2), [], At(1)), Tick]);
    GoRunsOn(g0, [Tick] + Raises(0, 1, 10), [Call(Fn(2), [], At(1)), Tick], []);
  }

  lemma FirstTick()
    ensures var g0 := Launched(Fn(0), []);
            && Inv(g0) && g0.frames == [] + [Pushed(0, Terminating, 0)] && g0.issued == 1 && g0.recovered == None
            && Step(g0, Tick) == Some(g0.(control := UserCode(At(0)))) && GoStep(g0, Tick, []) == []
    ensures Pushed(0, Terminating, 0).func == Some(Fn(0)) && Pushed(0, Terminating, 0).defers == []
    ensures OuterFrames() == [] + [Pushed(0, Terminating, 0), Raised(10, 1), Pushed(1, PanicBody, 2)]
  {
    hide Inv;
    LaunchedInv(Fn(0), []);
  }

  lemma OuterPanics()
    ensures var panics := [Tick] + Raises(0, 1, 10);
            var g := Run(Launched(Fn(0), []), panics);
            && g.Some? && g.value.frames == OuterFrames() && g.value.control == UserCode(At(1)) && g.value.issued == 3
            && g.value.panicking && g.value.recovered == None && GoRun(Launched(Fn(0), []), panics, []) == [true]
  {
    hide *;
    FirstTick();
    var g0 := Launched(Fn(0), []);
    var g1 := g0.(control := UserCode(At(0)));
    RunOne(g0, Tick, g1, []);
    RaisesRuns(g1, [], Pushed(0, Terminating, 0), 0, 1, 10, []);
    RunsOn(g0, [Tick], Raises(0, 1, 10));
    GoRunsOn(g0, [Tick], Raises(0, 1, 10), []);
    assert [] + [true] == [true];
  }

  lemma CallsInner(g: Goroutine)
    requires g.frames == OuterFrames() && g.control == UserCode(At(1)) && g.issued == 3
    ensures var calls := [Call(Fn(2), [], At(1)), Tick];
            && Run(g, calls) == Some(g.(frames := OuterFrames() + [Pushed(2, Continuation(At(1)), 3)],
                                   issued := 4, control := UserCode(At(2))))
            && GoRun(g, calls, [true]) == [true]
  {
    var g1 := g.(frames := OuterFrames() + [Pushed(2, Continuation(At(1)), 3)],
                 issued := 4, control := Entering(Fn(2)));
    assert Step(g, Call(Fn(2), [], At(1))) == Some(g1);
    EnterStep(g1, 2);
    RunPair(g, Call(Fn(2), [], At(1)), g1, Tick, g1.(control := UserCode(At(2))), [true]);
  }

  lemma {:induction false} GoRunsOn(g: Goroutine, xs: seq<Action>, ys: seq<Action>, flags: Flags)
    requires Inv(g) && Run(g, xs).Some?
    ensures GoRun(g, xs + ys, flags) == GoRun(Run(g, xs).value, ys, GoRun(g, xs, flags))
    decreases xs
  {
    assert g.frames != [];
    hide Inv, Step, GoStep;
    if xs == [] {
      assert xs + ys == ys;
    } else {
      assert (xs + ys)[1..] == xs[1..] + ys && (xs + ys)[0] == xs[0];
      StepKeeps(g, xs[0]);
      GoRunsOn(Step(g, xs[0]).value, xs[1..], ys, GoStep(g, xs[0], flags));
    }
  }

  lemma RunOne(g: Goroutine, a: Action, g': Goroutine, flags: Flags)
    requires g.frames != [] && Step(g, a) == Some(g')
    ensures Run(g, [a]) == Some(g') && GoRun(g, [a], flags) == GoStep(g, a, flags)
  {
    assert [a][1..] == [];
    hide Step, GoStep;
  }

  lemma RunPair(g: Goroutine, a: Action, g1: Goroutine, b: Action, g2: Goroutine, flags: Flags)
    requires g.frames != [] && g1.frames != [] && Step(g, a) == Some(g1) && Step(g1, b) == Some(g2)
    ensures Run(g, [a, b]) == Some(g2) && GoRun(g, [a, b], flags) == GoStep(g1, b, GoStep(g, a, flags))
  {
    hide Step, GoStep;
    RunOne(g1, b, g2, GoStep(g, a, flags));
    assert [a, b][0] == a && [a, b][1..] == [b];
  }

  /** What the inner unwinding does once it is recovered, from the call of `recover` to the return to the
      outer loop. */
  lemma InnerReturns(g: Goroutine)
    requires g.frames == OuterFrames() + [Pushed(2, Continuation(At(1)), 3), Raised(20, 4), Pushed(3, PanicBody, 5)]
    requires g.control == UserCode(At(3)) && g.panicking && g.panicData == Ssa.Int(20)
    ensures Run(g, [Recover(At(3)), Return, Tick, Return]) ==
            Some(g.(frames := [Pushed(0, Terminating, 0), Raised(10, 1)], control := Raising, panicking := false,
                    recovered := Some(Ssa.Int(20))))
    ensures GoRun(g, [Recover(At(3)), Return, Tick, Return], [true, true]) == [true]
  {
    var called, raised := Pushed(2, Continuation(At(1)), 3), Raised(20, 4);
    var g1 := g.(panicking := false, recovered := Some(Ssa.Int(20)));
    var g2 := g1.(frames := OuterFrames() + [called, raised], control := Raising);
    var g3 := g1.(frames := OuterFrames(), control := UserCode(At(1)));
    var g4 := g1.(frames := [Pushed(0, Terminating, 0), Raised(10, 1)], control := Raising);
    assert Step(g, Recover(At(3))) == Some(g1);
    assert g1.frames[..|g1.frames| - 1] == g2.frames;
    assert Step(g1, Return) == Some(g2);
    assert Below(g2) == 3 && g2.frames[3] == called;
    assert g2.frames[..4] == OuterFrames() + [called] && (OuterFrames() + [called])[..3] == OuterFrames();
    assert Step(g2, Tick) == Some(g3);
    assert g3.frames[..2] == g4.frames;
    assert Step(g3, Return) == Some(g4);
    RunFour(g, [Recover(At(3)), Return, Tick, Return], g1, g2, g3, g4, [true, true]);
    assert GoStep(g, Recover(At(3)), [true, true]) == [true, false];
    assert GoStep(g2, Tick, [true, false]) == [true];
  }

  /** A run with two unwindings in progress: the recovery in the inner one is the only one, and yields the
      inner value, yet afterwards the loop of the outer one resumes its caller, so that the goroutine ends
      as if it had not panicked. */
  lemma InnerRecoveryEndsOuter()
    ensures Run(Launched(Fn(0), []), OUTER + INNER).Some?
    ensures var g := Run(Launched(Fn(0), []), OUTER + INNER).value;
            && g.recovered == Some(Ssa.Int(20)) && g.control.Raising? && !g.panicking
            && IsLost(g, GoRun(Launched(Fn(0), []), OUTER + INNER, []))
            && Step(g, Tick).Some? && Step(g, Tick).value.control == Terminated
  {
    hide *;
    OuterRuns();
    var start := Launched(Fn(0), []);
    var g := Run(start, OUTER).value;
    FramesOnTop();
    RaisesRuns(g, OuterFrames(), Pushed(2, Continuation(At(1)), 3), 2, 3, 20, [true]);
    assert [true] + [true] == [true, true];
    StartIsGood();
    FlagsOfRun(Fn(0), [], OUTER);
    FlagsOfRun(Fn(0), [], []);
    var h := Run(g, Raises(2, 3, 20)).value;
    InnerReturns(h);
    RunsOn(g, Raises(2, 3, 20), [Recover(At(3)), Return, Tick, Return]);
    RunsOn(start, OUTER, INNER);
    GoRunsOn(g, Raises(2, 3, 20), [Recover(At(3)), Return, Tick, Return], [true]);
    GoRunsOn(start, OUTER, INNER, []);
    LastRound(Run(start, OUTER + INNER).value);
  }

  lemma StartIsGood()
    ensures IsFunction(Fn(0)) && Run(Launched(Fn(0), []), []) == Some(Launched(Fn(0), []))
  {
  }

  lemma FramesOnTop()
    ensures OuterFrames() + [Pushed(2, Continuation(At(1)), 3), Raised(20, 4), Pushed(3, PanicBody, 5)]
         == OuterFrames() + [Pushed(2, Continuation(At(1)), 3), Raised(20, 4), Pushed(3, PanicBody, 4 + 1)]
    ensures INNER == Raises(2, 3, 20) + [Recover(At(3)), Return, Tick, Return]
    ensures Pushed(2, Continuation(At(1)), 3).func == Some(Fn(2)) && Pushed(2, Continuation(At(1)), 3).defers == []
  {
  }

  lemma LastRound(g: Goroutine)
    requires g.frames == [Pushed(0, Terminating, 0), Raised(10, 1)] && g.control.Raising? && !g.panicking
    ensures IsLost(g, [true]) && Step(g, Tick).Some? && Step(g, Tick).value.control == Terminated
  {
  }
}
