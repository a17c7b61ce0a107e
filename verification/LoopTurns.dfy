/** How the loops of panics get their turns: the code above a loop can always be run to its end. */
module LoopTurns {
  import opened Options
  import opened Unwinding

  predicate WithoutPanics(actions: seq<Action>) {
    forall i | 0 <= i < |actions| :: !actions[i].Panic?
  }

  /** Neither a panic nor a recovery is among these. */
  predicate IsQuiet(actions: seq<Action>) {
    forall i | 0 <= i < |actions| :: !actions[i].Panic? && !actions[i].Recover?
  }

  function Pending(frames: seq<CallFrame>): nat {
    if frames == [] then 0 else Pending(frames[..|frames| - 1]) + |frames[|frames| - 1].defers|
  }

  lemma {:induction false} PendingSame(xs: seq<CallFrame>, ys: seq<CallFrame>)
    requires |xs| == |ys| && forall i | 0 <= i < |xs| :: |xs[i].defers| == |ys[i].defers|
    ensures Pending(xs) == Pending(ys)
    decreases |xs|
  {
    if xs != [] {
      PendingSame(xs[..|xs| - 1], ys[..|ys| - 1]);
    }
  }

  lemma {:induction false} PendingLess(xs: seq<CallFrame>, ys: seq<CallFrame>, b: nat)
    requires |xs| == |ys| && b < |xs| && |xs[b].defers| == |ys[b].defers| + 1
    requires forall i | 0 <= i < |xs| && i != b :: |xs[i].defers| == |ys[i].defers|
    ensures Pending(xs) == Pending(ys) + 1
    decreases |xs|
  {
    if b == |xs| - 1 {
      PendingSame(xs[..b], ys[..b]);
    } else {
      PendingLess(xs[..|xs| - 1], ys[..|ys| - 1], b);
    }
  }

  lemma PendingCall(g: Goroutine, resume: Resume)
    requires |g.frames| > 1 && g.frames[Below(g)].defers != []
    ensures Pending(CallDeferred(g, resume).frames) == Pending(g.frames) - 1
  {
    var g' := CallDeferred(g, resume);
    var n := |g.frames|;
    PendingLess(g.frames, g'.frames[..n], Below(g));
    assert g'.frames == g'.frames[..n] + [Top(g')] && g'.frames[..|g'.frames| - 1] == g'.frames[..n];
  }

  lemma {:induction false} PendingPrefix(frames: seq<CallFrame>, n: nat)
    requires n <= |frames|
    ensures Pending(frames[..n]) <= Pending(frames)
    decreases |frames|
  {
    if n < |frames| {
      PendingPrefix(frames[..|frames| - 1], n);
      assert frames[..|frames| - 1][..n] == frames[..n];
    } else {
      assert frames[..n] == frames;
    }
  }

  function Rank(g: Goroutine): nat {
    if g.control.Entering? then 1 else 0
  }

  /** Fewer deferred calls, or fewer frames, or at least a function entered. */
  ghost predicate Nearer(g: Goroutine, g': Goroutine) {
    || Pending(g'.frames) < Pending(g.frames)
    || (Pending(g'.frames) == Pending(g.frames) && |g'.frames| < |g.frames|)
    || (Pending(g'.frames) == Pending(g.frames) && |g'.frames| == |g.frames| && Rank(g') < Rank(g))
  }

  /** The loop that waits below frame `p` is the one a panic is unwound by, if there is a panic. */
  ghost predicate Innermost(g: Goroutine, p: nat) {
    g.panicking ==> !g.control.Raising? && forall i | p < i < |g.frames| :: !g.frames[i].resume.PanicBody?
  }

  lemma AnyIsInnermost(g: Goroutine, p: nat)
    requires !g.panicking
    ensures Innermost(g, p)
  {
  }

  /** What one move towards the loop that waits below frame `p` keeps and gains. */
  ghost predicate Moves(g: Goroutine, g': Goroutine, p: nat) {
    && Inv(g') && g'.panicking == g.panicking && p <= |g'.frames| && p < |g.frames|
    && (forall i | 0 <= i < p :: g'.frames[i].resume == g.frames[i].resume)
    && (if |g'.frames| == p then g'.control.Raising?
        else g'.frames[p].resume.PanicBody? && Innermost(g', p) && Nearer(g, g'))
  }

  lemma PopMoves(g: Goroutine, p: nat)
    requires |g.frames| > 1 && p < |g.frames| && g.frames[p].resume.PanicBody? && Innermost(g, p)
    requires Inv(PopAndResume(g))
    ensures Moves(g, PopAndResume(g), p)
  {
    hide Inv, Pending;
    PendingPrefix(g.frames, |g.frames| - 1);
  }

  lemma CallMoves(g: Goroutine, resume: Resume, p: nat)
    requires |g.frames| > 1 && g.frames[Below(g)].defers != [] && Inv(CallDeferred(g, resume))
    requires p < |g.frames| && g.frames[p].resume.PanicBody? && Innermost(g, p)
    requires resume.PanicBody? ==> !g.panicking
    ensures Moves(g, CallDeferred(g, resume), p)
  {
    hide Inv, Pending;
    PendingCall(g, resume);
  }

  lemma EnterMoves(g: Goroutine, func: FunctionObject, p: nat)
    requires g.frames != [] && g.control == Entering(func) && Inv(EnterFunction(g, func))
    requires p < |g.frames| && g.frames[p].resume.PanicBody? && Innermost(g, p)
    ensures Moves(g, EnterFunction(g, func), p)
  {
    hide Inv, Pending;
    PendingSame(g.frames, EnterFunction(g, func).frames);
  }

  /** The loop itself moves on: it drops its own frame, which no other loop called, and then resumes. */
  lemma RoundMoves(g: Goroutine, p: nat)
    requires |g.frames| > 1 && g.frames[Below(g)].defers == [] && !g.panicking && Inv(RaiseRound(g))
    requires p < |g.frames| - 1 && p > 0 && g.frames[p].resume.PanicBody?
    ensures Moves(g, RaiseRound(g), p)
  {
    hide Inv, Pending;
    var n := |g.frames|;
    PendingPrefix(g.frames, n - 2);
    assert g.frames[..n - 1][..n - 2] == g.frames[..n - 2];
  }

  lemma MoveByCode(g: Goroutine, p: nat) returns (actions: seq<Action>)
    requires Inv(g) && g.control.UserCode? && 0 < p < |g.frames| && g.frames[p].resume.PanicBody?
    requires Innermost(g, p)
    ensures IsQuiet(actions) && Run(g, actions).Some? && Moves(g, Run(g, actions).value, p)
  {
    hide Inv, Moves, LinkInv, Nearer, Innermost;
    if Top(g).defers == [] {
      actions := [Return];
      StepKeeps(g, Return);
      PopMoves(g, p);
      assert actions[1..] == [] && Run(g, actions) == Some(PopAndResume(g));
    } else {
      actions := MoveByDefers(g, p);
    }
  }

  lemma MoveByDefers(g: Goroutine, p: nat) returns (actions: seq<Action>)
    requires Inv(g) && g.control.UserCode? && 0 < p < |g.frames| && g.frames[p].resume.PanicBody?
    requires Innermost(g, p) && Top(g).defers != []
    ensures IsQuiet(actions) && Run(g, actions).Some? && Moves(g, Run(g, actions).value, p)
  {
    hide Inv, Moves, LinkInv, Nearer, IsFunction, InFunction, IsHere, Pending;
    var run := RunDefers(g.control.at);
    actions := [run, Tick];
    CodeIsHere(g);
    var mid := Step(g, run).value;
    StepKeeps(g, run);
    assert Below(mid) == |g.frames| - 1 && mid.frames[Below(mid)] == Top(g);
    StepKeeps(mid, Tick);
    CallMoves(mid, ExecuteDefers, p);
    assert actions[1..] == [Tick] && [Tick][1..] == [];
    assert Run(g, actions) == Some(CallDeferred(mid, ExecuteDefers));
    PendingCall(mid, ExecuteDefers);
    RunsDefersFirst(g, mid, CallDeferred(mid, ExecuteDefers), p);
  }

  lemma CodeIsHere(g: Goroutine)
    requires Inv(g) && g.control.UserCode?
    ensures IsHere(g, g.control.at)
  {
  }

  lemma RunsDefersFirst(g: Goroutine, mid: Goroutine, g': Goroutine, p: nat)
    requires |mid.frames| == |g.frames| + 1 && mid.frames[..|g.frames|] == g.frames && Top(mid).defers == []
    requires mid.panicking == g.panicking
    requires Moves(mid, g', p) && p < |g.frames| && |g'.frames| > p && Pending(g'.frames) < Pending(mid.frames)
    ensures Moves(g, g', p)
  {
    hide Inv;
    assert mid.frames[..|mid.frames| - 1] == g.frames;
    assert forall i | 0 <= i < |g.frames| :: mid.frames[i] == g.frames[i];
  }

  lemma MoveByRuntime(g: Goroutine, p: nat)
    requires Inv(g) && !g.control.UserCode? && 1 < p < |g.frames| && g.frames[p].resume.PanicBody?
    requires Innermost(g, p)
    ensures Run(g, [Tick]).Some? && Moves(g, Run(g, [Tick]).value, p)
  {
    assert ControlInv(g);
    hide Inv, Moves, LinkInv, Nearer, IsFunction, InFunction;
    StepKeeps(g, Tick);
    assert [Tick][1..] == [] && Run(g, [Tick]) == Step(g, Tick);
    match g.control
    case Entering(func) => EnterMoves(g, func, p);
    case Raising =>
      if g.frames[Below(g)].defers != [] { CallMoves(g, PanicBody, p); } else { RoundMoves(g, p); }
    case Executing =>
      if g.frames[Below(g)].defers != [] { CallMoves(g, ExecuteDefers, p); } else { PopMoves(g, p); }
  }

  lemma Move(g: Goroutine, p: nat) returns (actions: seq<Action>)
    requires Inv(g) && 1 < p < |g.frames| && g.frames[p].resume.PanicBody? && Innermost(g, p)
    ensures IsQuiet(actions) && Run(g, actions).Some? && Moves(g, Run(g, actions).value, p)
  {
    hide *;
    if g.control.UserCode? {
      actions := MoveByCode(g, p);
    } else {
      actions := [Tick];
      MoveByRuntime(g, p);
      assert IsQuiet([Tick]) by { TickIsQuiet(); }
    }
  }

  lemma TickIsQuiet()
    ensures IsQuiet([Tick])
  {
  }

  lemma {:induction false} RunsOn(g: Goroutine, xs: seq<Action>, ys: seq<Action>)
    requires Run(g, xs).Some?
    ensures Run(g, xs + ys) == Run(Run(g, xs).value, ys)
    decreases xs
  {
    hide Step;
    if xs == [] {
      assert xs + ys == ys;
    } else {
      assert (xs + ys)[1..] == xs[1..] + ys && (xs + ys)[0] == xs[0];
      RunsOn(Step(g, xs[0]).value, xs[1..], ys);
    }
  }

  /** A goroutine can always run its code to where a suspended loop resumes, be it any loop if it is not
      panicking, or the innermost one: each function runs its deferred calls and returns. */
  lemma {:induction false} LoopResumes(g: Goroutine, p: nat) returns (actions: seq<Action>)
    requires Inv(g) && 1 < p < |g.frames| && g.frames[p].resume.PanicBody? && Innermost(g, p)
    ensures IsQuiet(actions) && Run(g, actions).Some?
    ensures var h := Run(g, actions).value;
            && h.control.Raising? && |h.frames| == p && h.panicking == g.panicking
            && forall i | 0 <= i < p :: h.frames[i].resume == g.frames[i].resume
    decreases Pending(g.frames), |g.frames|, Rank(g)
  {
    hide Inv, Step, Pending, Run, Rank;
    actions := Move(g, p);
    var g' := Run(g, actions).value;
    if |g'.frames| > p {
      var rest := LoopResumes(g', p);
      RunsOn(g, actions, rest);
      actions := actions + rest;
    }
  }
}
