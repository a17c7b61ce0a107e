/** Where a panic ends: which deferred calls run on the way, and where control resumes. */
module PanicTarget {
  import opened Options
  import opened Unwinding
  import opened LoopTurns

  /** The occurrences in a log that concern frames pushed before serial number `limit`. */
  function Older(log: seq<Occurrence>, limit: nat): seq<Occurrence> {
    if log == [] then []
    else
      var rest := Older(log[..|log| - 1], limit);
      if log[|log| - 1].frame < limit then rest + [log[|log| - 1]] else rest
  }

  lemma OlderAppend(log: seq<Occurrence>, e: Occurrence, limit: nat)
    ensures Older(log + [e], limit) == if e.frame < limit then Older(log, limit) + [e] else Older(log, limit)
  {
    assert (log + [e])[..|log|] == log;
  }

  /** The first `j` deferred calls of a frame, from the one registered last. */
  function Calls(f: CallFrame, j: nat): seq<Occurrence>
    requires j <= |f.defers|
  {
    seq(j, i requires 0 <= i < j => Called(f.serial, f.defers[i]))
  }

  /** All deferred calls of the frames above `k`, from the top down, then `j` of those of frame `k`. */
  function Script(fs: seq<CallFrame>, k: nat, j: nat): seq<Occurrence>
    requires k < |fs| && j <= |fs[k].defers|
    decreases |fs| - k
  {
    (if k + 1 < |fs| then Script(fs, k + 1, |fs[k + 1].defers|) else []) + Calls(fs[k], j)
  }

  /** The deferred calls made since the panic, which was raised in state `g0`, on the frames of that time. */
  ghost predicate Ran(g0: Goroutine, g: Goroutine, k: nat, j: nat) {
    && k < |g0.frames| && j <= |g0.frames[k].defers|
    && g0.log <= g.log && g0.issued <= g.issued
    && Older(g.log[|g0.log|..], g0.issued) == Script(g0.frames, k, j)
  }

  /** The panic raised in `g0` with value `v` has reached frame `k` and made `j` of its deferred calls. */
  ghost predicate Unwound(g0: Goroutine, v: Value, g: Goroutine, k: nat, j: nat, rec: bool) {
    var fs := g0.frames;
    && Ran(g0, g, k, j)
    && |g.frames| >= k + 2
    && g.frames[..k] == fs[..k] && g.frames[k] == fs[k].(defers := fs[k].defers[j..])
    && (forall i | k + 2 <= i < |g.frames| ::
          g.frames[i].serial >= g0.issued && (g.frames[i].resume.PanicBody? <==> i == k + 2))
    && (g.control.Raising? <==> |g.frames| == k + 2) && !g.control.Terminated? && !g.control.Exited?
    && (|g.frames| > k + 2 ==> g.frames[k + 2].func.Some?)
    && g.panicking == !rec && (!rec ==> g.panicData == v)
  }

  /** The panic was recovered in a deferred call of frame `k`: all of them ran, and control is back at the
      resume function of frame `k`, on its caller, with every older frame as it was. */
  ghost predicate Resumed(g0: Goroutine, g: Goroutine, k: nat) {
    && k < |g0.frames| && Ran(g0, g, k, |g0.frames[k].defers|)
    && g.control == Resuming(g0.frames[k].resume) && !g.panicking
    && (k > 0 ==> g.frames == g0.frames[..k])
  }

  /** Nobody recovered: every deferred call of every frame ran, and the process has stopped with `v`. */
  ghost predicate Stopped(g0: Goroutine, v: Value, g: Goroutine) {
    && g0.frames != [] && Ran(g0, g, 0, |g0.frames[0].defers|) && g.control == Exited(v)
  }

  lemma RanQuietly(g0: Goroutine, g: Goroutine, g': Goroutine, k: nat, j: nat)
    requires Ran(g0, g, k, j) && g.issued <= g'.issued
    requires g'.log == g.log || (exists e :: g'.log == g.log + [e] && e.frame >= g0.issued)
    ensures Ran(g0, g', k, j)
  {
    if g'.log != g.log {
      var e :| g'.log == g.log + [e] && e.frame >= g0.issued;
      assert g'.log[|g0.log|..] == g.log[|g0.log|..] + [e];
      OlderAppend(g.log[|g0.log|..], e, g0.issued);
    }
  }

  lemma ScriptOneMore(fs: seq<CallFrame>, k: nat, j: nat)
    requires k < |fs| && j < |fs[k].defers|
    ensures Script(fs, k, j + 1) == Script(fs, k, j) + [Called(fs[k].serial, fs[k].defers[j])]
  {
    var e := Called(fs[k].serial, fs[k].defers[j]);
    assert Calls(fs[k], j + 1) == Calls(fs[k], j) + [e];
    var above := if k + 1 < |fs| then Script(fs, k + 1, |fs[k + 1].defers|) else [];
    assert above + (Calls(fs[k], j) + [e]) == (above + Calls(fs[k], j)) + [e];
  }

  lemma RanOneMore(g0: Goroutine, g: Goroutine, g': Goroutine, k: nat, j: nat)
    requires Ran(g0, g, k, j) && g.issued <= g'.issued && j < |g0.frames[k].defers| && g0.frames[k].serial < g0.issued
    requires g'.log == g.log + [Called(g0.frames[k].serial, g0.frames[k].defers[j])]
    ensures Ran(g0, g', k, j + 1)
  {
    hide Script, Older;
    var e := Called(g0.frames[k].serial, g0.frames[k].defers[j]);
    assert g'.log[|g0.log|..] == g.log[|g0.log|..] + [e];
    OlderAppend(g.log[|g0.log|..], e, g0.issued);
    ScriptOneMore(g0.frames, k, j);
  }

  lemma RanDown(g0: Goroutine, g: Goroutine, g': Goroutine, k: nat)
    requires k > 0 && k < |g0.frames| && Ran(g0, g, k, |g0.frames[k].defers|)
             && g.issued <= g'.issued && g'.log == g.log
    ensures Ran(g0, g', k - 1, 0)
  {
    assert Calls(g0.frames[k - 1], 0) == [];
    var s := Script(g0.frames, k, |g0.frames[k].defers|);
    assert s + [] == s;
  }

  /** The loop calls the next deferred call of frame `k`. */
  lemma RoundCalls(g0: Goroutine, v: Value, g: Goroutine, k: nat, j: nat, rec: bool)
    requires Inv(g0) && Inv(g) && Unwound(g0, v, g, k, j, rec) && |g.frames| == k + 2 && j < |g0.frames[k].defers|
    ensures Unwound(g0, v, RaiseRound(g), k, j + 1, rec)
  {
    var g' := RaiseRound(g);
    var fs := g0.frames;
    assert fs[k].serial < g0.issued <= g.issued;
    hide Inv;
    assert Below(g) == k;
    assert g.frames[k].defers[0] == fs[k].defers[j] && g.frames[k].defers[1..] == fs[k].defers[j + 1..];
    RanOneMore(g0, g, g', k, j);
    hide Ran;
    assert g'.frames[k] == fs[k].(defers := fs[k].defers[j + 1..]);
    assert g'.frames[..k] == g.frames[..k];
    assert g'.frames[k + 2].resume == PanicBody && g'.frames[k + 2].serial == g.issued;
  }

  /** The loop is done with frame `k`. */
  lemma RoundMovesOn(g0: Goroutine, v: Value, g: Goroutine, k: nat, rec: bool)
    requires k < |g0.frames| && Unwound(g0, v, g, k, |g0.frames[k].defers|, rec) && |g.frames| == k + 2
    ensures var g' := RaiseRound(g);
            if rec then Resumed(g0, g', k)
            else if k == 0 then Stopped(g0, v, g')
            else Unwound(g0, v, g', k - 1, 0, false)
  {
    var g' := RaiseRound(g);
    var j := |g0.frames[k].defers|;
    assert Below(g) == k && g.frames[k].defers == [];
    if rec || k == 0 {
      RanQuietly(g0, g, g', k, j);
      hide Ran;
      assert Popped(g) == g.frames[..k + 1];
      assert k > 0 ==> g'.frames == g.frames[..k];
    } else {
      RanDown(g0, g, g', k);
      hide Ran;
      assert g'.frames == g.frames[..k + 1];
      assert g'.frames[..k - 1] == g.frames[..k][..k - 1] == g0.frames[..k - 1];
      assert g'.frames[k - 1] == g.frames[..k][k - 1] == g0.frames[k - 1];
    }
  }

  lemma OnlyFirstTerminates(g: Goroutine)
    requires Inv(g) && |g.frames| > 1
    ensures !Top(g).resume.Terminating?
  {
    assert LinkInv(g.frames, |g.frames| - 1);
  }

  /** A deferred call returns, or something it called does. */
  lemma PopProceeds(g0: Goroutine, v: Value, g: Goroutine, k: nat, j: nat, rec: bool)
    requires Inv(g) && Unwound(g0, v, g, k, j, rec) && |g.frames| > k + 2
    ensures Unwound(g0, v, PopAndResume(g), k, j, rec)
  {
    hide Inv, LinkInv, Ran;
    OnlyFirstTerminates(g);
    var n := |g.frames|;
    var g' := PopAndResume(g);
    RanQuietly(g0, g, g', k, j);
    assert g'.frames == g.frames[..n - 1];
    assert g'.frames[..k] == g.frames[..k];
  }

  /** Something is pushed above the deferred call, or its own frame changes. */
  lemma OnTopProceeds(g0: Goroutine, v: Value, g: Goroutine, g': Goroutine, k: nat, j: nat, rec: bool, rec': bool)
    requires Unwound(g0, v, g, k, j, rec) && |g.frames| > k + 2 && Ran(g0, g', k, j)
    requires |g.frames| <= |g'.frames| <= |g.frames| + 1
    requires g'.frames[..k + 2] == g.frames[..k + 2]
    requires forall i | k + 2 <= i < |g.frames| ::
               g'.frames[i].serial == g.frames[i].serial && g'.frames[i].resume == g.frames[i].resume
                 && g'.frames[i].func == g.frames[i].func
    requires |g'.frames| > |g.frames| ==>
               g'.frames[|g.frames|].serial == g.issued && !g'.frames[|g.frames|].resume.PanicBody?
    requires g'.control.UserCode? || g'.control.Entering? || g'.control.Executing?
    requires g'.panicking == !rec' && (!rec' ==> !rec && g'.panicData == g.panicData)
    ensures Unwound(g0, v, g', k, j, rec')
  {
    assert g'.frames[..k] == g'.frames[..k + 2][..k] && g'.frames[k] == g'.frames[..k + 2][k];
    assert g.frames[..k] == g.frames[..k + 2][..k] && g.frames[k] == g.frames[..k + 2][k];
    assert g.issued >= g0.issued;
    hide Ran;
  }

  /** The runtime loop of a function that the deferred call has called. */
  lemma ExecutingProceeds(g0: Goroutine, v: Value, g: Goroutine, k: nat, j: nat, rec: bool)
    requires Inv(g) && Unwound(g0, v, g, k, j, rec) && |g.frames| > k + 2 && g.control.Executing?
    ensures Unwound(g0, v, ExecuteRound(g), k, j, rec)
  {
    assert ControlInv(g);
    var b := Below(g);
    assert b >= k + 2;
    if g.frames[b].defers == [] {
      PopProceeds(g0, v, g, k, j, rec);
    } else {
      var g' := ExecuteRound(g);
      var e := Called(g.frames[b].serial, g.frames[b].defers[0]);
      assert g'.log == g.log + [e] && e.frame >= g0.issued;
      RanQuietly(g0, g, g', k, j);
      hide Ran, Inv;
      OnTopProceeds(g0, v, g, g', k, j, rec, rec);
    }
  }

  /** The deferred call, or something it called, defers a function itself. */
  lemma DeferProceeds(g0: Goroutine, v: Value, g: Goroutine, k: nat, j: nat, rec: bool, a: Action)
    requires Unwound(g0, v, g, k, j, rec) && |g.frames| > k + 2
    requires a.Defer? && Step(g, a).Some?
    ensures Unwound(g0, v, Step(g, a).value, k, j, rec)
  {
    hide Ran, StaysInFunction;
    var g', e := Step(g, a).value, Registered(Top(g).serial, a.entry);
    assert g'.log == g.log + [e] && e.frame >= g0.issued;
    RanQuietly(g0, g, g', k, j);
    OnTopProceeds(g0, v, g, g', k, j, rec, rec);
  }

  /** While a deferred call runs, whatever it does short of a panic of its own. */
  lemma CodeProceeds(g0: Goroutine, v: Value, g: Goroutine, k: nat, j: nat, rec: bool, a: Action)
    requires Inv(g) && Unwound(g0, v, g, k, j, rec) && |g.frames| > k + 2
    requires !a.Panic? && Step(g, a).Some?
    ensures Unwound(g0, v, Step(g, a).value, k, j, rec || a.Recover?)
  {
    hide Inv, ExecuteRound, RaiseRound, Ran, IsFunction, InFunction, StaysInFunction;
    var g' := Step(g, a).value;
    match a
    case Return => PopProceeds(g0, v, g, k, j, rec);
    case Defer(_, _) => DeferProceeds(g0, v, g, k, j, rec, a);
    case Tick =>
      if g.control.Executing? {
        ExecutingProceeds(g0, v, g, k, j, rec);
      } else {
        RanQuietly(g0, g, g', k, j);
        OnTopProceeds(g0, v, g, g', k, j, rec, rec);
      }
    case _ =>
      RanQuietly(g0, g, g', k, j);
      OnTopProceeds(g0, v, g, g', k, j, rec, rec || a.Recover?);
  }

  /** Where the loop is after a round that found it at frame `k` with `j` calls made: at the next call of
      the frame, or, once there is none, out of the unwinding or at the frame below. */
  ghost predicate After(g0: Goroutine, v: Value, g: Goroutine, k: nat, j: nat, rec: bool)
    requires k < |g0.frames|
  {
    if j < |g0.frames[k].defers| then Unwound(g0, v, g, k, j + 1, rec)
    else if rec then Resumed(g0, g, k)
    else if k == 0 then Stopped(g0, v, g)
    else Unwound(g0, v, g, k - 1, 0, false)
  }

  /** One step of an unwinding: a round of the loop gets it further, and any other step leaves it where it
      is, recovered or not. */
  lemma StepProceeds(g0: Goroutine, v: Value, g: Goroutine, k: nat, j: nat, rec: bool, a: Action)
    requires Inv(g0) && Inv(g) && Unwound(g0, v, g, k, j, rec) && !a.Panic? && Step(g, a).Some?
    ensures k < |g0.frames|
    ensures if g.control.Raising? then After(g0, v, Step(g, a).value, k, j, rec)
            else Unwound(g0, v, Step(g, a).value, k, j, rec || a.Recover?)
  {
    assert k < |g0.frames| && j <= |g0.frames[k].defers|;
    hide Inv, Ran, Resumed, Stopped;
    if |g.frames| > k + 2 {
      CodeProceeds(g0, v, g, k, j, rec, a);
    } else if j < |g0.frames[k].defers| {
      RoundCalls(g0, v, g, k, j, rec);
    } else {
      RoundMovesOn(g0, v, g, k, rec);
    }
  }

  // ----- how far an unwinding gets

  /** The rounds of the loop in a run. Between two rounds, a deferred call runs and returns. */
  function Rounds(g: Goroutine, actions: seq<Action>): nat
    decreases actions
  {
    if actions == [] || Step(g, actions[0]).None? then 0
    else (if g.control.Raising? then 1 else 0) + Rounds(Step(g, actions[0]).value, actions[1..])
  }

  /** The rounds it takes to be done with the frames from `k` up: one for each deferred call, and one to
      move on from each frame. */
  function Work(fs: seq<CallFrame>, k: nat): nat
    decreases |fs| - k
  {
    if k >= |fs| then 0 else |fs[k].defers| + 1 + Work(fs, k + 1)
  }

  /** The rounds done when frame `k` has been reached and `j` of its deferred calls made. */
  function Done(fs: seq<CallFrame>, k: nat, j: nat): nat {
    Work(fs, k + 1) + j
  }

  lemma {:induction false} WorkRemains(fs: seq<CallFrame>, i: nat, k: nat)
    requires i <= k
    ensures Work(fs, k) <= Work(fs, i)
    decreases k - i
  {
    if i < k {
      WorkRemains(fs, i + 1, k);
    }
  }

  /** While nobody recovers, each round is one more deferred call or one more frame. */
  lemma {:induction false} KeepsUnwinding(g0: Goroutine, v: Value, g: Goroutine, k: nat, j: nat, actions: seq<Action>)
    returns (k': nat, j': nat)
    requires Inv(g0) && Inv(g) && Unwound(g0, v, g, k, j, false)
    requires IsQuiet(actions) && Run(g, actions).Some?
    ensures var h, done := Run(g, actions).value, Done(g0.frames, k, j) + Rounds(g, actions);
            && Inv(h) && done <= Work(g0.frames, 0)
            && if done == Work(g0.frames, 0) then Stopped(g0, v, h)
               else Unwound(g0, v, h, k', j', false) && Done(g0.frames, k', j') == done
    decreases actions
  {
    k', j' := k, j;
    hide Inv, Unwound, Step, Stopped;
    Reached(g0, v, g, k, j, false);
    if actions != [] {
      var a, rest := actions[0], actions[1..];
      var next := Step(g, a).value;
      assert IsQuiet(rest) && !a.Panic? && !a.Recover?;
      assert Run(next, rest) == Run(g, actions);
      Unwinding.StepKeeps(g, a);
      StepProceeds(g0, v, g, k, j, false, a);
      if g.control.Raising? && j == |g0.frames[k].defers| && k == 0 {
        StoppedIsLast(g0, v, next, rest);
      } else {
        if g.control.Raising? {
          k', j' := if j < |g0.frames[k].defers| then k else k - 1, if j < |g0.frames[k].defers| then j + 1 else 0;
        }
        k', j' := KeepsUnwinding(g0, v, next, k', j', rest);
      }
    }
  }

  lemma Reached(g0: Goroutine, v: Value, g: Goroutine, k: nat, j: nat, rec: bool)
    requires Unwound(g0, v, g, k, j, rec)
    ensures k < |g0.frames| && j <= |g0.frames[k].defers| && Done(g0.frames, k, j) < Work(g0.frames, 0)
  {
    WorkRemains(g0.frames, 0, k);
  }

  lemma StoppedIsLast(g0: Goroutine, v: Value, g: Goroutine, actions: seq<Action>)
    requires Stopped(g0, v, g) && Run(g, actions).Some?
    ensures actions == [] && Run(g, actions) == Some(g) && Rounds(g, actions) == 0
  {
  }

  lemma RunPrefix(g: Goroutine, actions: seq<Action>, t: nat)
    requires t < |actions| && Step(g, actions[0]).Some?
    ensures var next := Step(g, actions[0]).value;
            && Run(g, actions[..t + 1]) == Run(next, actions[1..][..t])
            && Rounds(g, actions[..t + 1]) == (if g.control.Raising? then 1 else 0) + Rounds(next, actions[1..][..t])
  {
    assert actions[..t + 1][0] == actions[0] && actions[..t + 1][1..] == actions[1..][..t];
    hide Step;
  }

  lemma RunNothing(g: Goroutine, actions: seq<Action>)
    ensures Run(g, actions[..0]) == Some(g) && Rounds(g, actions[..0]) == 0
  {
  }

  /** Once a deferred call of frame `k` has recovered, each round is one more deferred call of that frame,
      and the round after the last, the `t`-th action, leaves the frame. */
  lemma {:induction false} UnwindsToResume(g0: Goroutine, v: Value, g: Goroutine, k: nat, j: nat, actions: seq<Action>)
    returns (t: nat)
    requires Inv(g0) && Inv(g) && Unwound(g0, v, g, k, j, true) && WithoutPanics(actions) && Run(g, actions).Some?
    ensures t <= |actions| && Run(g, actions[..t]).Some? && k < |g0.frames| && j <= |g0.frames[k].defers|
    ensures var left := |g0.frames[k].defers| - j + 1;
            if Rounds(g, actions) < left then Unwound(g0, v, Run(g, actions).value, k, j + Rounds(g, actions), true)
            else Rounds(g, actions[..t]) == left && Resumed(g0, Run(g, actions[..t]).value, k)
    decreases actions
  {
    hide Inv, Unwound, Step, Resumed;
    Reached(g0, v, g, k, j, true);
    RunNothing(g, actions);
    t := 0;
    if actions != [] {
      var next, rest := Step(g, actions[0]).value, actions[1..];
      assert WithoutPanics(rest) && !actions[0].Panic? && Run(next, rest) == Run(g, actions);
      Unwinding.StepKeeps(g, actions[0]);
      StepProceeds(g0, v, g, k, j, true, actions[0]);
      if g.control.Raising? && j == |g0.frames[k].defers| {
        t := 1;
        RunPrefix(g, actions, 0);
        RunNothing(next, rest);
      } else {
        t := UnwindsToResume(g0, v, next, k, if g.control.Raising? then j + 1 else j, rest);
        RunPrefix(g, actions, t);
        t := t + 1;
      }
    }
  }

  /** A panic starts at the frame that raised it. */
  lemma PanicStarts(g0: Goroutine, v: Value)
    requires Inv(g0) && Step(g0, Panic(v)).Some?
    ensures Unwound(g0, v, Step(g0, Panic(v)).value, |g0.frames| - 1, 0, false)
  {
    var g := Step(g0, Panic(v)).value;
    assert g.log[|g0.log|..] == [];
    assert Calls(g0.frames[|g0.frames| - 1], 0) == [];
    assert g.frames[..|g0.frames|] == g0.frames;
  }

  /** If nobody recovers, each round of the loop makes the next deferred call, from the top frame down and
      all of one frame before any of the next, or moves on to the next frame; and the process has stopped
      with the panic's value exactly when there have been as many rounds as deferred calls and frames. */
  lemma NobodyRecovers(g0: Goroutine, v: Value, actions: seq<Action>) returns (k: nat, j: nat)
    requires Inv(g0) && Step(g0, Panic(v)).Some?
    requires IsQuiet(actions) && Run(Step(g0, Panic(v)).value, actions).Some?
    ensures var raised := Step(g0, Panic(v)).value;
            var h, rounds := Run(raised, actions).value, Rounds(raised, actions);
            && rounds <= Work(g0.frames, 0)
            && (Stopped(g0, v, h) <==> rounds == Work(g0.frames, 0))
            && (rounds < Work(g0.frames, 0) ==> Unwound(g0, v, h, k, j, false) && Done(g0.frames, k, j) == rounds)
            && (h.control.Raising? ==> Step(h, Tick).Some?)
  {
    PanicStarts(g0, v);
    var raised := Step(g0, Panic(v)).value;
    Unwinding.StepKeeps(g0, Panic(v));
    assert Done(g0.frames, |g0.frames| - 1, 0) == 0;
    hide Step;
    k, j := KeepsUnwinding(g0, v, raised, |g0.frames| - 1, 0, actions);
    RoundIsPossible(Run(raised, actions).value);
  }

  lemma RoundIsPossible(g: Goroutine)
    requires Inv(g)
    ensures g.control.Raising? ==> Step(g, Tick).Some?
  {
  }

  /** If the first recovery happens in a deferred call of frame `k`, it yields the panic's value. Then each
      round of the loop makes one more deferred call of that frame, and the round after the last resumes
      where frame `k` was to return to, on its caller, with all older frames as they were when the panic
      was raised. */
  lemma RecoveryResumesCaller(g0: Goroutine, v: Value, before: seq<Action>, recover: Action, after: seq<Action>)
    returns (k: nat, j: nat, t: nat)
    requires Inv(g0) && Step(g0, Panic(v)).Some? && recover.Recover?
    requires IsQuiet(before) && WithoutPanics(after)
    requires var raised := Step(g0, Panic(v)).value;
             && Run(raised, before).Some? && Step(Run(raised, before).value, recover).Some?
             && Run(Step(Run(raised, before).value, recover).value, after).Some?
    ensures var raised := Step(g0, Panic(v)).value;
            var atRecover := Run(raised, before).value;
            var g := Step(atRecover, recover).value;
            && Unwound(g0, v, atRecover, k, j, false) && Done(g0.frames, k, j) == Rounds(raised, before)
            && |atRecover.frames| > k + 2 && g.recovered == Some(v)
            && k < |g0.frames| && j <= |g0.frames[k].defers| && t <= |after| && Run(g, after[..t]).Some?
            && var left := |g0.frames[k].defers| - j + 1;
               if Rounds(g, after) < left then Unwound(g0, v, Run(g, after).value, k, j + Rounds(g, after), true)
               else Rounds(g, after[..t]) == left && Resumed(g0, Run(g, after[..t]).value, k)
  {
    hide *;
    var raised := Step(g0, Panic(v)).value;
    k, j := NobodyRecovers(g0, v, before);
    Unwinding.StepKeeps(g0, Panic(v));
    Unwinding.RunKeeps(raised, before);
    var atRecover := Run(raised, before).value;
    RecoversIn(g0, v, atRecover, k, j, recover);
    var g := Step(atRecover, recover).value;
    Unwinding.StepKeeps(atRecover, recover);
    t := UnwindsToResume(g0, v, g, k, j, after);
  }

  lemma RecoversIn(g0: Goroutine, v: Value, g: Goroutine, k: nat, j: nat, recover: Action)
    requires Inv(g0) && Inv(g) && recover.Recover? && Step(g, recover).Some?
    requires Stopped(g0, v, g) || Unwound(g0, v, g, k, j, false)
    ensures Unwound(g0, v, g, k, j, false) && !Stopped(g0, v, g) && |g.frames| > k + 2
    ensures Unwound(g0, v, Step(g, recover).value, k, j, true) && Step(g, recover).value.recovered == Some(v)
  {
    assert Unwound(g0, v, g, k, j, false) && |g.frames| > k + 2;
    assert Step(g, recover).value.recovered == Some(v) && !g.control.Raising?;
    hide *;
    StepProceeds(g0, v, g, k, j, false, recover);
  }

  // ----- it can always go on to its end

  lemma {:induction false} RoundsOn(g: Goroutine, xs: seq<Action>, ys: seq<Action>)
    requires Run(g, xs).Some?
    ensures Rounds(g, xs + ys) == Rounds(g, xs) + Rounds(Run(g, xs).value, ys)
    decreases xs
  {
    hide Step;
    if xs == [] {
      assert xs + ys == ys;
    } else {
      assert (xs + ys)[1..] == xs[1..] + ys && (xs + ys)[0] == xs[0];
      RoundsOn(Step(g, xs[0]).value, xs[1..], ys);
    }
  }

  lemma OneRound(g: Goroutine)
    requires Inv(g) && g.control.Raising?
    ensures Run(g, [Tick]).Some? && Rounds(g, [Tick]) == 1
  {
    hide Inv, RaiseRound;
    RoundIsPossible(g);
    assert [Tick][1..] == [];
    assert Rounds(Step(g, Tick).value, []) == 0;
  }

  /** Wherever an unwinding is, the code above its loop can be run until the loop makes a round. */
  lemma RoundFollows(g0: Goroutine, v: Value, g: Goroutine, k: nat, j: nat, rec: bool) returns (actions: seq<Action>)
    requires Inv(g) && Unwound(g0, v, g, k, j, rec)
    ensures IsQuiet(actions) && Run(g, actions).Some? && Rounds(g, actions) >= 1
  {
    LoopWaits(g0, v, g, k, j, rec);
    hide Inv, Unwound, Step;
    var before := [];
    if |g.frames| > k + 2 {
      before := LoopResumes(g, k + 2);
    }
    var h := Run(g, before).value;
    Unwinding.RunKeeps(g, before);
    OneRound(h);
    actions := before + [Tick];
    RunsOn(g, before, [Tick]);
    RoundsOn(g, before, [Tick]);
  }

  lemma LoopWaits(g0: Goroutine, v: Value, g: Goroutine, k: nat, j: nat, rec: bool)
    requires Unwound(g0, v, g, k, j, rec)
    ensures if |g.frames| > k + 2 then g.frames[k + 2].resume.PanicBody? && Innermost(g, k + 2) else g.control.Raising?
  {
  }

  lemma {:induction false} CanFinish(g0: Goroutine, v: Value, g: Goroutine, k: nat, j: nat)
    returns (actions: seq<Action>)
    requires Inv(g0) && Inv(g) && Unwound(g0, v, g, k, j, false)
    ensures IsQuiet(actions) && Run(g, actions).Some? && Stopped(g0, v, Run(g, actions).value)
    decreases Work(g0.frames, 0) - Done(g0.frames, k, j)
  {
    hide Inv, Unwound, Stopped, Step, Rounds;
    Reached(g0, v, g, k, j, false);
    actions := RoundFollows(g0, v, g, k, j, false);
    var k', j' := KeepsUnwinding(g0, v, g, k, j, actions);
    if Done(g0.frames, k, j) + Rounds(g, actions) < Work(g0.frames, 0) {
      var rest := CanFinish(g0, v, Run(g, actions).value, k', j');
      RunsOn(g, actions, rest);
      actions := actions + rest;
    }
  }

  lemma {:induction false} CanReturn(g0: Goroutine, v: Value, g: Goroutine, k: nat, j: nat)
    returns (actions: seq<Action>)
    requires Inv(g0) && Inv(g) && Unwound(g0, v, g, k, j, true)
    ensures k < |g0.frames| && IsQuiet(actions) && Run(g, actions).Some? && Resumed(g0, Run(g, actions).value, k)
    decreases if k < |g0.frames| then |g0.frames[k].defers| - j else 0
  {
    hide Inv, Unwound, Resumed, Step, Rounds;
    Reached(g0, v, g, k, j, true);
    actions := RoundFollows(g0, v, g, k, j, true);
    var t := UnwindsToResume(g0, v, g, k, j, actions);
    if Rounds(g, actions) < |g0.frames[k].defers| - j + 1 {
      Unwinding.RunKeeps(g, actions);
      var next := Run(g, actions).value;
      Reached(g0, v, next, k, j + Rounds(g, actions), true);
      var rest := CanReturn(g0, v, next, k, j + Rounds(g, actions));
      RunsOn(g, actions, rest);
      actions := actions + rest;
    } else {
      actions := actions[..t];
    }
  }

  /** Whatever has happened since a panic that nobody has recovered, the goroutine can go on to where the
      process stops with the panic's value. */
  lemma CanStop(g0: Goroutine, v: Value, actions: seq<Action>) returns (rest: seq<Action>)
    requires Inv(g0) && Step(g0, Panic(v)).Some?
    requires IsQuiet(actions) && Run(Step(g0, Panic(v)).value, actions).Some?
    ensures IsQuiet(rest)
    ensures var end := Run(Step(g0, Panic(v)).value, actions + rest);
            end.Some? && Stopped(g0, v, end.value)
  {
    hide *;
    var raised := Step(g0, Panic(v)).value;
    var k, j := NobodyRecovers(g0, v, actions);
    Unwinding.StepKeeps(g0, Panic(v));
    Unwinding.RunKeeps(raised, actions);
    var h := Run(raised, actions).value;
    rest := [];
    if Rounds(raised, actions) < Work(g0.frames, 0) {
      rest := CanFinish(g0, v, h, k, j);
      RunsOn(raised, actions, rest);
    } else {
      assert actions + [] == actions;
      assert IsQuiet([]) by { NothingIsQuiet(); }
    }
  }

  lemma NothingIsQuiet()
    ensures IsQuiet([])
  {
  }

  /** Whatever has happened since the first recovery, in a deferred call of frame `k`, the goroutine can go
      on to where that frame returns to its caller, or has been there. */
  lemma CanResume(g0: Goroutine, v: Value, before: seq<Action>, recover: Action, after: seq<Action>)
    returns (k: nat, last: seq<Action>)
    requires Inv(g0) && Step(g0, Panic(v)).Some? && recover.Recover?
    requires IsQuiet(before) && WithoutPanics(after)
    requires var raised := Step(g0, Panic(v)).value;
             && Run(raised, before).Some? && Step(Run(raised, before).value, recover).Some?
             && Run(Step(Run(raised, before).value, recover).value, after).Some?
    ensures last <= after || after <= last
    ensures var atRecover := Run(Step(g0, Panic(v)).value, before).value;
            var end := Run(Step(atRecover, recover).value, last);
            && k < |g0.frames| && k + 2 < |atRecover.frames| && atRecover.frames[k + 2].resume.PanicBody?
            && end.Some? && Resumed(g0, end.value, k)
  {
    hide *;
    var raised := Step(g0, Panic(v)).value;
    var atRecover := Run(raised, before).value;
    var j, t;
    k, j, t := RecoveryResumesCaller(g0, v, before, recover, after);
    LoopWaits(g0, v, atRecover, k, j, false);
    var g := Step(atRecover, recover).value;
    Unwinding.StepKeeps(g0, Panic(v));
    Unwinding.RunKeeps(raised, before);
    Unwinding.StepKeeps(atRecover, recover);
    if Rounds(g, after) < |g0.frames[k].defers| - j + 1 {
      Unwinding.RunKeeps(g, after);
      var rest := CanReturn(g0, v, Run(g, after).value, k, j + Rounds(g, after));
      RunsOn(g, after, rest);
      last := after + rest;
    } else {
      last := after[..t];
    }
  }
}
