/** Where control is once a called function has returned, or the deferred calls of a function have run:
    at the label that was passed, on the frame that passed it. */
module ComingBack {
  import opened Options
  import opened Unwinding
  import opened LoopTurns
  import Emission
  import Trampoline

  /** A call of a function, or of the runtime function that runs the deferred calls of the frame on top. */
  predicate LeavesFrame(a: Action) {
    a.Call? || a.RunDefers?
  }

  /** In `g` the code did `a`, and what it called is still on the stack in `h`; of its deferred calls, if it
      had them run, `j` have been made. */
  ghost predicate Away(g: Goroutine, a: Action, h: Goroutine, j: nat) {
    var n := |g.frames|;
    && LeavesFrame(a) && 0 < n < |h.frames| && j <= |Top(g).defers|
    && h.frames[..n - 1] == g.frames[..n - 1] && h.frames[n].resume == Continuation(a.resume)
    && (forall i | n < i < |h.frames| :: h.frames[i].resume.Continuation? || h.frames[i].resume.ExecuteDefers?)
    && (h.control.UserCode? || h.control.Entering? || h.control.Executing?)
    && if a.Call? then
         && h.frames[n - 1] == Top(g) && h.frames[n].func == Some(a.func) && h.frames[n].args == a.args
       else
         && h.frames[n - 1] == Top(g).(defers := Top(g).defers[j..]) && h.frames[n].func.None?
         && (|h.frames| == n + 1 ==> h.control.Executing?)
         && (|h.frames| > n + 1 ==> h.frames[n + 1].resume.ExecuteDefers?)
  }

  /** Control is back on the frame, with all older frames as they were, and no deferred calls left if it had
      them run. */
  ghost predicate Back(g: Goroutine, a: Action, h: Goroutine) {
    var n := |g.frames|;
    && LeavesFrame(a) && n > 0 && h.control == UserCode(a.resume)
    && h.frames == g.frames[..n - 1] + [if a.Call? then Top(g) else Top(g).(defers := [])]
  }

  /** What is called is entered at its entry, on a frame of its own with the arguments that were passed. */
  lemma CallEnters(g: Goroutine, func: FunctionObject, args: seq<Value>, resume: Label, fn: nat)
    requires Step(g, Call(func, args, resume)).Some?
    requires func == Trampoline.Code(Emission.Entry(fn)) || exists captured :: func == Trampoline.Tagged(fn, captured)
    ensures var called := Step(g, Call(func, args, resume)).value;
            var entered := Step(called, Tick);
            && Away(g, Call(func, args, resume), called, 0)
            && entered.Some? && entered.value.control == UserCode(Emission.Entry(fn))
            && |entered.value.frames| == |g.frames| + 1 && Top(entered.value).args == args
            && Top(entered.value).freeVars == (if func.Tagged? then Some(func.captured) else None)
  {
    hide IsHere;
  }

  /** So is the function a goroutine starts with. */
  lemma LaunchEnters(func: FunctionObject, args: seq<Value>, fn: nat)
    requires func == Trampoline.Code(Emission.Entry(fn)) || exists captured :: func == Trampoline.Tagged(fn, captured)
    ensures var entered := Step(Launched(func, args), Tick);
            && entered.Some? && entered.value.control == UserCode(Emission.Entry(fn))
            && |entered.value.frames| == 1 && Top(entered.value).args == args && !entered.value.panicking
            && Top(entered.value).freeVars == (if func.Tagged? then Some(func.captured) else None)
  {
  }

  /** An action that calls no function goes on, on the same frames but for what it defers, at the label it
      names. */
  lemma GoesOn(g: Goroutine, a: Action, l: Label)
    requires Step(g, a).Some? && (a == Recover(l) || a == Continue(l) || (a.Defer? && a.resume == l))
    ensures var g' := Step(g, a).value;
            && g'.control == UserCode(l)
            && g'.frames == if a.Defer? then g.frames[..|g.frames| - 1] + [Top(g).(defers := [a.entry] + Top(g).defers)]
                            else g.frames
  {
    hide IsHere;
  }

  /** The loop that runs the deferred calls of the frame makes the next one, or is done. */
  lemma OwnRound(g: Goroutine, a: Action, h: Goroutine, j: nat)
    requires Away(g, a, h, j) && a.RunDefers? && |h.frames| == |g.frames| + 1
    ensures if j < |Top(g).defers| then Away(g, a, ExecuteRound(h), j + 1) else Back(g, a, ExecuteRound(h))
  {
    var n, h' := |g.frames|, ExecuteRound(h);
    assert Below(h) == n - 1;
    if j < |Top(g).defers| {
      assert Top(g).defers[j..][1..] == Top(g).defers[j + 1..];
      assert h'.frames[..n - 1] == h.frames[..n - 1];
    } else {
      assert h'.frames == h.frames[..n];
      assert h.frames[..n] == h.frames[..n - 1] + [h.frames[n - 1]];
    }
  }

  /** A frame is popped: one above those of `g` and of what was called, or the called function's own. */
  lemma PopStays(g: Goroutine, a: Action, h: Goroutine, j: nat)
    requires Inv(h) && Away(g, a, h, j) && (a.RunDefers? ==> |h.frames| > |g.frames| + 1)
    ensures if |h.frames| == |g.frames| + 1 then Back(g, a, PopAndResume(h)) else Away(g, a, PopAndResume(h), j)
  {
    var n, top, h' := |g.frames|, |h.frames| - 1, PopAndResume(h);
    assert LinkInv(h.frames, top);
    hide Inv, LinkInv;
    assert h'.frames == h.frames[..top];
    if top == n {
      assert h.frames[..n] == h.frames[..n - 1] + [h.frames[n - 1]];
      assert g.frames == g.frames[..n - 1] + [Top(g)];
    } else {
      assert h'.frames[..n - 1] == h.frames[..n - 1];
    }
  }

  /** Something is pushed, or the frame on top changes. */
  lemma TopStays(g: Goroutine, a: Action, h: Goroutine, h': Goroutine, j: nat)
    requires Away(g, a, h, j) && (a.RunDefers? ==> |h.frames| > |g.frames| + 1)
    requires |h.frames| <= |h'.frames| <= |h.frames| + 1
    requires forall i | 0 <= i < |g.frames| :: h'.frames[i] == h.frames[i]
    requires forall i | |g.frames| <= i < |h.frames| ::
               && h'.frames[i].resume == h.frames[i].resume && h'.frames[i].func == h.frames[i].func
               && h'.frames[i].args == h.frames[i].args
    requires |h'.frames| > |h.frames| ==>
               Top(h').resume.Continuation? || Top(h').resume.ExecuteDefers?
    requires h'.control.UserCode? || h'.control.Entering? || h'.control.Executing?
    requires h'.control.Executing? ==> |h'.frames| > |g.frames| + 1
    ensures Away(g, a, h', j)
  {
    var n := |g.frames|;
    assert h'.frames[..n - 1] == h.frames[..n - 1];
  }

  lemma RoundStays(g: Goroutine, a: Action, h: Goroutine, j: nat)
    requires Inv(h) && Away(g, a, h, j) && (a.RunDefers? ==> |h.frames| > |g.frames| + 1)
    requires h.control.Executing?
    ensures |h.frames| > |g.frames| + 1 && Away(g, a, ExecuteRound(h), j)
  {
    assert ControlInv(h) && Top(h).func.None?;
    assert |h.frames| > |g.frames| + 1;
    hide Inv;
    if h.frames[Below(h)].defers == [] {
      PopStays(g, a, h, j);
    } else {
      TopStays(g, a, h, ExecuteRound(h), j);
    }
  }

  /** One step of what was called: its own round, its return, or anything else, which leaves it on the stack. */
  lemma StepStays(g: Goroutine, a: Action, h: Goroutine, j: nat, b: Action)
    requires Inv(h) && Away(g, a, h, j) && !b.Panic? && Step(h, b).Some?
    ensures var h' := Step(h, b).value;
            if a.RunDefers? && |h.frames| == |g.frames| + 1 then
              if j < |Top(g).defers| then Away(g, a, h', j + 1) else Back(g, a, h')
            else if b.Return? && |h.frames| == |g.frames| + 1 then Back(g, a, h')
            else Away(g, a, h', j)
  {
    hide Inv, IsHere, ExecuteRound, LinkInv;
    if a.RunDefers? && |h.frames| == |g.frames| + 1 {
      OwnRound(g, a, h, j);
    } else if b.Return? {
      PopStays(g, a, h, j);
    } else if b.Tick? && h.control.Executing? {
      RoundStays(g, a, h, j);
    } else {
      TopStays(g, a, h, Step(h, b).value, j);
    }
  }

  /** The rounds of the loop whose frame is the `depth`-th on the stack. */
  function RoundsAt(depth: nat, g: Goroutine, actions: seq<Action>): nat
    decreases actions
  {
    if actions == [] || Step(g, actions[0]).None? then 0
    else
      (if g.control.Executing? && |g.frames| == depth then 1 else 0)
      + RoundsAt(depth, Step(g, actions[0]).value, actions[1..])
  }

  lemma PrefixRuns(depth: nat, g: Goroutine, actions: seq<Action>, t: nat)
    requires t < |actions| && Step(g, actions[0]).Some?
    ensures var next := Step(g, actions[0]).value;
            && Run(g, actions[..t + 1]) == Run(next, actions[1..][..t])
            && RoundsAt(depth, g, actions[..t + 1])
               == (if g.control.Executing? && |g.frames| == depth then 1 else 0)
                  + RoundsAt(depth, next, actions[1..][..t])
  {
    assert actions[..t + 1][0] == actions[0] && actions[..t + 1][1..] == actions[1..][..t];
    hide Step;
  }

  lemma NothingRuns(depth: nat, g: Goroutine, actions: seq<Action>)
    ensures Run(g, actions[..0]) == Some(g) && RoundsAt(depth, g, actions[..0]) == 0
  {
  }

  lemma {:induction false} StaysOrReturns(g: Goroutine, a: Action, h: Goroutine, j: nat, actions: seq<Action>)
    returns (t: nat, j': nat)
    requires Inv(h) && Away(g, a, h, j) && WithoutPanics(actions) && Run(h, actions).Some?
    ensures t <= |actions| && Run(h, actions[..t]).Some?
    ensures var end, rounds := Run(h, actions[..t]).value, RoundsAt(|g.frames| + 1, h, actions[..t]);
            if Back(g, a, end) then a.RunDefers? ==> j + rounds == |Top(g).defers| + 1
            else t == |actions| && Away(g, a, end, j') && (a.RunDefers? ==> j + rounds == j')
    decreases actions
  {
    hide Inv, Away, Back, Step;
    NotYetBack(g, a, h, j);
    NothingRuns(|g.frames| + 1, h, actions);
    t, j' := 0, j;
    if actions != [] {
      var next, rest := Step(h, actions[0]).value, actions[1..];
      assert WithoutPanics(rest) && !actions[0].Panic? && Run(next, rest) == Run(h, actions);
      StepKeeps(h, actions[0]);
      StepStays(g, a, h, j, actions[0]);
      var own := a.RunDefers? && |h.frames| == |g.frames| + 1;
      if if own then j == |Top(g).defers| else actions[0].Return? && |h.frames| == |g.frames| + 1 {
        t := 1;
        PrefixRuns(|g.frames| + 1, h, actions, 0);
        NothingRuns(|g.frames| + 1, next, rest);
      } else {
        t, j' := StaysOrReturns(g, a, next, if own then j + 1 else j, rest);
        PrefixRuns(|g.frames| + 1, h, actions, t);
        t := t + 1;
      }
    }
  }

  lemma NotYetBack(g: Goroutine, a: Action, h: Goroutine, j: nat)
    requires Away(g, a, h, j)
    ensures g.frames != [] && !Back(g, a, h) && j <= |Top(g).defers|
    ensures a.RunDefers? && |h.frames| == |g.frames| + 1 ==> h.control.Executing?
  {
  }

  /** In any run without panics, a called function stays on the stack until control is back where the call
      was to be resumed; and a frame that has its deferred calls run gets control back after as many rounds
      of the loop as it had deferred calls, and one. */
  lemma ComesBack(g: Goroutine, a: Action, actions: seq<Action>) returns (t: nat, j: nat)
    requires Inv(g) && LeavesFrame(a) && Step(g, a).Some?
    requires WithoutPanics(actions) && Run(Step(g, a).value, actions).Some?
    ensures t <= |actions| && Run(Step(g, a).value, actions[..t]).Some?
    ensures var end := Run(Step(g, a).value, actions[..t]).value;
            var rounds := RoundsAt(|g.frames| + 1, Step(g, a).value, actions[..t]);
            if Back(g, a, end) then a.RunDefers? ==> rounds == |Top(g).defers| + 1
            else t == |actions| && Away(g, a, end, j) && (a.RunDefers? ==> rounds == j)
  {
    StepKeeps(g, a);
    LeavingIsAway(g, a);
    hide *;
    t, j := StaysOrReturns(g, a, Step(g, a).value, 0, actions);
  }

  lemma LeavingIsAway(g: Goroutine, a: Action)
    requires LeavesFrame(a) && Step(g, a).Some?
    ensures g.frames != [] && Away(g, a, Step(g, a).value, 0)
  {
    hide IsHere;
  }
}
