/** The runtime's global state, and the loop that dispatches goroutines from its run queue. */
module RunQueue {
  import opened Options
  import opened Goroutines
  import opened ChannelInvariants
  import opened Communication

  /** How a goroutine's turn ends. To the queue, an operation that blocks is the same as a yield. */
  datatype Turn = Yields | Spawns | Ends

  function TurnActions(t: Turn): seq<Action> {
    match t
    case Yields => [Dispatch, Yield, Park]
    case Spawns => [Dispatch, Spawn, Park]
    case Ends => [Dispatch, Finish]
  }

  function Script(turns: seq<Turn>): seq<Action> {
    if turns == [] then [] else Script(turns[..|turns| - 1]) + TurnActions(turns[|turns| - 1])
  }

  ghost predicate BetweenTurns(s: State) {
    SystemInv(s) && (s.running.None? || s.exited) && forall id | id in s.pending :: s.pending[id].Idle?
  }

  lemma {:induction false} RunsInTurn(s: State, xs: seq<Action>, ys: seq<Action>)
    requires Run(s, xs).Some?
    ensures Run(s, xs + ys) == Run(Run(s, xs).value, ys)
    ensures Dispatched(s, xs + ys) == Dispatched(s, xs) + Dispatched(Run(s, xs).value, ys)
    decreases xs
  {
    hide Step;
    if xs == [] {
      assert xs + ys == ys;
    } else {
      assert (xs + ys)[1..] == xs[1..] + ys && (xs + ys)[0] == xs[0];
      RunsInTurn(Step(s, xs[0]).value, xs[1..], ys);
    }
  }

  lemma RunOne(s: State, a: Action, rest: seq<Action>)
    requires Step(s, a).Some?
    ensures Run(s, [a] + rest) == Run(Step(s, a).value, rest)
    ensures Dispatched(s, [a] + rest)
            == (if a.Dispatch? && s.queue != [] then [s.queue[0]] else []) + Dispatched(Step(s, a).value, rest)
  {
    assert ([a] + rest)[1..] == rest && ([a] + rest)[0] == a;
    hide Step;
  }

  /** A turn, step by step: from a state with an idle goroutine at the front of the queue. */
  lemma TurnRuns(s: State, t: Turn)
    requires s.running.None? && !s.exited && s.queue != [] && s.queue[0] in s.pending && s.pending[s.queue[0]].Idle?
    ensures Run(s, TurnActions(t)).Some? && Dispatched(s, TurnActions(t)) == [s.queue[0]]
    ensures var s' := Run(s, TurnActions(t)).value;
            var id := s.queue[0];
            && s'.running.None?
            && s'.pending == (match t
                              case Yields => s.pending
                              case Spawns => s.pending[s.created := Idle]
                              case Ends => s.pending - {id})
            && s'.created == s.created + (if t.Spawns? then 1 else 0)
            && s'.queue == s.queue[1..] + (if t.Spawns? then [s.created] else []) + (if t.Ends? then [] else [id])
            && s'.exited == (t.Ends? && id == 0)
  {
    hide TrySend, TryReceive, TrySelect, KnownOp;
    var a := match t case Yields => Yield case Spawns => Spawn case Ends => Finish;
    var s1 := Step(s, Dispatch).value;
    var s2 := Step(s1, a).value;
    var last: seq<Action> := if t.Ends? then [] else [Park];
    assert TurnActions(t) == [Dispatch] + ([a] + last);
    RunOne(s, Dispatch, [a] + last);
    RunOne(s1, a, last);
    if t.Ends? {
      assert Run(s2, last) == Some(s2);
    } else {
      RunOne(s2, Park, []);
      assert [Park] + [] == last;
    }
  }

  /** One turn: the first goroutine of the queue runs; what it spawns goes to the back, and then it does,
      unless it has ended. */
  lemma OneTurn(s: State, t: Turn)
    requires BetweenTurns(s) && !s.exited
    ensures s.queue != [] && Run(s, TurnActions(t)).Some?
    ensures var s' := Run(s, TurnActions(t)).value;
            var id := s.queue[0];
            && BetweenTurns(s')
            && s'.created == s.created + (if t.Spawns? then 1 else 0)
            && s'.queue == s.queue[1..] + (if t.Spawns? then [s.created] else []) + (if t.Ends? then [] else [id])
            && s'.exited == (t.Ends? && id == 0)
            && Dispatched(s, TurnActions(t)) == [id]
  {
    assert 0 in s.queue && s.queue[0] in s.queue;
    hide Run, Dispatched, TurnActions, SystemInv, Step;
    TurnRuns(s, t);
    RunKeeps(s, TurnActions(t));
  }

  /** After the first `done` turns. */
  ghost predicate Reached(turns: seq<Turn>, done: nat, s: State, trace: seq<nat>)
    requires done <= |turns|
  {
    && Run(Start(), Script(turns[..done])) == Some(s) && BetweenTurns(s)
    && trace == Dispatched(Start(), Script(turns[..done]))
  }

  lemma NoTurnsYet(turns: seq<Turn>)
    ensures Reached(turns, 0, Start(), [])
  {
    assert turns[..0] == [];
    Reachable([]);
  }

  lemma OneMoreTurn(turns: seq<Turn>, done: nat, s: State, trace: seq<nat>)
    requires done < |turns| && Reached(turns, done, s, trace) && !s.exited
    ensures s.queue != [] && Run(s, TurnActions(turns[done])).Some?
    ensures Reached(turns, done + 1, Run(s, TurnActions(turns[done])).value, trace + [s.queue[0]])
  {
    hide BetweenTurns, TurnActions, Step, Run, Dispatched;
    OneTurn(s, turns[done]);
    RunsInTurn(Start(), Script(turns[..done]), TurnActions(turns[done]));
    assert turns[..done + 1][..done] == turns[..done];
  }

  class GlobalContext {
    var createdLightWeightThreadCount: nat
    var runQueue: seq<nat>

    ghost predicate Mirrors(s: State)
      reads this
    {
      createdLightWeightThreadCount == s.created && runQueue == s.queue
    }

    constructor ()
      ensures createdLightWeightThreadCount == 0 && runQueue == []
    {
      createdLightWeightThreadCount := 0;
      runQueue := [];
    }

    method IssueLightWeightThreadId() returns (id: nat)
      modifies `createdLightWeightThreadCount
      ensures id == old(createdLightWeightThreadCount) && createdLightWeightThreadCount == id + 1
    {
      id := createdLightWeightThreadCount;
      createdLightWeightThreadCount := createdLightWeightThreadCount + 1;
    }

    method PushLightWeightThread(id: nat)
      modifies `runQueue
      ensures runQueue == old(runQueue) + [id]
    {
      runQueue := runQueue + [id];
    }

    method PopLightWeightThread() returns (id: Option<nat>)
      modifies `runQueue
      ensures old(runQueue) == [] ==> id == None && runQueue == []
      ensures old(runQueue) != [] ==> id == Some(old(runQueue)[0]) && runQueue == old(runQueue)[1..]
    {
      if runQueue == [] {
        id := None;
      } else {
        id := Some(runQueue[0]);
        runQueue := runQueue[1..];
      }
    }

    /** Takes a goroutine off the queue and lets it have its turn. */
    method TakeTurn(turn: Turn) returns (id: nat, exited: bool)
      requires runQueue != []
      modifies this
      ensures id == old(runQueue)[0] && exited == (turn.Ends? && id == 0)
      ensures createdLightWeightThreadCount == old(createdLightWeightThreadCount) + (if turn.Spawns? then 1 else 0)
      ensures runQueue == old(runQueue)[1..]
                          + (if turn.Spawns? then [old(createdLightWeightThreadCount)] else [])
                          + (if turn.Ends? then [] else [id])
    {
      exited := false;
      var popped := PopLightWeightThread();
      id := popped.value;
      match turn {
        case Yields => PushLightWeightThread(id);
        case Spawns =>
          var spawned := IssueLightWeightThreadId();
          PushLightWeightThread(spawned);
          PushLightWeightThread(id);
        case Ends => exited := id == 0;
      }
    }

    /** The main loop, for as long as `turns` says what the goroutines do: it dispatches in the order of the
        transition system, and its queue never runs empty. */
    method MainLoop(turns: seq<Turn>) returns (trace: seq<nat>, exited: bool, done: nat)
      requires createdLightWeightThreadCount == 0 && runQueue == []
      modifies this
      ensures done <= |turns| && (exited || done == |turns|)
      ensures Run(Start(), Script(turns[..done])).Some?
      ensures var s := Run(Start(), Script(turns[..done])).value;
              Mirrors(s) && exited == s.exited && trace == Dispatched(Start(), Script(turns[..done]))
    {
      var main := IssueLightWeightThreadId();
      PushLightWeightThread(main);
      trace, exited, done := [], false, 0;
      ghost var s := Start();
      NoTurnsYet(turns);
      while done < |turns| && !exited
        invariant done <= |turns| && exited == s.exited && Reached(turns, done, s, trace) && Mirrors(s)
        decreases |turns| - done
      {
        OneMoreTurn(turns, done, s, trace);
        OneTurn(s, turns[done]);
        hide Reached, BetweenTurns, TurnActions, Step, Run, Dispatched;
        var id;
        id, exited := TakeTurn(turns[done]);
        trace := trace + [id];
        s := Run(s, TurnActions(turns[done])).value;
        done := done + 1;
      }
    }
  }
}
