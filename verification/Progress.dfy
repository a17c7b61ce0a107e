/** Bounded waiting: when one goroutine is parked sending and another receiving on a channel without a
    buffer, an operation on it completes before any goroutine has had two turns. */
module Progress {
  import opened Options
  import opened Channels
  import opened Goroutines
  import opened ChannelInvariants
  import opened Communication

  function Completed(s: State, ch: nat): nat {
    if ch in s.logs then |s.logs[ch].sends| + |s.logs[ch].receives| else 0
  }

  predicate Plain(s: State, ch: nat) {
    ch in s.logs && s.logs[ch].plain
  }

  /** Goroutine `id` has an attempt still to come: it is one of the first `m` in the run queue, or it was
      dispatched and has not yet tried. */
  predicate Due(s: State, m: nat, id: nat)
    requires m <= |s.queue|
  {
    id in s.queue[..m] || (s.running == Some(id) && !s.suspended)
  }

  predicate Waits(s: State, x: nat, y: nat, ch: nat) {
    && x in s.pending && s.pending[x].Sending? && s.pending[x].channel == ch
    && y in s.pending && s.pending[y] == Receiving(ch)
  }

  /** The goroutines one of whose next attempts completes an operation. */
  function Movers(state: RendezvousState<int>, x: nat, y: nat): set<nat> {
    match state
    case Initial => {x, y}
    case SenderReached(_, _) => {y}
    case ReceiverReached(_) => {x}
    case SenderReachedReceiverAccepted(id) => {id}
    case ReceiverReachedSenderAccepted(id, _) => {id}
  }

  /** As long as nothing completes, the attempts that matter are still to come. */
  ghost predicate Promising(s: State, m: nat, x: nat, y: nat, ch: nat) {
    && m <= |s.queue| && Waits(s, x, y, ch) && ch in s.channels && s.channels[ch].kind.Rendezvous?
    && forall id | id in Movers(s.channels[ch].kind.state, x, y) :: Due(s, m, id)
  }

  lemma LogsGrow(l: Log, c: Channel<int>, ch: nat, entries: seq<Entry<nat, int>>, id: nat, outcome: Outcome<int>)
    ensures var l' := LogSelect(l, c, ch, entries, id, outcome);
            |l.sends| <= |l'.sends| && |l.receives| <= |l'.receives| && (l'.plain ==> l.plain && !Listed(entries, ch))
  {
  }

  /** Attempts complete operations and never undo them; a channel that is no longer plain stays so. */
  lemma StepIsMonotonic(s: State, a: Action, ch: nat)
    requires s.logs.Keys == s.channels.Keys && Step(s, a).Some?
    ensures Completed(s, ch) <= Completed(Step(s, a).value, ch)
    ensures ch in s.logs ==> ch in Step(s, a).value.logs
    ensures ch in s.logs && Plain(Step(s, a).value, ch) ==> Plain(s, ch)
  {
    var s' := Step(s, a).value;
    hide Send, Receive, Select, LogAll, LogSelect;
    if a.Try? && s.pending[s.running.value].Selecting? {
      var entries, needBlock := s.pending[s.running.value].entries, s.pending[s.running.value].needBlock;
      assert Known(s.channels, entries);
      var outcome := Select(s.channels, entries, s.running.value, needBlock).1;
      if ch in s.logs {
        LogsGrow(s.logs[ch], s.channels[ch], ch, entries, s.running.value, outcome);
      }
    }
  }

  /** A goroutine that is in the middle of an operation stays due until it has tried. */
  lemma StaysDue(s: State, a: Action, m: nat, id: nat)
    requires Step(s, a).Some? && m <= |s.queue| && Due(s, m, id)
    requires id in s.pending && !s.pending[id].Idle?
    requires a.Try? ==> s.running != Some(id)
    requires a.Dispatch? ==> m > 0
    ensures var m' := if a.Dispatch? then m - 1 else m;
            m' <= |Step(s, a).value.queue| && Due(Step(s, a).value, m', id)
  {
    hide Send, Receive, Select, LogAll, LogSend, LogReceive;
    var s' := Step(s, a).value;
    match a
    case Dispatch => assert s.queue[..m] == [s.queue[0]] + s'.queue[..m - 1];
    case Try => assert s'.queue == s.queue;
    case Park => assert s'.queue[..m] == s.queue[..m];
    case Spawn => assert s'.queue[..m] == s.queue[..m];
    case _ =>
  }

  ghost predicate Setting(s: State, m: nat, x: nat, y: nat, ch: nat) {
    SystemInv(s) && Promising(s, m, x, y, ch) && Plain(s, ch)
  }

  lemma MoversAreBusy(s: State, m: nat, x: nat, y: nat, ch: nat, id: nat)
    requires Setting(s, m, x, y, ch) && id in Movers(s.channels[ch].kind.state, x, y)
    ensures id in s.pending && !s.pending[id].Idle? && !s.pending[id].Selecting? && s.pending[id].channel == ch
  {
    assert ChannelInv(s.channels[ch], s.logs[ch], s.pending, ch);
  }

  lemma OtherStepStaysPromising(s: State, a: Action, m: nat, x: nat, y: nat, ch: nat)
    requires Setting(s, m, x, y, ch) && Step(s, a).Some? && !a.Try?
    requires a.Dispatch? ==> m > 0
    requires Plain(Step(s, a).value, ch)
    ensures Promising(Step(s, a).value, if a.Dispatch? then m - 1 else m, x, y, ch)
  {
    hide AllChannels, Due, TrySend, TryReceive, TrySelect;
    var s' := Step(s, a).value;
    assert s'.channels[ch] == s.channels[ch] && Waits(s', x, y, ch);
    hide Step, SystemInv, Waits, QueueInv;
    forall id | id in Movers(s.channels[ch].kind.state, x, y)
      ensures var m' := if a.Dispatch? then m - 1 else m;
              m' <= |s'.queue| && Due(s', m', id)
    {
      MoversAreBusy(s, m, x, y, ch, id);
      StaysDue(s, a, m, id);
    }
  }

  /** An attempt on the channel either completes an operation or leaves the movers waiting. */
  lemma TryOnStaysPromising(s: State, m: nat, x: nat, y: nat, ch: nat)
    requires Setting(s, m, x, y, ch) && Step(s, Try).Some?
    requires var op := s.pending[s.running.value]; (op.Sending? || op.Receiving?) && op.channel == ch
    requires Completed(Step(s, Try).value, ch) == Completed(s, ch) && Plain(Step(s, Try).value, ch)
    ensures Promising(Step(s, Try).value, m, x, y, ch)
  {
    hide QueueInv, SystemInv, AllChannels, ChannelInv, Due, Waits, Step, TrySend, TryReceive, Movers, Completed;
    var s' := Step(s, Try).value;
    FewerMove(s, m, x, y, ch);
    forall id | id in Movers(s'.channels[ch].kind.state, x, y) ensures Due(s', m, id) {
      MoversAreBusy(s, m, x, y, ch, id);
      StaysDue(s, Try, m, id);
    }
  }

  /** After an attempt that completes nothing, whoever made it does not have to move. */
  lemma FewerMove(s: State, m: nat, x: nat, y: nat, ch: nat)
    requires Setting(s, m, x, y, ch) && Step(s, Try).Some?
    requires var op := s.pending[s.running.value]; (op.Sending? || op.Receiving?) && op.channel == ch
    requires Completed(Step(s, Try).value, ch) == Completed(s, ch) && Plain(Step(s, Try).value, ch)
    ensures var s' := Step(s, Try).value;
            && Waits(s', x, y, ch) && ch in s'.channels && s'.channels[ch].kind.Rendezvous?
            && |s'.queue| == |s.queue| && s.running.Some?
            && Movers(s'.channels[ch].kind.state, x, y)
               <= Movers(s.channels[ch].kind.state, x, y) - {s.running.value}
  {
    assert ChannelInv(s.channels[ch], s.logs[ch], s.pending, ch);
    hide QueueInv, SystemInv, AllChannels, ChannelInv, ValuesInv, PairsInv, Due;
  }

  /** An attempt on another channel, or a select that does not list the channel, does not touch it. */
  lemma TryElsewhereLeaves(s: State, ch: nat)
    requires SystemInv(s) && Step(s, Try).Some? && ch in s.channels && Plain(Step(s, Try).value, ch)
    requires var op := s.pending[s.running.value]; op.Selecting? || op.channel != ch
    ensures ch in Step(s, Try).value.channels && Step(s, Try).value.channels[ch] == s.channels[ch]
  {
    hide Send, Receive, LogSend, LogReceive, SystemInv, TrySelect;
    if s.pending[s.running.value].Selecting? {
      SelectElsewhereLeaves(s, ch);
    }
  }

  lemma SelectElsewhereLeaves(s: State, ch: nat)
    requires SystemInv(s) && Step(s, Try).Some? && ch in s.channels && Plain(Step(s, Try).value, ch)
    requires s.pending[s.running.value].Selecting?
    ensures ch in Step(s, Try).value.channels && Step(s, Try).value.channels[ch] == s.channels[ch]
  {
    hide Select, LogAll, LogSelect, SystemInv, WellFormed, CanCompleteSend, Send, Receive, TrySend, TryReceive;
    var id := s.running.value;
    var entries, needBlock := s.pending[id].entries, s.pending[id].needBlock;
    assert Known(s.channels, entries);
    WellFormedAll(s);
    SelectOn(s.channels, entries, id, needBlock, ch);
    var outcome := Select(s.channels, entries, id, needBlock).1;
    LogsGrow(s.logs[ch], s.channels[ch], ch, entries, id, outcome);
    assert !Listed(entries, ch);
  }

  /** The two still wait after an attempt that left their channel as it was. */
  lemma StillWaits(s: State, m: nat, x: nat, y: nat, ch: nat)
    requires Setting(s, m, x, y, ch) && Step(s, Try).Some?
    requires var op := s.pending[s.running.value]; op.Selecting? || op.channel != ch
    ensures Waits(Step(s, Try).value, x, y, ch) && |Step(s, Try).value.queue| == |s.queue|
  {
    hide SystemInv, Due, Send, Receive, Select, LogAll, LogSend, LogReceive, Movers;
  }

  lemma TryElsewhereStaysPromising(s: State, m: nat, x: nat, y: nat, ch: nat)
    requires Setting(s, m, x, y, ch) && Step(s, Try).Some? && Plain(Step(s, Try).value, ch)
    requires var op := s.pending[s.running.value]; op.Selecting? || op.channel != ch
    ensures Promising(Step(s, Try).value, m, x, y, ch)
  {
    hide SystemInv, Due, Step, Waits, Movers;
    TryElsewhereLeaves(s, ch);
    StillWaits(s, m, x, y, ch);
    var s' := Step(s, Try).value;
    forall id | id in Movers(s.channels[ch].kind.state, x, y) ensures m <= |s'.queue| && Due(s', m, id) {
      MoversAreBusy(s, m, x, y, ch, id);
      StaysDue(s, Try, m, id);
    }
  }

  lemma NobodyDue(s: State, id: nat)
    requires s.running.None?
    ensures !Due(s, 0, id)
  {
    assert s.queue[..0] == [];
  }

  lemma StepStaysPromising(s: State, a: Action, m: nat, x: nat, y: nat, ch: nat)
    requires Setting(s, m, x, y, ch) && Step(s, a).Some?
    requires Completed(Step(s, a).value, ch) == Completed(s, ch) && Plain(Step(s, a).value, ch)
    ensures a.Dispatch? ==> m > 0
    ensures Setting(Step(s, a).value, if a.Dispatch? then m - 1 else m, x, y, ch)
  {
    StepKeeps(s, a);
    if a.Dispatch? && m == 0 {
      var id :| id in Movers(s.channels[ch].kind.state, x, y);
      NobodyDue(s, id);
      assert false;
    }
    hide SystemInv, Promising, TrySend, TryReceive, TrySelect;
    if !a.Try? {
      OtherStepStaysPromising(s, a, m, x, y, ch);
    } else if s.pending[s.running.value].Selecting? || s.pending[s.running.value].channel != ch {
      TryElsewhereStaysPromising(s, m, x, y, ch);
    } else {
      TryOnStaysPromising(s, m, x, y, ch);
    }
  }

  lemma {:induction false} RunIsMonotonic(s: State, actions: seq<Action>, ch: nat)
    requires SystemInv(s) && Run(s, actions).Some? && ch in s.logs
    ensures Completed(s, ch) <= Completed(Run(s, actions).value, ch)
    ensures Plain(Run(s, actions).value, ch) ==> Plain(s, ch)
    decreases actions
  {
    hide Step, SystemInv, Completed, Plain;
    if actions != [] {
      WellFormedAll(s);
      StepKeeps(s, actions[0]);
      StepIsMonotonic(s, actions[0], ch);
      RunIsMonotonic(Step(s, actions[0]).value, actions[1..], ch);
    }
  }

  lemma {:induction false} WithinTheBound(s: State, actions: seq<Action>, m: nat, x: nat, y: nat, ch: nat)
    requires Setting(s, m, x, y, ch) && Run(s, actions).Some?
    requires Completed(Run(s, actions).value, ch) == Completed(s, ch) && Plain(Run(s, actions).value, ch)
    ensures |Dispatched(s, actions)| <= m
    decreases actions
  {
    if actions != [] {
      var a, rest := actions[0], actions[1..];
      var next := Step(s, a).value;
      StepKeeps(s, a);
      WellFormedAll(s);
      StepIsMonotonic(s, a, ch);
      assert ch in s.logs && SystemInv(next) && Plain(s, ch);
      assert Run(s, actions) == Run(next, rest);
      hide Step, SystemInv, Completed, Plain, Promising;
      RunIsMonotonic(next, rest, ch);
      StepStaysPromising(s, a, m, x, y, ch);
      WithinTheBound(next, rest, if a.Dispatch? then m - 1 else m, x, y, ch);
    }
  }

  /** Once `x` is parked sending and `y` receiving on a channel without a buffer, an operation on it
      completes by the time every goroutine now queued has had one turn; in particular before `x`, `y`
      or any other goroutine now queued is dispatched a second time. */
  lemma SomethingCompletes(before: seq<Action>, actions: seq<Action>, x: nat, y: nat, ch: nat)
    requires Run(Start(), before).Some?
    requires var s := Run(Start(), before).value;
             && s.running.None? && Waits(s, x, y, ch) && ch in s.channels && s.channels[ch].kind.Rendezvous?
             && Run(s, actions).Some? && Plain(Run(s, actions).value, ch)
    ensures var s := Run(Start(), before).value;
            var turns := Dispatched(s, actions);
            && (|turns| > |s.queue| ==> Completed(Run(s, actions).value, ch) > Completed(s, ch))
            && (forall i, j | 0 <= i < j < |turns| && turns[i] == turns[j] && turns[i] in s.queue ::
                  Completed(Run(s, actions).value, ch) > Completed(s, ch))
  {
    var s := Run(Start(), before).value;
    Reachable(before);
    RunIsMonotonic(s, actions, ch);
    if Completed(Run(s, actions).value, ch) == Completed(s, ch) {
      WellFormedAll(s);
      AllDue(s, x, y, ch);
      WithinTheBound(s, actions, |s.queue|, x, y, ch);
      var turns := Dispatched(s, actions);
      forall k | 0 <= k < |turns| ensures turns[k] == s.queue[k] {
        TurnsAreInOrder(s, actions, k);
      }
    }
  }

  lemma AllDue(s: State, x: nat, y: nat, ch: nat)
    requires SystemInv(s) && s.running.None? && Waits(s, x, y, ch) && Plain(s, ch)
    requires ch in s.channels && s.channels[ch].kind.Rendezvous?
    ensures Setting(s, |s.queue|, x, y, ch)
  {
    assert ChannelInv(s.channels[ch], s.logs[ch], s.pending, ch);
    assert s.queue[..|s.queue|] == s.queue;
  }
}
