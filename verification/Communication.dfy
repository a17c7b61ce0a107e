/** The main results about goroutines: over every run, values are conserved, hand-offs pair up, and the
    run queue is fair. */
module Communication {
  import opened Options
  import opened Sequences
  import opened Channels
  import opened Goroutines
  import opened ChannelInvariants

  lemma Reachable(actions: seq<Action>)
    requires Run(Start(), actions).Some?
    ensures SystemInv(Run(Start(), actions).value)
  {
    assert SystemInv(Start());
    RunKeeps(Start(), actions);
  }

  // ----- what was asked for

  /** The capacity that `ch` was made with. */
  function AskedFor(actions: seq<Action>, ch: nat): Option<nat>
    decreases actions
  {
    if actions == [] then None
    else if actions[0].MakeChannel? && actions[0].channel == ch then Some(actions[0].capacity)
    else AskedFor(actions[1..], ch)
  }

  /** An attempt leaves every channel of its kind and capacity, and open or closed as it was. */
  lemma TryKeepsMake(s: State, ch: nat)
    requires SystemInv(s) && Step(s, Try).Some?
    ensures Step(s, Try).value.channels.Keys == s.channels.Keys
    ensures ch in s.channels ==>
              var c' := Step(s, Try).value.channels[ch];
              SameMake(s.channels[ch], c') && c'.isClosed == s.channels[ch].isClosed
  {
    hide WellFormed, SystemInv, SameMake, TrySend, TryReceive, TrySelect;
    WellFormedAll(s);
    var id := s.running.value;
    match s.pending[id]
    case Sending(c, v) => OneKeepsMake(s, id, c, v, ch);
    case Receiving(c) => OneKeepsMake(s, id, c, 0, ch);
    case Selecting(entries, needBlock) => AllKeepMake(s, id, entries, needBlock, ch);
    case Idle =>
  }

  lemma WellFormedAll(s: State)
    requires SystemInv(s)
    ensures s.logs.Keys == s.channels.Keys && forall k | k in s.channels :: WellFormed(s.channels[k])
  {
    forall k | k in s.channels ensures WellFormed(s.channels[k]) {
      assert ChannelInv(s.channels[k], s.logs[k], s.pending, k);
    }
  }

  lemma OneKeepsMake(s: State, id: nat, c: nat, v: int, ch: nat)
    requires (forall k | k in s.channels :: WellFormed(s.channels[k])) && c in s.channels && c in s.logs
    ensures forall s' | s' == TrySend(s, id, c, v) || s' == TryReceive(s, id, c) ::
              && s'.channels.Keys == s.channels.Keys
              && (ch in s.channels ==>
                    SameMake(s.channels[ch], s'.channels[ch]) && s'.channels[ch].isClosed == s.channels[ch].isClosed)
  {
    hide WellFormed, InFlight, LogSend, LogReceive, Send, Receive;
    StepsAreFifo(s.channels[c], id, v);
  }

  lemma AllKeepMake(s: State, id: nat, entries: seq<Entry<nat, int>>, needBlock: bool, ch: nat)
    requires (forall k | k in s.channels :: WellFormed(s.channels[k])) && KnownOp(s, Selecting(entries, needBlock))
    ensures var s' := TrySelect(s, id, entries, needBlock);
            && s'.channels.Keys == s.channels.Keys
            && (ch in s.channels ==>
                  SameMake(s.channels[ch], s'.channels[ch]) && s'.channels[ch].isClosed == s.channels[ch].isClosed)
  {
    hide WellFormed, InFlight, LogAll, Select;
    SelectKeepsMake(s.channels, entries, id, needBlock, ch);
  }

  lemma SelectKeepsMake(m: map<nat, Channel<int>>, entries: seq<Entry<nat, int>>, id: nat, needBlock: bool, ch: nat)
    requires Known(m, entries) && forall k | k in m :: WellFormed(m[k])
    ensures var m' := Select(m, entries, id, needBlock).0;
            && m'.Keys == m.Keys
            && (ch in m ==> SameMake(m[ch], m'[ch]) && m'[ch].isClosed == m[ch].isClosed)
  {
    hide Select, Send, Receive, InFlight, WellFormed;
    SelectTransfersOnce(m, entries, id, needBlock);
    var (m', outcome) := Select(m, entries, id, needBlock);
    if (outcome.SentOn? || outcome.ReceivedOn?) && entries[outcome.index].channel == ch {
      StepsAreFifo(m[ch], id, if outcome.SentOn? then entries[outcome.index].send.value else 0);
    }
  }

  lemma StepKeepsMake(s: State, a: Action, ch: nat)
    requires SystemInv(s) && Step(s, a).Some?
    ensures var s' := Step(s, a).value;
            if ch in s.channels then
              && ch in s'.channels && SameMake(s.channels[ch], s'.channels[ch])
              && !(a.MakeChannel? && a.channel == ch)
              && s'.channels[ch].isClosed == (s.channels[ch].isClosed || a == Close(ch))
            else if a.MakeChannel? && a.channel == ch then ch in s'.channels && s'.channels[ch] == New(a.capacity)
            else ch !in s'.channels && a != Close(ch)
  {
    hide SystemInv, TrySend, TryReceive, TrySelect;
    if a.Try? { TryKeepsMake(s, ch); }
  }

  /** A channel is there if it was made, has the kind and capacity that it was made with, and is closed if
      and only if it was closed. */
  lemma {:induction false} MadeAsAsked(s: State, actions: seq<Action>, ch: nat)
    requires SystemInv(s) && Run(s, actions).Some?
    ensures var s' := Run(s, actions).value;
            && (ch in s'.channels <==> ch in s.channels || AskedFor(actions, ch).Some?)
            && (ch in s.channels ==>
                  && SameMake(s.channels[ch], s'.channels[ch])
                  && s'.channels[ch].isClosed == (s.channels[ch].isClosed || Close(ch) in actions))
            && (ch !in s.channels && ch in s'.channels ==>
                  && SameMake(New(AskedFor(actions, ch).value), s'.channels[ch])
                  && s'.channels[ch].isClosed == (Close(ch) in actions))
    decreases actions
  {
    hide SystemInv, Step;
    if actions != [] {
      var next := Step(s, actions[0]).value;
      assert actions == [actions[0]] + actions[1..];
      ChannelInvariants.StepKeeps(s, actions[0]);
      StepKeepsMake(s, actions[0], ch);
      MadeAsAsked(next, actions[1..], ch);
    }
  }

  /** An attempt leaves the goroutine suspended, in the middle of its operation, exactly when the operation
      cannot complete now: a closed channel does not keep a receiver waiting, nor one that is not ready a
      select that need not block. */
  lemma BlocksExactly(s: State)
    requires SystemInv(s) && Step(s, Try).Some?
    ensures var s' := Step(s, Try).value;
            var id := s.running.value;
            && s'.running == s.running && id in s.pending && id in s'.pending
            && (s'.suspended <==>
                match s.pending[id]
                case Sending(c, _) => !CanCompleteSend(s.channels[c], id)
                case Receiving(c) => !CanCompleteReceive(s.channels[c], id) && !s.channels[c].isClosed
                case Selecting(entries, needBlock) =>
                  needBlock && forall i | 0 <= i < |entries| ::
                                 !IsReady(s.channels, entries[i], id) && !ReceivesClosed(s.channels, entries[i])
                case Idle => false)
            && s'.pending[id] == (if s'.suspended then s.pending[id] else Idle)
            && forall other | other in s.pending && other != id ::
                 other in s'.pending && s'.pending[other] == s.pending[other]
  {
    AllWellFormed(s.channels, s.logs, s.pending);
    hide WellFormed, InFlight, LogAll, LogSend, LogReceive, Send, Receive, Select, SystemInv, CanCompleteSend,
      CanCompleteReceive;
    var id := s.running.value;
    match s.pending[id]
    case Sending(c, v) => SendIsExact(s.channels[c], id, v);
    case Receiving(c) =>
      ReceiveIsExact(s.channels[c], id);
      ClosedOrBlocked(s.channels[c], id);
    case Selecting(entries, needBlock) => SelectTransfersOnce(s.channels, entries, id, needBlock);
    case Idle =>
  }

  lemma ClosedOrBlocked(c: Channel<int>, id: nat)
    ensures !Receive(c, id).1.Received? ==> (Receive(c, id).1.Closed? <==> c.isClosed)
  {
  }

  // ----- what is possible

  /** Goroutines are in the middle of operations on channels that exist. */
  ghost predicate OpsKnown(s: State) {
    s.logs.Keys == s.channels.Keys
    && forall id | id in s.pending && !s.pending[id].Idle? :: KnownOp(s, s.pending[id])
  }

  lemma StillKnown(s: State, s': State, op: Pending)
    requires KnownOp(s, op) && s.channels.Keys <= s'.channels.Keys && s.logs.Keys <= s'.logs.Keys
    ensures KnownOp(s', op)
  {
  }

  lemma TryKeepsKnown(s: State)
    requires SystemInv(s) && OpsKnown(s) && Step(s, Try).Some?
    ensures OpsKnown(Step(s, Try).value)
  {
    hide KnownOp;
    var s' := Step(s, Try).value;
    BlocksExactly(s);
    TryKeepsQueue(s);
    TryKeepsMake(s, 0);
    LogsStay(s);
    forall id | id in s'.pending && !s'.pending[id].Idle? ensures KnownOp(s', s'.pending[id]) {
      StillKnown(s, s', s.pending[id]);
    }
  }

  lemma LogsStay(s: State)
    requires SystemInv(s) && OpsKnown(s) && Step(s, Try).Some?
    ensures Step(s, Try).value.logs.Keys == s.logs.Keys
  {
    hide Send, Receive, Select, LogSend, LogReceive, LogSelect, SystemInv;
  }

  lemma StepKeepsKnown(s: State, a: Action)
    requires SystemInv(s) && OpsKnown(s) && Step(s, a).Some?
    ensures OpsKnown(Step(s, a).value)
  {
    if a.Try? {
      TryKeepsKnown(s);
    } else {
      hide KnownOp, SystemInv;
      var s' := Step(s, a).value;
      forall id | id in s'.pending && !s'.pending[id].Idle? ensures KnownOp(s', s'.pending[id]) {
        if a.Begin? && id == s.running.value {
          StillKnown(s, s', a.op);
        } else {
          StillKnown(s, s', s.pending[id]);
        }
      }
    }
  }

  lemma {:induction false} RunKeepsKnown(s: State, actions: seq<Action>)
    requires SystemInv(s) && OpsKnown(s) && Run(s, actions).Some?
    ensures OpsKnown(Run(s, actions).value)
    decreases actions
  {
    hide Step, SystemInv, OpsKnown;
    if actions != [] {
      ChannelInvariants.StepKeeps(s, actions[0]);
      StepKeepsKnown(s, actions[0]);
      RunKeepsKnown(Step(s, actions[0]).value, actions[1..]);
    }
  }

  /** Nothing gets stuck, in any run, until the process exits: without a running goroutine the dispatcher takes
      one; one that is suspended is put back; one in the middle of an operation attempts it; and one that
      runs code can end, give way, start another, close any open channel, and begin any operation on channels
      that were made. */
  lemma AlwaysPossible(actions: seq<Action>)
    requires Run(Start(), actions).Some? && !Run(Start(), actions).value.exited
    ensures var s := Run(Start(), actions).value;
            if s.running.None? then Step(s, Dispatch).Some?
            else if s.suspended then Step(s, Park).Some?
            else if s.running.value !in s.pending then false
            else if !s.pending[s.running.value].Idle? then Step(s, Try).Some?
            else
              && Step(s, Finish).Some? && Step(s, Yield).Some? && Step(s, Spawn).Some?
              && (forall ch | ch in s.channels ::
                    && (Step(s, Close(ch)).Some? <==> Close(ch) !in actions)
                    && Step(s, Begin(Receiving(ch))).Some? && forall v :: Step(s, Begin(Sending(ch, v))).Some?)
              && forall ch, capacity :: Step(s, MakeChannel(ch, capacity)).Some? <==> AskedFor(actions, ch).None?
  {
    hide *;
    StartIsKnown();
    Reachable(actions);
    Reachable([]);
    RunKeepsKnown(Start(), actions);
    MainKeepsRunning(actions);
    var s := Run(Start(), actions).value;
    forall ch: nat
      ensures (ch in s.channels <==> AskedFor(actions, ch).Some?)
              && (ch in s.channels ==> s.channels[ch].isClosed == (Close(ch) in actions))
    {
      MadeAsAsked(Start(), actions, ch);
      NoneAtStart(ch);
    }
    PossibleNow(s);
  }

  lemma NoneAtStart(ch: nat)
    ensures ch !in Start().channels
  {
  }

  lemma StartIsKnown()
    ensures Run(Start(), []) == Some(Start()) && OpsKnown(Start())
  {
  }

  lemma PossibleNow(s: State)
    requires SystemInv(s) && OpsKnown(s) && !s.exited && (s.running.None? ==> Step(s, Dispatch).Some?)
    ensures s.running.Some? ==> s.running.value in s.pending
    ensures s.running.Some? && s.suspended ==> Step(s, Park).Some?
    ensures s.running.Some? && !s.suspended && !s.pending[s.running.value].Idle? ==> Step(s, Try).Some?
    ensures s.running.Some? && !s.suspended && s.pending[s.running.value].Idle? ==>
              && Step(s, Finish).Some? && Step(s, Yield).Some? && Step(s, Spawn).Some?
              && (forall ch | ch in s.channels ::
                    && (Step(s, Close(ch)).Some? <==> !s.channels[ch].isClosed)
                    && Step(s, Begin(Receiving(ch))).Some? && forall v :: Step(s, Begin(Sending(ch, v))).Some?)
              && forall ch, capacity :: Step(s, MakeChannel(ch, capacity)).Some? <==> ch !in s.channels
  {
    hide TrySend, TryReceive, TrySelect, SystemInv, QueueInv;
    RunningIsThere(s);
  }

  lemma RunningIsThere(s: State)
    requires SystemInv(s)
    ensures s.running.Some? ==> s.running.value in s.pending
  {
  }

  // ----- main results

  /** Values come out of a channel in the order they went in, none lost and none twice, with selects and
      closes allowed; and on a channel without a buffer, completed sends and receives stay in step. */
  lemma ValuesConserved(actions: seq<Action>, ch: nat)
    requires Run(Start(), actions).Some? && ch in Run(Start(), actions).value.channels
    ensures var s := Run(Start(), actions).value;
            ch in s.logs &&
            var c, l := s.channels[ch], s.logs[ch];
            && AskedFor(actions, ch).Some?
            && var capacity := AskedFor(actions, ch).value;
            && l.deposited == l.delivered + InFlight(c)
            && (c.kind.Buffered? <==> capacity > 0)
            && |InFlight(c)| <= (if capacity > 0 then capacity else 1)
            && (c.isClosed <==> Close(ch) in actions)
            && |l.receives| == |l.delivered| && (forall i | 0 <= i < |l.receives| :: l.receives[i].1 == l.delivered[i])
            && |l.sends| <= |l.deposited| <= |l.sends| + 1
            && (forall i | 0 <= i < |l.sends| :: l.sends[i].1 == l.deposited[i])
            && (c.kind.Buffered? ==> |l.deposited| == |l.sends|)
            && (c.kind.Rendezvous? ==> -1 <= |l.sends| - |l.receives| <= 1)
  {
    Reachable(actions);
    Reachable([]);
    MadeAsAsked(Start(), actions, ch);
    var s := Run(Start(), actions).value;
    assert ChannelInv(s.channels[ch], s.logs[ch], s.pending, ch);
  }

  /** A sender named by a channel is waiting, or about to try again, in a plain send on that channel of
      the value the channel holds or has just delivered; no select is ever told that it may finish that send. */
  lemma SenderIsWaiting(actions: seq<Action>, ch: nat)
    requires Run(Start(), actions).Some? && ch in Run(Start(), actions).value.channels
    ensures var s := Run(Start(), actions).value;
            ch in s.logs &&
            var c, l := s.channels[ch], s.logs[ch];
            HoldsSender(c) ==>
              var id := c.kind.state.senderId;
              && id in s.pending && (id in s.queue || s.running == Some(id))
              && l.deposited != [] && s.pending[id] == Sending(ch, l.deposited[|l.deposited| - 1])
              && (forall other | other in s.pending && s.pending[other].Selecting? :: !CanCompleteSend(c, other))
  {
    Reachable(actions);
    var s := Run(Start(), actions).value;
    assert ChannelInv(s.channels[ch], s.logs[ch], s.pending, ch);
  }

  /** On a channel without a buffer, the k-th completed send and the k-th completed receive are the two
      sides of one hand-off, with the same value. When the channel saw plain sends and receives only,
      the goroutine it names is in the matching operation. */
  lemma HandOffsPair(actions: seq<Action>, ch: nat)
    requires Run(Start(), actions).Some? && ch in Run(Start(), actions).value.channels
    requires Run(Start(), actions).value.channels[ch].kind.Rendezvous?
    ensures var s := Run(Start(), actions).value;
            ch in s.logs &&
            var state, l := s.channels[ch].kind.state, s.logs[ch];
            && (forall k | 0 <= k < |l.sends| && k < |l.pairs| :: l.sends[k] == (l.pairs[k].sender, l.pairs[k].v))
            && (forall k | 0 <= k < |l.receives| && k < |l.pairs| ::
                  l.receives[k] == (l.pairs[k].receiver, l.pairs[k].v))
            && (!state.SenderReachedReceiverAccepted? ==> |l.sends| == |l.pairs|)
            && (!state.ReceiverReachedSenderAccepted? ==> |l.receives| == |l.pairs|)
            && (state.SenderReachedReceiverAccepted? ==>
                  |l.sends| + 1 == |l.pairs| && l.pairs[|l.sends|].sender == state.senderId)
            && (state.ReceiverReachedSenderAccepted? ==>
                  |l.receives| + 1 == |l.pairs| && l.pairs[|l.receives|].receiver == state.receiverId
                  && l.pairs[|l.receives|].v == state.data)
            && (l.plain && (state.ReceiverReached? || state.ReceiverReachedSenderAccepted?) ==>
                  && state.receiverId in s.pending && s.pending[state.receiverId] == Receiving(ch)
                  && (state.receiverId in s.queue || s.running == Some(state.receiverId)))
  {
    Reachable(actions);
    var s := Run(Start(), actions).value;
    assert ChannelInv(s.channels[ch], s.logs[ch], s.pending, ch);
  }

  // ----- the run queue

  /** The goroutines taken from the run queue, in order. */
  function Dispatched(s: State, actions: seq<Action>): seq<nat>
    decreases actions
  {
    if actions == [] || Step(s, actions[0]).None? then []
    else
      (if actions[0].Dispatch? && s.queue != [] then [s.queue[0]] else [])
      + Dispatched(Step(s, actions[0]).value, actions[1..])
  }

  /** The goroutines put on the run queue, in order. */
  function Enqueued(s: State, actions: seq<Action>): seq<nat>
    decreases actions
  {
    if actions == [] || Step(s, actions[0]).None? then []
    else
      (match actions[0]
       case Park => if s.running.Some? then [s.running.value] else []
       case Spawn => [s.created]
       case _ => [])
      + Enqueued(Step(s, actions[0]).value, actions[1..])
  }

  lemma QueueOneStep(s: State, a: Action)
    requires Step(s, a).Some?
    ensures s.queue + Enqueued(s, [a]) == Dispatched(s, [a]) + Step(s, a).value.queue
  {
    hide Send, Receive, Select, LogAll, LogSend, LogReceive;
    var s' := Step(s, a).value;
    assert [a][1..] == [];
    assert Enqueued(s', []) == [] && Dispatched(s', []) == [];
    if a.Dispatch? {
      assert s.queue == [s.queue[0]] + s.queue[1..];
    }
  }

  /** The run queue is first in, first out. */
  lemma {:induction false} QueueIsFifo(s: State, actions: seq<Action>)
    requires Run(s, actions).Some?
    ensures s.queue + Enqueued(s, actions) == Dispatched(s, actions) + Run(s, actions).value.queue
    decreases actions
  {
    hide Step;
    if actions != [] {
      var a, rest := actions[0], actions[1..];
      var next := Step(s, a).value;
      QueueIsFifo(next, rest);
      QueueOneStep(s, a);
      assert [a][1..] == [];
      var e, d := Enqueued(s, [a]), Dispatched(s, [a]);
      assert Enqueued(next, []) == [] && Dispatched(next, []) == [];
      assert Enqueued(s, actions) == e + Enqueued(next, rest);
      assert Dispatched(s, actions) == d + Dispatched(next, rest);
      OneAfterTheOther(s.queue, e, d, next.queue, Enqueued(next, rest), Dispatched(next, rest),
                       Run(s, actions).value.queue);
    }
  }

  lemma OneAfterTheOther(q: seq<nat>, e: seq<nat>, d: seq<nat>, q': seq<nat>, e': seq<nat>, d': seq<nat>,
                         last: seq<nat>)
    requires q + e == d + q' && q' + e' == d' + last
    ensures q + (e + e') == (d + d') + last
  {
    assert q + (e + e') == (q + e) + e' == d + (q' + e') == (d + d') + last;
  }

  /** The goroutine at position `k` is the one dispatched after exactly `k` others, whatever is spawned
      or suspended in the meantime. */
  lemma TurnsAreInOrder(s: State, actions: seq<Action>, k: nat)
    requires Run(s, actions).Some? && k < |s.queue|
    ensures k < |Dispatched(s, actions)| ==> Dispatched(s, actions)[k] == s.queue[k]
    ensures |Dispatched(s, actions)| <= k ==>
              k - |Dispatched(s, actions)| < |Run(s, actions).value.queue|
              && Run(s, actions).value.queue[k - |Dispatched(s, actions)|] == s.queue[k]
  {
    QueueIsFifo(s, actions);
    var d, e := Dispatched(s, actions), Enqueued(s, actions);
    assert (s.queue + e)[k] == s.queue[k];
  }

  /** The goroutines that have come to their end, in order. */
  function Finished(s: State, actions: seq<Action>): seq<nat>
    decreases actions
  {
    if actions == [] || Step(s, actions[0]).None? then []
    else
      (if actions[0].Finish? && s.running.Some? then [s.running.value] else [])
      + Finished(Step(s, actions[0]).value, actions[1..])
  }

  lemma FinishOneStep(s: State, a: Action)
    requires QueueInv(s) && Step(s, a).Some?
    ensures var s' := Step(s, a).value;
            var gone := if a.Finish? then {s.running.value} else {};
            && (a.Finish? ==> s.running.Some? && s.running.value in s.pending) && s.created <= s'.created
            && (s'.exited <==> s.exited || 0 in gone)
            && forall id: nat ::
                 id in s'.pending <==> (id in s.pending || s.created <= id < s'.created) && id !in gone
  {
    if a.Try? {
      TryKeepsQueue(s);
    }
    hide TrySend, TryReceive, TrySelect;
  }

  /** Goroutines are there until they come to their end, and the process exits with the main one. */
  lemma {:induction false} EndsExactly(s: State, actions: seq<Action>)
    requires QueueInv(s) && Run(s, actions).Some?
    ensures var s', gone := Run(s, actions).value, Finished(s, actions);
            && s.created <= s'.created && (forall id | id in gone :: id in s.pending || s.created <= id)
            && (s'.exited <==> s.exited || 0 in gone)
            && forall id: nat :: id in s'.pending <==> (id in s.pending || s.created <= id < s'.created) && id !in gone
    decreases actions
  {
    hide Step, QueueInv;
    if actions != [] {
      var next := Step(s, actions[0]).value;
      QueueStep(s, actions[0]);
      FinishOneStep(s, actions[0]);
      CreatedAreNew(s);
      EndsExactly(next, actions[1..]);
    }
  }

  lemma CreatedAreNew(s: State)
    requires QueueInv(s)
    ensures forall id | id in s.pending :: id < s.created
  {
  }

  /** Ids are never shared, and until the process exits the main goroutine is on the queue or running,
      so the dispatcher always finds a goroutine. */
  lemma MainKeepsRunning(actions: seq<Action>)
    requires Run(Start(), actions).Some?
    ensures var s := Run(Start(), actions).value;
            && Distinct(s.queue) && (s.running.Some? ==> s.running.value !in s.queue)
            && (forall id | id in s.queue :: id < s.created) && (s.running.Some? ==> s.running.value < s.created)
            && (forall id: nat ::
                  (id in s.queue || s.running == Some(id)) <==> id < s.created && id !in Finished(Start(), actions))
            && (s.exited <==> 0 in Finished(Start(), actions))
            && (!s.exited ==> 0 in s.queue || s.running == Some(0))
            && (!s.exited && s.running.None? ==> Step(s, Dispatch).Some?)
  {
    Reachable(actions);
    EndsExactly(Start(), actions);
  }
}
