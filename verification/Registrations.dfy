/** When a channel is left naming a receiver that is no longer receiving. */
module Registrations {
  import opened Options
  import opened Channels
  import opened Goroutines
  import opened ChannelInvariants

  /** The receiver that a channel without a buffer names. */
  function Registrant(c: Channel<int>): Option<nat> {
    if c.kind.Rendezvous? && (c.kind.state.ReceiverReached? || c.kind.state.ReceiverReachedSenderAccepted?)
    then Some(c.kind.state.receiverId) else None
  }

  predicate ReceivesOn(entries: seq<Entry<nat, int>>, ch: nat) {
    exists i | 0 <= i < |entries| :: entries[i].receives && entries[i].channel == ch
  }

  predicate Awaits(op: Pending, ch: nat) {
    op == Receiving(ch) || (op.Selecting? && ReceivesOn(op.entries, ch))
  }

  /** The channel names a goroutine that is not receiving from it. */
  predicate Stale(c: Channel<int>, p: map<nat, Pending>, ch: nat) {
    match Registrant(c)
    case None => false
    case Some(id) => !(id in p && Awaits(p[id], ch))
  }

  /** Whether this attempt of goroutine `id` leaves its registration on channel `ch`: a receive that finds
      the channel closed with nothing to take, or a select that ends without taking from `ch` and either
      was registered there or registers now. */
  ghost predicate LeavesRegistration(m: map<nat, Channel<int>>, op: Pending, id: nat, ch: nat)
    requires ch in m && (op.Selecting? ==> Known(m, op.entries))
  {
    var c := m[ch];
    match op
    case Idle => false
    case Sending(_, _) => false
    case Receiving(on) =>
      on == ch && c.isClosed && (c.kind == Rendezvous(Initial) || c.kind == Rendezvous(ReceiverReached(id)))
    case Selecting(entries, needBlock) =>
      var i := FirstReady(m, entries, id, 0);
      if i < |entries| then
        && Registrant(c) == Some(id)
        && !(entries[i].channel == ch && c.kind.state.ReceiverReachedSenderAccepted?)
      else
        && (!needBlock || exists j | 0 <= j < |entries| :: ReceivesClosed(m, entries[j]))
        && (Registrant(c) == Some(id) || (c.kind == Rendezvous(Initial) && exists j :: Reached(m, entries, 0, ch, j)))
  }

  lemma SelectGoesStale(m: map<nat, Channel<int>>, p: map<nat, Pending>, entries: seq<Entry<nat, int>>,
                        needBlock: bool, id: nat, ch: nat)
    requires Known(m, entries) && (forall k | k in m :: WellFormed(m[k])) && ch in m
    requires id in p && p[id] == Selecting(entries, needBlock) && !Stale(m[ch], p, ch)
    ensures var (m', outcome) := Select(m, entries, id, needBlock);
            var p' := if outcome.MustWait? then p else p[id := Idle];
            ch in m' && (Stale(m'[ch], p', ch) <==> LeavesRegistration(m, p[id], id, ch))
  {
    SelectTransfersOnce(m, entries, id, needBlock);
    var sel := Select(m, entries, id, needBlock);
    var i := FirstReady(m, entries, id, 0);
    if i < |entries| {
      assert IsReady(m, entries[i], id);
      assert sel.1.SentOn? || sel.1.ReceivedOn?;
      assert sel.1.index == i;
    } else {
      assert forall j | 0 <= j < |entries| :: !IsReady(m, entries[j], id);
    }
    hide Select, FirstReady, WellFormed, InFlight, Known;
  }

  lemma PlainGoesStale(c: Channel<int>, p: map<nat, Pending>, op: Pending, id: nat, ch: nat)
    requires id in p && p[id] == op && (op.Sending? || op.Receiving?) && op.channel == ch && !Stale(c, p, ch)
    ensures op.Sending? ==> var (c', done) := Send(c, id, op.v); !Stale(c', if done then p[id := Idle] else p, ch)
    ensures op.Receiving? ==>
              var (c', status) := Receive(c, id);
              (Stale(c', if status.Blocked? then p else p[id := Idle], ch) <==>
                c.isClosed && (c.kind == Rendezvous(Initial) || c.kind == Rendezvous(ReceiverReached(id))))
  {
  }

  /** Exactly when an attempt leaves a stale registration on a channel that had none. */
  lemma GoesStaleExactly(s: State, ch: nat)
    requires SystemInv(s) && Step(s, Try).Some? && ch in s.channels && !Stale(s.channels[ch], s.pending, ch)
    ensures var s' := Step(s, Try).value;
            var id := s.running.value;
            ch in s'.channels
            && (Stale(s'.channels[ch], s'.pending, ch) <==> LeavesRegistration(s.channels, s.pending[id], id, ch))
  {
    forall k | k in s.channels ensures WellFormed(s.channels[k]) {
      assert ChannelInv(s.channels[k], s.logs[k], s.pending, k);
    }
    var id := s.running.value;
    hide SystemInv, ChannelInv, WellFormed, LogAll, LogSend, LogReceive, ReceivesOn, Select, FirstReady, Send, Receive;
    match s.pending[id]
    case Selecting(entries, needBlock) =>
      assert Known(s.channels, entries);
      hide Stale, LeavesRegistration, Known;
      SelectGoesStale(s.channels, s.pending, entries, needBlock, id, ch);
    case Sending(c, _) =>
      if c == ch { PlainGoesStale(s.channels[ch], s.pending, s.pending[id], id, ch); }
    case Receiving(c) =>
      if c == ch { PlainGoesStale(s.channels[ch], s.pending, s.pending[id], id, ch); }
  }

  /** Nothing but an attempt can make a registration stale. */
  lemma OnlyAttemptsGoStale(s: State, a: Action, ch: nat)
    requires SystemInv(s) && Step(s, a).Some? && !a.Try? && ch in s.channels && !Stale(s.channels[ch], s.pending, ch)
    ensures var s' := Step(s, a).value; ch in s'.channels && !Stale(s'.channels[ch], s'.pending, ch)
  {
    assert QueueInv(s);
    hide SystemInv, ReceivesOn, TrySend, TryReceive, TrySelect;
    var s' := Step(s, a).value;
    match Registrant(s.channels[ch])
    case None =>
    case Some(id) => assert s'.pending[id] == s.pending[id];
  }

  const POLL: seq<Entry<nat, int>> := [Entry(5, None, true)]

  lemma PollRegisters(m: map<nat, Channel<int>>)
    requires m == map[5 := New(0)]
    ensures Known(m, POLL)
    ensures Select(m, POLL, 0, false) == (map[5 := Channel(Rendezvous(ReceiverReached(0)), false)], NothingReady)
  {
    var e: Entry<nat, int> := POLL[0];
    assert |POLL| == 1 && e == Entry(5, None, true) && m[5] == Channel(Rendezvous(Initial), false);
    assert Known(m, POLL) && !IsReady(m, e, 0);
    assert FirstReady(m, POLL, 0, 1) == 1;
    assert FirstReady(m, POLL, 0, 0) == 1;
    var m' := m[5 := Channel(Rendezvous(ReceiverReached(0)), false)];
    assert Receive(m[5], 0) == (m'[5], Blocked);
    assert Register(m', POLL, 0, 1) == (m', None, []);
    assert Register(m, POLL, 0, 0) == (m', None, []);
    assert m' == map[5 := Channel(Rendezvous(ReceiverReached(0)), false)];
  }

  lemma {:induction false} RunOneMore(s: State, actions: seq<Action>, a: Action)
    requires Run(s, actions).Some?
    ensures Run(s, actions + [a]) == Step(Run(s, actions).value, a)
    decreases actions
  {
    hide Step;
    if actions == [] {
      assert [a][1..] == [];
    } else {
      assert (actions + [a])[1..] == actions[1..] + [a];
      RunOneMore(Step(s, actions[0]).value, actions[1..], a);
    }
  }

  const POLLING: seq<Action> := [Dispatch, MakeChannel(5, 0), Begin(Selecting(POLL, false))]

  lemma PollingReaches()
    ensures Run(Start(), POLLING) == Some(State(1, map[0 := Selecting(POLL, false)], [], Some(0), false,
                                                map[5 := New(0)], map[5 := EMPTY_LOG], false))
  {
    assert Run(Start(), []) == Some(Start());
    hide Run;
    RunOneMore(Start(), [], Dispatch);
    assert [] + [Dispatch] == [Dispatch];
    RunOneMore(Start(), [Dispatch], MakeChannel(5, 0));
    assert [Dispatch] + [MakeChannel(5, 0)] == [Dispatch, MakeChannel(5, 0)];
    RunOneMore(Start(), [Dispatch, MakeChannel(5, 0)], Begin(Selecting(POLL, false)));
    assert [Dispatch, MakeChannel(5, 0)] + [Begin(Selecting(POLL, false))] == POLLING;
    var s := Run(Start(), POLLING).value;
    assert s.pending == map[0 := Selecting(POLL, false)];
    assert s.channels == map[5 := New(0)] && s.logs == map[5 := EMPTY_LOG] && s.queue == [];
  }

  /** The main goroutine polls a channel in a select that does not block, and then sends on it. The send
      completes although nobody receives, or ever did. */
  lemma SendCompletesAlone()
    ensures var run := Run(Start(), POLLING + [Try] + [Begin(Sending(5, 42))] + [Try]);
            && run.Some? && 5 in run.value.channels && 5 in run.value.logs
            && run.value.logs[5].sends == [(0, 42)] && run.value.logs[5].receives == []
            && run.value.pending == map[0 := Idle] && !run.value.suspended
            && Stale(run.value.channels[5], run.value.pending, 5)
  {
    hide Run, FirstReady, Register, Select, LogAll, LogSelect;
    PollEnds();
    RunOneMore(Start(), POLLING + [Try], Begin(Sending(5, 42)));
    RunOneMore(Start(), POLLING + [Try] + [Begin(Sending(5, 42))], Try);
  }

  /** The poll ends without a value, and leaves its registration. */
  lemma PollEnds()
    ensures var run := Run(Start(), POLLING + [Try]);
            && run.Some? && run.value.pending == map[0 := Idle] && run.value.running == Some(0)
            && !run.value.suspended && !run.value.exited
            && run.value.channels == map[5 := Channel(Rendezvous(ReceiverReached(0)), false)]
            && run.value.logs.Keys == {5} && run.value.logs[5].sends == [] && run.value.logs[5].receives == []
  {
    hide Run, FirstReady, Register, Select, LogSelect;
    PollingReaches();
    PollRegisters(Run(Start(), POLLING).value.channels);
    RunOneMore(Start(), POLLING, Try);
    LogsPoll();
  }

  lemma LogsPoll()
    ensures LogSelect(EMPTY_LOG, New(0), 5, POLL, 0, NothingReady).sends == []
    ensures LogSelect(EMPTY_LOG, New(0), 5, POLL, 0, NothingReady).receives == []
  {
  }
}
