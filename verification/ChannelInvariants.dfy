/** What holds of every channel in every state that any number of goroutines can reach. */
module ChannelInvariants {
  import opened Channels
  import opened Goroutines

  /** A sender has put its value into the channel and has not yet been told that it was taken. */
  predicate HoldsSender(c: Channel<int>) {
    c.kind.Rendezvous? && (c.kind.state.SenderReached? || c.kind.state.SenderReachedReceiverAccepted?)
  }

  /** Nothing is lost, duplicated or reordered. */
  ghost predicate ValuesInv(c: Channel<int>, l: Log) {
    && WellFormed(c)
    && l.deposited == l.delivered + InFlight(c)
    && |l.receives| == |l.delivered| && (forall i | 0 <= i < |l.receives| :: l.receives[i].1 == l.delivered[i])
    && |l.deposited| == |l.sends| + (if HoldsSender(c) then 1 else 0)
    && (forall i | 0 <= i < |l.sends| :: l.sends[i].1 == l.deposited[i])
  }

  /** A sender named by the channel is in the middle of a plain send on it, with the value it put in. */
  ghost predicate SenderInv(c: Channel<int>, l: Log, p: map<nat, Pending>, ch: nat) {
    c.kind.Rendezvous? ==>
      match c.kind.state
      case SenderReached(id, v) => id in p && p[id] == Sending(ch, v)
      case SenderReachedReceiverAccepted(id) =>
        id in p && l.deposited != [] && p[id] == Sending(ch, l.deposited[|l.deposited| - 1])
      case _ => true
  }

  /** Completed sends and completed receives are the two sides of the hand-offs, in order; only the last
      hand-off may have completed on one side alone. */
  ghost predicate PairsInv(c: Channel<int>, l: Log) {
    c.kind.Rendezvous? ==>
      var n := |l.pairs|;
      && |l.sends| == (if c.kind.state.SenderReachedReceiverAccepted? then n - 1 else n)
      && |l.receives| == (if c.kind.state.ReceiverReachedSenderAccepted? then n - 1 else n)
      && (forall i | 0 <= i < |l.sends| :: l.sends[i] == (l.pairs[i].sender, l.pairs[i].v))
      && (forall i | 0 <= i < |l.receives| :: l.receives[i] == (l.pairs[i].receiver, l.pairs[i].v))
      && match c.kind.state
         case SenderReachedReceiverAccepted(id) =>
           l.deposited != [] && l.pairs[n - 1].sender == id && l.pairs[n - 1].v == l.deposited[|l.deposited| - 1]
         case ReceiverReachedSenderAccepted(id, v) => l.pairs[n - 1].receiver == id && l.pairs[n - 1].v == v
         case _ => true
  }

  /** On a channel used by plain sends and receives only, a receiver named by the channel is in the
      middle of a receive on it. */
  ghost predicate ReceiverInv(c: Channel<int>, l: Log, p: map<nat, Pending>, ch: nat) {
    l.plain ==>
      && !c.isClosed
      && (c.kind.Rendezvous? && (c.kind.state.ReceiverReached? || c.kind.state.ReceiverReachedSenderAccepted?) ==>
            c.kind.state.receiverId in p && p[c.kind.state.receiverId] == Receiving(ch))
  }

  ghost predicate ChannelInv(c: Channel<int>, l: Log, p: map<nat, Pending>, ch: nat) {
    ValuesInv(c, l) && SenderInv(c, l, p, ch) && PairsInv(c, l) && ReceiverInv(c, l, p, ch)
  }

  ghost predicate AllChannels(m: map<nat, Channel<int>>, logs: map<nat, Log>, p: map<nat, Pending>) {
    logs.Keys == m.Keys && forall ch | ch in m :: ChannelInv(m[ch], logs[ch], p, ch)
  }

  ghost predicate SystemInv(s: State) {
    && QueueInv(s)
    && AllChannels(s.channels, s.logs, s.pending)
  }

  // ----- one attempt

  lemma SendKeeps(c: Channel<int>, l: Log, p: map<nat, Pending>, ch: nat, id: nat, v: int)
    requires ChannelInv(c, l, p, ch) && id in p
    requires p[id] == Sending(ch, v) || (p[id].Selecting? && !l.plain && CanCompleteSend(c, id))
    ensures var (c', done) := Send(c, id, v);
            ChannelInv(c', LogSend(l, c, id, v, done), if done then p[id := Idle] else p, ch)
  {
    hide ValuesInv, SenderInv, PairsInv, ReceiverInv, Send, LogSend;
    SendKeepsValues(c, l, p, ch, id, v);
    SendKeepsSender(c, l, p, ch, id, v);
    SendKeepsPairs(c, l, p, ch, id, v);
    SendKeepsReceiver(c, l, p, ch, id, v);
  }

  lemma SendKeepsValues(c: Channel<int>, l: Log, p: map<nat, Pending>, ch: nat, id: nat, v: int)
    requires ValuesInv(c, l) && SenderInv(c, l, p, ch) && id in p
    requires p[id] == Sending(ch, v) || (p[id].Selecting? && CanCompleteSend(c, id))
    ensures var (c', done) := Send(c, id, v); ValuesInv(c', LogSend(l, c, id, v, done))
  {
    var (c', done) := Send(c, id, v);
    var l' := LogSend(l, c, id, v, done);
    if Deposits(c) {
      assert l.delivered + InFlight(c') == l'.deposited;
    }
  }

  lemma SendKeepsSender(c: Channel<int>, l: Log, p: map<nat, Pending>, ch: nat, id: nat, v: int)
    requires SenderInv(c, l, p, ch) && id in p
    requires p[id] == Sending(ch, v) || (p[id].Selecting? && CanCompleteSend(c, id))
    ensures var (c', done) := Send(c, id, v);
            SenderInv(c', LogSend(l, c, id, v, done), if done then p[id := Idle] else p, ch)
  {
  }

  lemma SendKeepsPairs(c: Channel<int>, l: Log, p: map<nat, Pending>, ch: nat, id: nat, v: int)
    requires ValuesInv(c, l) && SenderInv(c, l, p, ch) && PairsInv(c, l) && id in p
    requires p[id] == Sending(ch, v) || (p[id].Selecting? && CanCompleteSend(c, id))
    ensures var (c', done) := Send(c, id, v); PairsInv(c', LogSend(l, c, id, v, done))
  {
  }

  lemma SendKeepsReceiver(c: Channel<int>, l: Log, p: map<nat, Pending>, ch: nat, id: nat, v: int)
    requires ReceiverInv(c, l, p, ch) && id in p
    requires p[id] == Sending(ch, v) || (p[id].Selecting? && !l.plain)
    ensures var (c', done) := Send(c, id, v);
            ReceiverInv(c', LogSend(l, c, id, v, done), if done then p[id := Idle] else p, ch)
  {
  }

  lemma ReceiveKeeps(c: Channel<int>, l: Log, p: map<nat, Pending>, ch: nat, id: nat)
    requires ChannelInv(c, l, p, ch) && id in p
    requires p[id] == Receiving(ch) || (p[id].Selecting? && !l.plain)
    ensures var (c', status) := Receive(c, id);
            var l' := if status.Received? then LogReceive(l, c, id, status.value) else l;
            ChannelInv(c', l', p, ch) && (!status.Blocked? ==> ChannelInv(c', l', p[id := Idle], ch))
  {
    hide ValuesInv, SenderInv, PairsInv, ReceiverInv, Receive, LogReceive;
    ReceiveKeepsValues(c, l, id);
    ReceiveKeepsSender(c, l, p, ch, id);
    ReceiveKeepsPairs(c, l, id);
    ReceiveKeepsReceiver(c, l, p, ch, id);
  }

  lemma ReceiveKeepsValues(c: Channel<int>, l: Log, id: nat)
    requires ValuesInv(c, l)
    ensures var (c', status) := Receive(c, id);
            ValuesInv(c', if status.Received? then LogReceive(l, c, id, status.value) else l)
  {
    var (c', status) := Receive(c, id);
    if status.Received? {
      assert l.delivered + InFlight(c) == (l.delivered + [status.value]) + InFlight(c');
    }
  }

  lemma ReceiveKeepsSender(c: Channel<int>, l: Log, p: map<nat, Pending>, ch: nat, id: nat)
    requires ValuesInv(c, l) && SenderInv(c, l, p, ch) && id in p
    requires p[id] == Receiving(ch) || (p[id].Selecting? && !l.plain)
    ensures var (c', status) := Receive(c, id);
            var l' := if status.Received? then LogReceive(l, c, id, status.value) else l;
            SenderInv(c', l', p, ch) && SenderInv(c', l', p[id := Idle], ch)
  {
  }

  lemma ReceiveKeepsPairs(c: Channel<int>, l: Log, id: nat)
    requires ValuesInv(c, l) && PairsInv(c, l)
    ensures var (c', status) := Receive(c, id);
            PairsInv(c', if status.Received? then LogReceive(l, c, id, status.value) else l)
  {
  }

  lemma ReceiveKeepsReceiver(c: Channel<int>, l: Log, p: map<nat, Pending>, ch: nat, id: nat)
    requires ReceiverInv(c, l, p, ch) && id in p
    requires p[id] == Receiving(ch) || (p[id].Selecting? && !l.plain)
    ensures var (c', status) := Receive(c, id);
            var l' := if status.Received? then LogReceive(l, c, id, status.value) else l;
            ReceiverInv(c', l', p, ch) && (!status.Blocked? ==> ReceiverInv(c', l', p[id := Idle], ch))
  {
  }

  /** A channel does not depend on goroutines that are not in the middle of an operation on it. */
  lemma OtherPending(c: Channel<int>, l: Log, p: map<nat, Pending>, p': map<nat, Pending>, ch: nat)
    requires ChannelInv(c, l, p, ch)
    requires forall id | id in p && (p[id] == Receiving(ch) || (p[id].Sending? && p[id].channel == ch)) ::
               id in p' && p'[id] == p[id]
    ensures ChannelInv(c, l, p', ch)
  {
  }

  // ----- one step

  lemma TrySendKeeps(s: State, id: nat, c: nat, v: int)
    requires SystemInv(s) && id in s.pending && s.pending[id] == Sending(c, v) && c in s.channels
    ensures var s' := TrySend(s, id, c, v);
            AllChannels(s'.channels, s'.logs, s'.pending)
  {
    hide Send, LogSend, ChannelInv;
    var s' := TrySend(s, id, c, v);
    forall ch | ch in s'.channels ensures ChannelInv(s'.channels[ch], s'.logs[ch], s'.pending, ch) {
      if ch == c {
        SendKeeps(s.channels[c], s.logs[c], s.pending, c, id, v);
      } else {
        OtherPending(s.channels[ch], s.logs[ch], s.pending, s'.pending, ch);
      }
    }
  }

  lemma TryReceiveKeeps(s: State, id: nat, c: nat)
    requires SystemInv(s) && id in s.pending && s.pending[id] == Receiving(c) && c in s.channels
    ensures var s' := TryReceive(s, id, c);
            AllChannels(s'.channels, s'.logs, s'.pending)
  {
    hide Receive, LogReceive, ChannelInv;
    var s' := TryReceive(s, id, c);
    forall ch | ch in s'.channels ensures ChannelInv(s'.channels[ch], s'.logs[ch], s'.pending, ch) {
      if ch == c {
        ReceiveKeeps(s.channels[c], s.logs[c], s.pending, c, id);
      } else {
        OtherPending(s.channels[ch], s.logs[ch], s.pending, s'.pending, ch);
      }
    }
  }

  /** A select that cannot transfer anything leaves at most its registration behind. */
  lemma RegisteringKeeps(c: Channel<int>, l: Log, p: map<nat, Pending>, ch: nat, id: nat)
    requires ChannelInv(c, l, p, ch) && !l.plain
    ensures ChannelInv(Registered(c, id), l, p, ch)
  {
  }

  lemma NotPlainKeeps(c: Channel<int>, l: Log, p: map<nat, Pending>, ch: nat)
    requires ChannelInv(c, l, p, ch)
    ensures ChannelInv(c, l.(plain := false), p, ch)
  {
  }

  /** What a select does to one channel. */
  lemma SelectOn(m: map<nat, Channel<int>>, entries: seq<Entry<nat, int>>, id: nat, needBlock: bool, ch: nat)
    requires Known(m, entries) && (forall k | k in m :: WellFormed(m[k])) && ch in m
    ensures var (m', outcome) := Select(m, entries, id, needBlock);
            && m'.Keys == m.Keys
            && (outcome.SentOn? || outcome.ReceivedOn? ==> outcome.index < |entries|)
            && (outcome.SentOn? ==> entries[outcome.index].send.Some?)
            && (outcome.SentOn? && entries[outcome.index].channel == ch ==>
                  CanCompleteSend(m[ch], id) && Send(m[ch], id, entries[outcome.index].send.value) == (m'[ch], true))
            && (outcome.ReceivedOn? && entries[outcome.index].channel == ch ==>
                  Receive(m[ch], id) == (m'[ch], Received(outcome.value)))
            && ((outcome.SentOn? || outcome.ReceivedOn?) && entries[outcome.index].channel != ch ==> m'[ch] == m[ch])
            && (!(outcome.SentOn? || outcome.ReceivedOn?) ==>
                  m'[ch] == m[ch] || (m'[ch] == Registered(m[ch], id) && Listed(entries, ch)))
  {
    SelectTransfersOnce(m, entries, id, needBlock);
    hide Select, WellFormed, InFlight, Registered, Receive, Send;
    var (m', outcome) := Select(m, entries, id, needBlock);
    if outcome.SentOn? {
      SendIsExact(m[entries[outcome.index].channel], id, entries[outcome.index].send.value);
    }
    forall j | Reached(m, entries, 0, ch, j) ensures Listed(entries, ch) {}
  }

  lemma SelectKeepsOne(m: map<nat, Channel<int>>, entries: seq<Entry<nat, int>>, id: nat, needBlock: bool,
                       l: Log, p: map<nat, Pending>, ch: nat)
    requires Known(m, entries) && (forall k | k in m :: WellFormed(m[k])) && ch in m
    requires id in p && p[id].Selecting? && ChannelInv(m[ch], l, p, ch)
    ensures var (m', outcome) := Select(m, entries, id, needBlock);
            var l' := LogSelect(l, m[ch], ch, entries, id, outcome);
            m'.Keys == m.Keys && ChannelInv(m'[ch], l', p, ch) && ChannelInv(m'[ch], l', p[id := Idle], ch)
  {
    var (m', outcome) := Select(m, entries, id, needBlock);
    var l' := LogSelect(l, m[ch], ch, entries, id, outcome);
    SelectOn(m, entries, id, needBlock, ch);
    NotPlainKeeps(m[ch], l, p, ch);
    hide Send, Receive, LogSend, LogReceive, ChannelInv, Select, WellFormed, InFlight, Registered, CanCompleteSend;
    var l1 := if Listed(entries, ch) then l.(plain := false) else l;
    if outcome.SentOn? && entries[outcome.index].channel == ch {
      SendKeeps(m[ch], l1, p, ch, id, entries[outcome.index].send.value);
      OtherPending(m'[ch], l', p[id := Idle], p, ch);
    } else if outcome.ReceivedOn? && entries[outcome.index].channel == ch {
      ReceiveKeeps(m[ch], l1, p, ch, id);
    } else {
      if m'[ch] != m[ch] {
        RegisteringKeeps(m[ch], l1, p, ch, id);
      }
      OtherPending(m'[ch], l', p, p[id := Idle], ch);
    }
  }

  lemma AllWellFormed(m: map<nat, Channel<int>>, logs: map<nat, Log>, p: map<nat, Pending>)
    requires AllChannels(m, logs, p)
    ensures forall ch | ch in m :: WellFormed(m[ch])
  {
    hide WellFormed;
  }

  lemma SelectKeepsAll(m: map<nat, Channel<int>>, logs: map<nat, Log>, p: map<nat, Pending>,
                       entries: seq<Entry<nat, int>>, id: nat, needBlock: bool)
    requires Known(m, entries) && id in p && p[id].Selecting? && AllChannels(m, logs, p)
    ensures var (m', outcome) := Select(m, entries, id, needBlock);
            var logs' := LogAll(logs, m, entries, id, outcome);
            AllChannels(m', logs', p) && AllChannels(m', logs', p[id := Idle])
  {
    hide Select, LogSelect, LogAll, ChannelInv, WellFormed, Known;
    AllWellFormed(m, logs, p);
    SelectKeys(m, entries, id, needBlock);
    var sel := Select(m, entries, id, needBlock);
    var logs' := LogAll(logs, m, entries, id, sel.1);
    forall ch | ch in m
      ensures ChannelInv(sel.0[ch], logs'[ch], p, ch) && ChannelInv(sel.0[ch], logs'[ch], p[id := Idle], ch)
    {
      SelectKeepsOne(m, entries, id, needBlock, logs[ch], p, ch);
    }
  }

  lemma SelectKeys(m: map<nat, Channel<int>>, entries: seq<Entry<nat, int>>, id: nat, needBlock: bool)
    requires Known(m, entries) && forall k | k in m :: WellFormed(m[k])
    ensures Select(m, entries, id, needBlock).0.Keys == m.Keys
  {
    SelectTransfersOnce(m, entries, id, needBlock);
  }

  // ----- all runs

  lemma {:induction false} StepKeeps(s: State, a: Action)
    requires SystemInv(s) && Step(s, a).Some?
    ensures SystemInv(Step(s, a).value)
  {
    QueueStep(s, a);
    if a.Try? {
      TryStepKeeps(s);
    } else {
      OtherStepKeeps(s, a);
    }
  }

  lemma OtherStepKeeps(s: State, a: Action)
    requires SystemInv(s) && !a.Try? && Step(s, a).Some?
    ensures var s' := Step(s, a).value;
            AllChannels(s'.channels, s'.logs, s'.pending)
  {
    hide ChannelInv, InFlight, WellFormed, TrySend, TryReceive, TrySelect;
    var s' := Step(s, a).value;
    assert forall id | id in s.pending && !s.pending[id].Idle? :: id in s'.pending && s'.pending[id] == s.pending[id];
    hide QueueInv;
    forall ch | ch in s'.channels ensures ch in s'.logs && ChannelInv(s'.channels[ch], s'.logs[ch], s'.pending, ch) {
      if a.MakeChannel? && ch == a.channel {
        NewKeeps(a.capacity, s'.pending, ch);
      } else if a.Close? && ch == a.closing {
        CloseKeeps(s.channels[ch], s.logs[ch], s.pending, ch);
      } else {
        OtherPending(s.channels[ch], s.logs[ch], s.pending, s'.pending, ch);
      }
    }
  }

  lemma NewKeeps(capacity: nat, p: map<nat, Pending>, ch: nat)
    ensures ChannelInv(New(capacity), EMPTY_LOG, p, ch)
  {
  }

  lemma CloseKeeps(c: Channel<int>, l: Log, p: map<nat, Pending>, ch: nat)
    requires ChannelInv(c, l, p, ch)
    ensures ChannelInv(c.(isClosed := true), l.(plain := false), p, ch)
  {
    assert InFlight(c.(isClosed := true)) == InFlight(c);
  }

  lemma TryStepKeeps(s: State)
    requires SystemInv(s) && Step(s, Try).Some?
    ensures var s' := Step(s, Try).value;
            AllChannels(s'.channels, s'.logs, s'.pending)
  {
    hide Send, Receive, Select, LogAll, LogSend, LogReceive, ChannelInv, AllChannels, QueueInv;
    var id := s.running.value;
    match s.pending[id]
    case Sending(c, v) => TrySendKeeps(s, id, c, v);
    case Receiving(c) => TryReceiveKeeps(s, id, c);
    case Selecting(entries, needBlock) => SelectKeepsAll(s.channels, s.logs, s.pending, entries, id, needBlock);
  }

  lemma {:induction false} RunKeeps(s: State, actions: seq<Action>)
    requires SystemInv(s) && Run(s, actions).Some?
    ensures SystemInv(Run(s, actions).value)
    decreases actions
  {
    hide SystemInv, Step;
    if actions != [] {
      StepKeeps(s, actions[0]);
      RunKeeps(Step(s, actions[0]).value, actions[1..]);
    }
  }
}
