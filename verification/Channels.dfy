/** Channels as values: what a send, a receive, a close and a select do to them. */
module Channels {
  import opened Options

  /** The five states of a channel without a buffer. */
  datatype RendezvousState<V> =
    | Initial
    | SenderReached(senderId: nat, data: V)
    | SenderReachedReceiverAccepted(senderId: nat)
    | ReceiverReached(receiverId: nat)
    | ReceiverReachedSenderAccepted(receiverId: nat, data: V)

  datatype ChannelType<V> = Buffered(capacity: nat, queue: seq<V>) | Rendezvous(state: RendezvousState<V>)

  datatype Channel<V> = Channel(kind: ChannelType<V>, isClosed: bool)

  datatype ReceiveStatus<V> = Received(value: V) | Blocked | Closed

  function New<V>(capacity: nat): Channel<V> {
    Channel(if capacity > 0 then Buffered(capacity, []) else Rendezvous(Initial), false)
  }

  predicate WellFormed<V>(c: Channel<V>) {
    c.kind.Buffered? ==> 0 < c.kind.capacity && |c.kind.queue| <= c.kind.capacity
  }

  predicate CanCompleteSend<V>(c: Channel<V>, id: nat) {
    match c.kind
    case Buffered(capacity, queue) => |queue| < capacity
    case Rendezvous(SenderReachedReceiverAccepted(senderId)) => senderId == id
    case Rendezvous(ReceiverReached(_)) => true
    case Rendezvous(_) => false
  }

  predicate CanCompleteReceive<V>(c: Channel<V>, id: nat) {
    match c.kind
    case Buffered(_, queue) => queue != []
    case Rendezvous(SenderReached(_, _)) => true
    case Rendezvous(ReceiverReachedSenderAccepted(receiverId, _)) => receiverId == id
    case Rendezvous(_) => false
  }

  function RendezvousSend<V>(s: RendezvousState<V>, id: nat, v: V): (RendezvousState<V>, bool) {
    match s
    case Initial => (SenderReached(id, v), false)
    case SenderReachedReceiverAccepted(senderId) => if senderId == id then (Initial, true) else (s, false)
    case ReceiverReached(receiverId) => (ReceiverReachedSenderAccepted(receiverId, v), true)
    case _ => (s, false)
  }

  function RendezvousReceive<V>(s: RendezvousState<V>, id: nat): (RendezvousState<V>, Option<V>) {
    match s
    case SenderReached(senderId, v) => (SenderReachedReceiverAccepted(senderId), Some(v))
    case Initial => (ReceiverReached(id), None)
    case ReceiverReachedSenderAccepted(receiverId, v) => if receiverId == id then (Initial, Some(v)) else (s, None)
    case _ => (s, None)
  }

  /** A send attempt by goroutine `id`: the channel afterwards, and whether the send completed. */
  function Send<V>(c: Channel<V>, id: nat, v: V): (Channel<V>, bool) {
    match c.kind
    case Buffered(capacity, queue) =>
      if |queue| < capacity then (c.(kind := Buffered(capacity, queue + [v])), true) else (c, false)
    case Rendezvous(state) =>
      var (state', done) := RendezvousSend(state, id, v);
      (c.(kind := Rendezvous(state')), done)
  }

  /** A receive attempt by goroutine `id`. A value that can be obtained is obtained even when the
      channel is closed. */
  function Receive<V>(c: Channel<V>, id: nat): (Channel<V>, ReceiveStatus<V>) {
    var (kind, v) :=
      match c.kind
      case Buffered(capacity, queue) =>
        (if queue != [] then (Buffered(capacity, queue[1..]), Some(queue[0])) else (c.kind, None))
      case Rendezvous(state) =>
        var (state', v) := RendezvousReceive(state, id);
        (Rendezvous(state'), v);
    (c.(kind := kind), if v.Some? then Received(v.value) else if c.isClosed then Closed else Blocked)
  }

  /** The values that are in the channel: sent or offered, and not yet handed to a receiver. */
  function InFlight<V>(c: Channel<V>): seq<V> {
    match c.kind
    case Buffered(_, queue) => queue
    case Rendezvous(SenderReached(_, v)) => [v]
    case Rendezvous(ReceiverReachedSenderAccepted(_, v)) => [v]
    case Rendezvous(_) => []
  }

  /** The channel is of the same kind and capacity. */
  predicate SameMake<V>(c: Channel<V>, c': Channel<V>) {
    match c.kind
    case Buffered(capacity, _) => c'.kind.Buffered? && c'.kind.capacity == capacity
    case Rendezvous(_) => c'.kind.Rendezvous?
  }

  /** The tests `select` makes are exact: an operation completes if and only if its test says so. */
  lemma SendIsExact<V>(c: Channel<V>, id: nat, v: V)
    ensures CanCompleteSend(c, id) <==> Send(c, id, v).1
  {
  }

  lemma ReceiveIsExact<V>(c: Channel<V>, id: nat)
    ensures CanCompleteReceive(c, id) <==> Receive(c, id).1.Received?
  {
  }

  /** A send adds its value behind those in flight or leaves them alone; a receive takes the first or
      leaves them alone. */
  lemma StepsAreFifo<V>(c: Channel<V>, id: nat, v: V)
    requires WellFormed(c)
    ensures InFlight(Send(c, id, v).0) == InFlight(c) + [v] || InFlight(Send(c, id, v).0) == InFlight(c)
    ensures Receive(c, id).1.Received? ==> InFlight(c) == [Receive(c, id).1.value] + InFlight(Receive(c, id).0)
    ensures !Receive(c, id).1.Received? ==> InFlight(Receive(c, id).0) == InFlight(c)
    ensures WellFormed(Send(c, id, v).0) && WellFormed(Receive(c, id).0)
    ensures SameMake(c, Send(c, id, v).0) && Send(c, id, v).0.isClosed == c.isClosed
    ensures SameMake(c, Receive(c, id).0) && Receive(c, id).0.isClosed == c.isClosed
    ensures |InFlight(c)| <= if c.kind.Buffered? then c.kind.capacity else 1
  {
  }

  // ----- new channels

  /** Which of the sends of these values, one after the other, complete. */
  function Offers<V>(c: Channel<V>, id: nat, vs: seq<V>): seq<bool>
    decreases vs
  {
    if vs == [] then [] else [Send(c, id, vs[0]).1] + Offers(Send(c, id, vs[0]).0, id, vs[1..])
  }

  lemma {:induction false} RoomLeft<V>(c: Channel<V>, id: nat, vs: seq<V>)
    requires c.kind.Buffered?
    ensures |Offers(c, id, vs)| == |vs|
    ensures forall i | 0 <= i < |vs| :: Offers(c, id, vs)[i] <==> |c.kind.queue| + i < c.kind.capacity
    decreases vs
  {
    if vs != [] {
      RoomLeft(Send(c, id, vs[0]).0, id, vs[1..]);
    }
  }

  lemma {:induction false} NobodyTakes<V>(c: Channel<V>, id: nat, vs: seq<V>)
    requires c.kind.Rendezvous? && (c.kind.state.Initial? || c.kind.state.SenderReached?)
    ensures |Offers(c, id, vs)| == |vs| && forall i | 0 <= i < |vs| :: !Offers(c, id, vs)[i]
    decreases vs
  {
    if vs != [] {
      NobodyTakes(Send(c, id, vs[0]).0, id, vs[1..]);
    }
  }

  /** A new channel is open and holds nothing, and as long as nobody receives, exactly the first sends
      complete, as many as the capacity that was asked for. */
  lemma NewHasRoom<V>(capacity: nat, id: nat, vs: seq<V>)
    ensures var c: Channel<V> := New(capacity);
            && !c.isClosed && InFlight(c) == [] && (c.kind.Buffered? <==> capacity > 0)
            && (c.kind.Rendezvous? ==> c.kind.state == Initial)
            && |Offers(c, id, vs)| == |vs|
            && forall i | 0 <= i < |vs| :: Offers(c, id, vs)[i] <==> i < capacity
  {
    var c: Channel<V> := New(capacity);
    if capacity > 0 { RoomLeft(c, id, vs); } else { NobodyTakes(c, id, vs); }
  }

  // ----- runs of a buffered channel

  datatype Op<V> = DoSend(v: V) | DoReceive

  /** Performs the operations in order; returns the channel, the values accepted and the values delivered. */
  function Perform<V>(c: Channel<V>, ops: seq<Op<V>>): (Channel<V>, seq<V>, seq<V>)
    decreases ops
  {
    if ops == [] then (c, [], [])
    else
      match ops[0]
      case DoSend(v) =>
        var (next, done) := Send(c, 0, v);
        var (last, sent, received) := Perform(next, ops[1..]);
        (last, if done then [v] + sent else sent, received)
      case DoReceive =>
        var (next, status) := Receive(c, 0);
        var (last, sent, received) := Perform(next, ops[1..]);
        (last, sent, if status.Received? then [status.value] + received else received)
  }

  /** A buffered channel is a bounded FIFO queue: whatever the order of the operations, what was in it
      followed by what it accepted is what it delivered followed by what is left in it. */
  lemma {:induction false} BufferedIsFifo<V>(c: Channel<V>, ops: seq<Op<V>>)
    requires c.kind.Buffered? && WellFormed(c)
    ensures var (last, sent, received) := Perform(c, ops);
            && last.kind.Buffered? && WellFormed(last) && last.kind.capacity == c.kind.capacity
            && last.isClosed == c.isClosed
            && c.kind.queue + sent == received + last.kind.queue
    decreases ops
  {
    if ops != [] {
      var q := c.kind.queue;
      var next := if ops[0].DoSend? then Send(c, 0, ops[0].v).0 else Receive(c, 0).0;
      BufferedIsFifo(next, ops[1..]);
      var (last, sent, received) := Perform(next, ops[1..]);
      if ops[0].DoSend? {
        assert q + ([ops[0].v] + sent) == (q + [ops[0].v]) + sent;
      } else if q != [] {
        assert q + sent == [q[0]] + (next.kind.queue + sent);
        assert [q[0]] + (received + last.kind.queue) == ([q[0]] + received) + last.kind.queue;
      }
    }
  }

  /** The outcomes of `n` receives in a row. */
  function Drain<V>(c: Channel<V>, id: nat, n: nat): seq<ReceiveStatus<V>>
    decreases n
  {
    if n == 0 then [] else [Receive(c, id).1] + Drain(Receive(c, id).0, id, n - 1)
  }

  /** The values in flight that goroutine `id` can still take: all of a queue, and of a channel without
      a buffer the one offered, unless it is promised to another receiver. */
  function Obtainable<V>(c: Channel<V>, id: nat): seq<V> {
    if CanCompleteReceive(c, id) then InFlight(c) else []
  }

  /** A closed channel, of either kind, delivers what can still be taken from it, in order, and then is
      closed forever. */
  lemma {:induction false} ClosedChannelDrains<V>(c: Channel<V>, id: nat, n: nat)
    requires c.isClosed
    ensures |Drain(c, id, n)| == n
    ensures forall i | 0 <= i < n ::
              Drain(c, id, n)[i] == if i < |Obtainable(c, id)| then Received(Obtainable(c, id)[i]) else Closed
    decreases n
  {
    if n > 0 {
      ClosedChannelDrains(Receive(c, id).0, id, n - 1);
    }
  }

  // ----- select

  /** One case of a select: a send if `send` holds a value, a receive if `receives`. `K` names channels. */
  datatype Entry<K(==), V> = Entry(channel: K, send: Option<V>, receives: bool)

  datatype Outcome<V> =
    | SentOn(index: nat)
    | ReceivedOn(index: nat, value: V)
    | ClosedOn(index: nat)
    | NothingReady
    | MustWait

  ghost predicate Known<K, V>(m: map<K, Channel<V>>, entries: seq<Entry<K, V>>) {
    forall i | 0 <= i < |entries| :: entries[i].channel in m
  }

  predicate CanSend<K(==), V>(m: map<K, Channel<V>>, e: Entry<K, V>, id: nat)
    requires e.channel in m
  {
    e.send.Some? && CanCompleteSend(m[e.channel], id)
  }

  predicate CanReceive<K(==), V>(m: map<K, Channel<V>>, e: Entry<K, V>, id: nat)
    requires e.channel in m
  {
    e.receives && CanCompleteReceive(m[e.channel], id)
  }

  predicate IsReady<K(==), V>(m: map<K, Channel<V>>, e: Entry<K, V>, id: nat)
    requires e.channel in m
  {
    CanSend(m, e, id) || CanReceive(m, e, id)
  }

  /** The first entry from `i` on that can complete now. */
  function FirstReady<K(==), V>(m: map<K, Channel<V>>, entries: seq<Entry<K, V>>, id: nat, i: nat): (r: nat)
    requires Known(m, entries) && i <= |entries|
    ensures i <= r <= |entries|
    ensures r < |entries| ==> IsReady(m, entries[r], id)
    ensures forall j | i <= j < r :: !IsReady(m, entries[j], id)
    decreases |entries| - i
  {
    if i == |entries| || IsReady(m, entries[i], id) then i else FirstReady(m, entries, id, i + 1)
  }

  /** Performs entry `i`, preferring its send. */
  function Complete<K(==), V>(m: map<K, Channel<V>>, entries: seq<Entry<K, V>>, id: nat, i: nat):
    (map<K, Channel<V>>, Outcome<V>)
    requires Known(m, entries) && i < |entries| && IsReady(m, entries[i], id)
  {
    var e := entries[i];
    if CanSend(m, e, id) then (m[e.channel := Send(m[e.channel], id, e.send.value).0], SentOn(i))
    else
      var (c, status) := Receive(m[e.channel], id);
      ReceiveIsExact(m[e.channel], id);
      (m[e.channel := c], ReceivedOn(i, status.value))
  }

  /** The second pass, from entry `i` on: registers for every receive until one finds its channel
      closed. The last component lists values that were obtained and thrown away. */
  function Register<K(==), V>(m: map<K, Channel<V>>, entries: seq<Entry<K, V>>, id: nat, i: nat):
    (map<K, Channel<V>>, Option<nat>, seq<V>)
    requires Known(m, entries) && i <= |entries|
    decreases |entries| - i
  {
    if i == |entries| then (m, None, [])
    else if !entries[i].receives then Register(m, entries, id, i + 1)
    else
      var (c, status) := Receive(m[entries[i].channel], id);
      var m' := m[entries[i].channel := c];
      if status.Closed? then (m', Some(i), [])
      else
        var (last, closed, dropped) := Register(m', entries, id, i + 1);
        (last, closed, if status.Received? then [status.value] + dropped else dropped)
  }

  function Select<K(==), V>(m: map<K, Channel<V>>, entries: seq<Entry<K, V>>, id: nat, needBlock: bool):
    (map<K, Channel<V>>, Outcome<V>)
    requires Known(m, entries)
  {
    var i := FirstReady(m, entries, id, 0);
    if i < |entries| then Complete(m, entries, id, i)
    else
      var (m', closed, _) := Register(m, entries, id, 0);
      (m', if closed.Some? then ClosedOn(closed.value) else if needBlock then MustWait else NothingReady)
  }

  predicate ReceivesClosed<K(==), V>(m: map<K, Channel<V>>, e: Entry<K, V>)
    requires e.channel in m
  {
    e.receives && m[e.channel].isClosed
  }

  /** Registering turns an untouched channel into one that waits for this goroutine. */
  function Registered<V>(c: Channel<V>, id: nat): Channel<V> {
    if c.kind == Rendezvous(Initial) then c.(kind := Rendezvous(ReceiverReached(id))) else c
  }

  lemma ReceiveRegisters<V>(c: Channel<V>, id: nat)
    requires !CanCompleteReceive(c, id)
    ensures Receive(c, id) == (Registered(c, id), if c.isClosed then Closed else Blocked)
    ensures !CanCompleteReceive(Registered(c, id), id) && Registered(Registered(c, id), id) == Registered(c, id)
  {
  }

  /** Entry `j` is a receive on channel `k` that the second pass reaches, having started at `i`. */
  ghost predicate Reached<K, V>(m: map<K, Channel<V>>, entries: seq<Entry<K, V>>, i: nat, k: K, j: nat)
    requires Known(m, entries)
  {
    && i <= j < |entries| && entries[j].receives && entries[j].channel == k
    && forall n | i <= n < j :: entries[n].receives ==> !m[entries[n].channel].isClosed
  }

  /** The second pass never obtains a value, even when a channel occurs more than once; it leaves a
      registration exactly on the untouched channels it reaches, and finds the first receive on a
      closed channel. */
  lemma {:induction false} RegisterDropsNothing<K, V>(m: map<K, Channel<V>>, entries: seq<Entry<K, V>>, id: nat, i: nat)
    requires Known(m, entries) && i <= |entries|
    requires forall j | i <= j < |entries| :: !CanReceive(m, entries[j], id)
    ensures Register(m, entries, id, i).2 == []
    ensures var (m', closed, _) := Register(m, entries, id, i);
            && m'.Keys == m.Keys
            && (forall k | k in m ::
                  m'[k] == if exists j :: Reached(m, entries, i, k, j) then Registered(m[k], id) else m[k])
            && (closed.Some? ==> i <= closed.value < |entries| && entries[closed.value].receives
                                 && m[entries[closed.value].channel].isClosed)
            && (forall j | i <= j < (if closed.Some? then closed.value else |entries|) ::
                  entries[j].receives ==> !m[entries[j].channel].isClosed)
    decreases |entries| - i
  {
    if i < |entries| {
      var k := entries[i].channel;
      var m1 := if entries[i].receives then m[k := Registered(m[k], id)] else m;
      if entries[i].receives {
        ReceiveRegisters(m[k], id);
        assert Reached(m, entries, i, k, i);
      }
      forall j | i + 1 <= j < |entries| ensures !CanReceive(m1, entries[j], id) {
        assert !CanReceive(m, entries[j], id);
      }
      if entries[i].receives && m[k].isClosed {
        forall x, j | Reached(m, entries, i, x, j) ensures j == i {}
      } else {
        RegisterDropsNothing(m1, entries, id, i + 1);
        forall x | x in m
          ensures Register(m, entries, id, i).0[x]
                  == if exists j :: Reached(m, entries, i, x, j) then Registered(m[x], id) else m[x]
        {
          ReachedFrom(m, m1, entries, i, i + 1, x);
        }
      }
    }
  }

  /** Being reached from `i` is being entry `i` or being reached from `i + 1`, as long as `i` goes on. */
  lemma ReachedFrom<K, V>(m: map<K, Channel<V>>, m1: map<K, Channel<V>>, entries: seq<Entry<K, V>>, i: nat,
                          next: nat, x: K)
    requires Known(m, entries) && Known(m1, entries) && i < |entries| && next == i + 1
    requires forall n | 0 <= n < |entries| :: m1[entries[n].channel].isClosed == m[entries[n].channel].isClosed
    requires entries[i].receives ==> !m[entries[i].channel].isClosed
    ensures (exists j :: Reached(m, entries, i, x, j)) <==>
            (entries[i].receives && entries[i].channel == x) || (exists j :: Reached(m1, entries, next, x, j))
  {
    if entries[i].receives && entries[i].channel == x {
      assert Reached(m, entries, i, x, i);
    }
    forall j | Reached(m1, entries, next, x, j) ensures Reached(m, entries, i, x, j) {}
    forall j | Reached(m, entries, i, x, j) && j != i ensures Reached(m1, entries, next, x, j) {}
  }

  /** What a select does: at most one transfer, on the lowest entry that can complete, with every other
      channel untouched; if there is none, no value moves and nothing is lost. */
  lemma SelectTransfersOnce<K, V>(m: map<K, Channel<V>>, entries: seq<Entry<K, V>>, id: nat, needBlock: bool)
    requires Known(m, entries) && forall k | k in m :: WellFormed(m[k])
    ensures var (m', outcome) := Select(m, entries, id, needBlock);
            && m'.Keys == m.Keys
            && (outcome.SentOn? || outcome.ReceivedOn? <==>
                exists i :: 0 <= i < |entries| && IsReady(m, entries[i], id))
            && (outcome.SentOn? || outcome.ReceivedOn? ==>
                  outcome.index < |entries| &&
                  var e := entries[outcome.index];
                  && IsReady(m, e, id)
                  && (forall j | 0 <= j < outcome.index :: !IsReady(m, entries[j], id))
                  && (forall k | k in m && k != e.channel :: m'[k] == m[k])
                  && (outcome.SentOn? ==> e.send.Some? && Send(m[e.channel], id, e.send.value) == (m'[e.channel], true))
                  && (outcome.ReceivedOn? ==>
                        e.receives && Receive(m[e.channel], id) == (m'[e.channel], Received(outcome.value))))
            && (!(outcome.SentOn? || outcome.ReceivedOn?) ==>
                  forall k | k in m ::
                    && m'[k] == (if exists j :: Reached(m, entries, 0, k, j) then Registered(m[k], id) else m[k])
                    && InFlight(m'[k]) == InFlight(m[k]))
            && (outcome.ClosedOn? ==>
                  && outcome.index < |entries| && ReceivesClosed(m, entries[outcome.index])
                  && forall j | 0 <= j < outcome.index :: !ReceivesClosed(m, entries[j]))
            && (outcome.NothingReady? || outcome.MustWait? ==>
                  outcome.MustWait? == needBlock && forall j | 0 <= j < |entries| :: !ReceivesClosed(m, entries[j]))
  {
    var i := FirstReady(m, entries, id, 0);
    if i < |entries| {
      if entries[i].send.Some? { SendIsExact(m[entries[i].channel], id, entries[i].send.value); }
      ReceiveIsExact(m[entries[i].channel], id);
    } else {
      forall j | 0 <= j < |entries| ensures !CanReceive(m, entries[j], id) {
        assert !IsReady(m, entries[j], id);
      }
      RegisterDropsNothing(m, entries, id, 0);
    }
  }
}
