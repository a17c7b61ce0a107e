/** The runtime's channel objects, updated in place, and the select loop over them. */
module ChannelObjects {
  import opened Options
  import C = Channels

  /** The values of a ring buffer, oldest first: `size` slots from `head` on, wrapping around. */
  ghost function Queue<V>(slots: seq<V>, head: nat, size: nat): (q: seq<V>)
    requires head < |slots|
    ensures |q| == size
    decreases size
  {
    if size == 0 then [] else [slots[head]] + Queue(slots, (head + 1) % |slots|, size - 1)
  }

  lemma Wrap(x: nat, n: nat)
    requires x < 2 * n
    ensures x % n == if x < n then x else x - n
  {
  }

  /** The slot behind the values is the one a send must fill. */
  lemma {:induction false} FillTail<V>(slots: seq<V>, head: nat, size: nat, data: V)
    requires head < |slots| && size < |slots|
    ensures var tail := (head + size) % |slots|;
            Queue(slots[tail := data], head, size + 1) == Queue(slots, head, size) + [data]
    decreases size
  {
    var n := |slots|;
    var next := (head + 1) % n;
    Wrap(head + 1, n);
    Wrap(head + size, n);
    var tail := (head + size) % n;
    if size == 0 {
      assert Queue(slots[tail := data], next, 0) == [];
    } else {
      Wrap(next + (size - 1), n);
      FillTail(slots, next, size - 1, data);
      assert Queue(slots[tail := data], head, size + 1) == [slots[head]] + Queue(slots[tail := data], next, size);
    }
  }

  class BufferedChannel<V(0)> {
    const buffer: array<V>
    var head: nat
    var size: nat

    ghost predicate Valid()
      reads this
    {
      head < buffer.Length && size <= buffer.Length
    }

    ghost function Contents(): (q: seq<V>)
      requires Valid()
      reads this, buffer
    {
      Queue(buffer[..], head, size)
    }

    constructor (capacity: nat)
      requires capacity > 0
      ensures Valid() && fresh(buffer) && buffer.Length == capacity && Contents() == []
    {
      buffer := new V[capacity];
      head, size := 0, 0;
    }

    predicate CanSend()
      requires Valid()
      reads this
    {
      size < buffer.Length
    }

    predicate CanReceive()
      reads this
    {
      size > 0
    }

    method Send(data: V) returns (done: bool)
      requires Valid()
      modifies this`size, buffer
      ensures Valid()
      ensures done == (|old(Contents())| < buffer.Length)
      ensures Contents() == if done then old(Contents()) + [data] else old(Contents())
    {
      if !CanSend() {
        return false;
      }
      var tail := (head + size) % buffer.Length;
      FillTail(buffer[..], head, size, data);
      buffer[tail] := data;
      size := size + 1;
      done := true;
    }

    method Receive() returns (data: Option<V>)
      requires Valid()
      modifies this`head, this`size
      ensures Valid()
      ensures data == if old(Contents()) == [] then None else Some(old(Contents())[0])
      ensures Contents() == if old(Contents()) == [] then [] else old(Contents())[1..]
    {
      if !CanReceive() {
        return None;
      }
      data := Some(buffer[head]);
      head := (head + 1) % buffer.Length;
      size := size - 1;
    }
  }

  class RendezvousChannel<V> {
    var state: C.RendezvousState<V>

    constructor ()
      ensures state == C.Initial
    {
      state := C.Initial;
    }

    method Send(id: nat, data: V) returns (done: bool)
      modifies this
      ensures (state, done) == C.RendezvousSend(old(state), id, data)
    {
      match state
      case Initial =>
        state := C.SenderReached(id, data);
        done := false;
      case SenderReachedReceiverAccepted(senderId) =>
        if id == senderId {
          state := C.Initial;
          done := true;
        } else {
          done := false;
        }
      case ReceiverReached(receiverId) =>
        state := C.ReceiverReachedSenderAccepted(receiverId, data);
        done := true;
      case _ =>
        done := false;
    }

    method Receive(id: nat) returns (data: Option<V>)
      modifies this
      ensures (state, data) == C.RendezvousReceive(old(state), id)
    {
      match state
      case SenderReached(senderId, v) =>
        state := C.SenderReachedReceiverAccepted(senderId);
        data := Some(v);
      case Initial =>
        state := C.ReceiverReached(id);
        data := None;
      case ReceiverReachedSenderAccepted(receiverId, v) =>
        if id == receiverId {
          state := C.Initial;
          data := Some(v);
        } else {
          data := None;
        }
      case _ =>
        data := None;
    }
  }

  datatype ChannelType<V(0)> = Buffered(ring: BufferedChannel<V>) | Rendezvous(cell: RendezvousChannel<V>)

  class ChannelObject<V(0)> {
    const channelType: ChannelType<V>
    var isClosed: bool

    ghost function Repr(): set<object> {
      {this} + match channelType
               case Buffered(ring) => {ring, ring.buffer}
               case Rendezvous(cell) => {cell}
    }

    ghost predicate Valid()
      reads Repr()
    {
      channelType.Buffered? ==> channelType.ring.Valid()
    }

    /** The channel this object stands for. */
    ghost function Model(): C.Channel<V>
      requires Valid()
      reads Repr()
    {
      match channelType
      case Buffered(ring) => C.Channel(C.Buffered(ring.buffer.Length, ring.Contents()), isClosed)
      case Rendezvous(cell) => C.Channel(C.Rendezvous(cell.state), isClosed)
    }

    constructor (capacity: nat)
      ensures Valid() && fresh(Repr()) && Model() == C.New(capacity)
    {
      if capacity > 0 {
        var ring := new BufferedChannel<V>(capacity);
        channelType := Buffered(ring);
      } else {
        var cell := new RendezvousChannel<V>();
        channelType := Rendezvous(cell);
      }
      isClosed := false;
    }

    /** Closing a closed channel fails an assertion of the runtime: `ok` tells that it did not. */
    method Close() returns (ok: bool)
      requires Valid()
      modifies this
      ensures Valid() && ok == !old(isClosed) && Model() == old(Model()).(isClosed := true)
    {
      ok := !isClosed;
      isClosed := true;
    }

    method CanCompleteSend(id: nat) returns (can: bool)
      requires Valid()
      ensures can == C.CanCompleteSend(Model(), id)
    {
      match channelType
      case Buffered(ring) => can := ring.CanSend();
      case Rendezvous(cell) =>
        match cell.state
        case SenderReachedReceiverAccepted(senderId) => can := id == senderId;
        case ReceiverReached(_) => can := true;
        case _ => can := false;
    }

    method CanCompleteReceive(id: nat) returns (can: bool)
      requires Valid()
      ensures can == C.CanCompleteReceive(Model(), id)
    {
      match channelType
      case Buffered(ring) => can := ring.CanReceive();
      case Rendezvous(cell) =>
        match cell.state
        case SenderReached(_, _) => can := true;
        case ReceiverReachedSenderAccepted(receiverId, _) => can := id == receiverId;
        case _ => can := false;
    }

    method Send(id: nat, data: V) returns (done: bool)
      requires Valid()
      modifies Repr()
      ensures Valid()
      ensures Model() == C.Send(old(Model()), id, data).0 && done == C.Send(old(Model()), id, data).1
    {
      match channelType
      case Buffered(ring) => done := ring.Send(data);
      case Rendezvous(cell) => done := cell.Send(id, data);
    }

    method Receive(id: nat) returns (status: C.ReceiveStatus<V>)
      requires Valid()
      modifies Repr()
      ensures Valid()
      ensures Model() == C.Receive(old(Model()), id).0 && status == C.Receive(old(Model()), id).1
    {
      var result;
      match channelType {
        case Buffered(ring) => result := ring.Receive();
        case Rendezvous(cell) => result := cell.Receive(id);
      }
      status := if result.Some? then C.Received(result.value) else if isClosed then C.Closed else C.Blocked;
    }
  }

  type SelectEntry<V(0)> = C.Entry<ChannelObject<V>, V>

  type Snapshot<V(0)> = map<ChannelObject<V>, C.Channel<V>>

  /** Different channel objects share nothing. */
  ghost predicate Separate<V(0)>(m: Snapshot<V>) {
    forall a, b, o | a in m && b in m && o in a.Repr() && o in b.Repr() :: a == b
  }

  ghost function ReprOf<V(0)>(m: Snapshot<V>): set<object> {
    set c, o | c in m && o in c.Repr() :: o
  }

  /** The objects stand for the channels that `m` says. */
  ghost predicate Holds<V(0)>(m: Snapshot<V>)
    reads *
  {
    forall c {:trigger m[c]} | c in m :: c.Valid() && c.Model() == m[c]
  }

  method Offer<V(0)>(ghost m: Snapshot<V>, c: ChannelObject<V>, id: nat, data: V) returns (done: bool)
    requires Separate(m) && Holds(m) && c in m
    modifies ReprOf(m)
    ensures Holds(m[c := C.Send(m[c], id, data).0]) && done == C.Send(m[c], id, data).1
  {
    hide ChannelObject.Valid, ChannelObject.Model, C.Send;
    done := c.Send(id, data);
    forall b | b in m && b != c ensures b.Valid() && b.Model() == m[b] {
      assert old(m[b] == b.Model());
      assert forall o | o in b.Repr() :: o !in c.Repr();
    }
  }

  method Poll<V(0)>(ghost m: Snapshot<V>, c: ChannelObject<V>, id: nat) returns (status: C.ReceiveStatus<V>)
    requires Separate(m) && Holds(m) && c in m
    modifies ReprOf(m)
    ensures Holds(m[c := C.Receive(m[c], id).0]) && status == C.Receive(m[c], id).1
  {
    hide ChannelObject.Valid, ChannelObject.Model, C.Receive;
    status := c.Receive(id);
    forall b | b in m && b != c ensures b.Valid() && b.Model() == m[b] {
      assert old(m[b] == b.Model());
      assert forall o | o in b.Repr() :: o !in c.Repr();
    }
  }

  method TestSend<V(0)>(ghost m: Snapshot<V>, c: ChannelObject<V>, id: nat) returns (can: bool)
    requires Holds(m) && c in m
    ensures can == C.CanCompleteSend(m[c], id)
  {
    assert m[c] == c.Model();
    can := c.CanCompleteSend(id);
  }

  method TestReceive<V(0)>(ghost m: Snapshot<V>, c: ChannelObject<V>, id: nat) returns (can: bool)
    requires Holds(m) && c in m
    ensures can == C.CanCompleteReceive(m[c], id)
  {
    assert m[c] == c.Model();
    can := c.CanCompleteReceive(id);
  }

  /** The first pass, at one entry. That the send completes and the receive obtains a value is what the
      runtime asserts here. */
  method TryComplete<V(0)>(ghost m: Snapshot<V>, entries: seq<SelectEntry<V>>, i: nat, id: nat)
    returns (outcome: Option<C.Outcome<V>>)
    requires Separate(m) && Holds(m) && C.Known(m, entries) && i < |entries|
    modifies ReprOf(m)
    ensures outcome.Some? == C.IsReady(m, entries[i], id)
    ensures outcome.None? ==> Holds(m)
    ensures outcome.Some? ==> Holds(C.Complete(m, entries, id, i).0) && outcome.value == C.Complete(m, entries, id, i).1
  {
    hide Holds, ReprOf, Separate, C.Send, C.Receive, C.CanCompleteSend, C.CanCompleteReceive;
    var e := entries[i];
    outcome := None;
    if e.send.Some? {
      var can := TestSend(m, e.channel, id);
      if can {
        C.SendIsExact(m[e.channel], id, e.send.value);
        var done := Offer(m, e.channel, id, e.send.value);
        assert done;
        return Some(C.SentOn(i));
      }
    }
    if e.receives {
      var can := TestReceive(m, e.channel, id);
      if can {
        C.ReceiveIsExact(m[e.channel], id);
        var status := Poll(m, e.channel, id);
        assert status.Received?;
        return Some(C.ReceivedOn(i, status.value));
      }
    }
  }

  /** The second pass, with the channels it leaves behind. */
  method RegisterAll<V(0)>(ghost m: Snapshot<V>, entries: seq<SelectEntry<V>>, id: nat)
    returns (closed: Option<nat>)
    requires Separate(m) && Holds(m) && C.Known(m, entries)
    modifies ReprOf(m)
    ensures Holds(C.Register(m, entries, id, 0).0) && closed == C.Register(m, entries, id, 0).1
  {
    hide ChannelObject.Valid, ChannelObject.Model, C.Receive, ReprOf;
    ghost var now := m;
    for i := 0 to |entries|
      invariant now.Keys == m.Keys && Holds(now) && C.Known(now, entries) && Separate(now)
      invariant ReprOf(now) == ReprOf(m)
      invariant C.Register(m, entries, id, 0).0 == C.Register(now, entries, id, i).0
      invariant C.Register(m, entries, id, 0).1 == C.Register(now, entries, id, i).1
    {
      if entries[i].receives {
        var status := Poll(now, entries[i].channel, id);
        now := now[entries[i].channel := C.Receive(now[entries[i].channel], id).0];
        SameRepr(m, now);
        if status.Closed? {
          return Some(i);
        }
      }
    }
    closed := None;
  }

  lemma SameRepr<V(0)>(a: Snapshot<V>, b: Snapshot<V>)
    requires a.Keys == b.Keys
    ensures ReprOf(a) == ReprOf(b) && (Separate(a) <==> Separate(b))
  {
  }

  /** One attempt of a select: a pass that performs the first entry that can complete, and, if there is
      none, a pass that registers for the receives. The value received is part of the outcome; `m` is
      what the channels of the entries hold before. */
  method Select<V(0)>(ghost m: Snapshot<V>, entries: seq<SelectEntry<V>>, id: nat, needBlock: bool)
    returns (outcome: C.Outcome<V>)
    requires Separate(m) && Holds(m) && C.Known(m, entries)
    modifies ReprOf(m)
    ensures Holds(C.Select(m, entries, id, needBlock).0) && outcome == C.Select(m, entries, id, needBlock).1
  {
    hide C.Complete, C.Register, C.IsReady, Separate, Holds, ReprOf;
    for i := 0 to |entries|
      invariant Holds(m)
      invariant C.FirstReady(m, entries, id, 0) == C.FirstReady(m, entries, id, i)
    {
      var completed := TryComplete(m, entries, i, id);
      if completed.Some? {
        return completed.value;
      }
    }
    var closed := RegisterAll(m, entries, id);
    outcome := if closed.Some? then C.ClosedOn(closed.value) else if needBlock then C.MustWait else C.NothingReady;
  }
}
