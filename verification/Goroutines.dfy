/** Any number of goroutines on one run queue, communicating over channels. A state is what the runtime
    holds between two invocations of its functions; the actions of the running goroutine are free. */
module Goroutines {
  import opened Options
  import opened Sequences
  import opened Channels

  /** What a goroutine is in the middle of. A goroutine whose operation blocks keeps it, goes to the
      back of the run queue and tries again when it is next dispatched. */
  datatype Pending =
    | Idle
    | Sending(channel: nat, v: int)
    | Receiving(channel: nat)
    | Selecting(entries: seq<Entry<nat, int>>, needBlock: bool)

  /** One hand-off over a channel without a buffer. */
  datatype Pair = Pair(sender: nat, receiver: nat, v: int)

  /** What has happened on a channel: values put in and taken out, sends and receives that completed
      (with the goroutine and the value), hand-offs agreed on, and whether the channel was only ever
      used by plain sends and receives. */
  datatype Log = Log(
    deposited: seq<int>, delivered: seq<int>,
    sends: seq<(nat, int)>, receives: seq<(nat, int)>, pairs: seq<Pair>, plain: bool)

  datatype State = State(
    created: nat, pending: map<nat, Pending>, queue: seq<nat>, running: Option<nat>, suspended: bool,
    channels: map<nat, Channel<int>>, logs: map<nat, Log>, exited: bool)

  /** `Dispatch` takes the first goroutine of the run queue; `Park` puts it back once it is suspended.
      `Try` invokes the runtime function of the pending operation; the rest is what code may do. */
  datatype Action =
    | Dispatch
    | Park
    | Try
    | Begin(op: Pending)
    | MakeChannel(channel: nat, capacity: nat)
    | Close(closing: nat)
    | Spawn
    | Yield
    | Finish

  function Start(): State {
    State(1, map[0 := Idle], [0], None, false, map[], map[], false)
  }

  const EMPTY_LOG := Log([], [], [], [], [], true)

  /** A send attempt that puts its value into the channel. */
  predicate Deposits(c: Channel<int>) {
    match c.kind
    case Buffered(capacity, queue) => |queue| < capacity
    case Rendezvous(state) => state.Initial? || state.ReceiverReached?
  }

  function LogSend(l: Log, c: Channel<int>, id: nat, v: int, done: bool): Log {
    l.(deposited := if Deposits(c) then l.deposited + [v] else l.deposited,
       sends := if done then l.sends + [(id, v)] else l.sends,
       pairs := if c.kind.Rendezvous? && c.kind.state.ReceiverReached?
                then l.pairs + [Pair(id, c.kind.state.receiverId, v)] else l.pairs)
  }

  function LogReceive(l: Log, c: Channel<int>, id: nat, v: int): Log {
    l.(delivered := l.delivered + [v],
       receives := l.receives + [(id, v)],
       pairs := if c.kind.Rendezvous? && c.kind.state.SenderReached?
                then l.pairs + [Pair(c.kind.state.senderId, id, v)] else l.pairs)
  }

  predicate Listed(entries: seq<Entry<nat, int>>, channel: nat) {
    exists i | 0 <= i < |entries| :: entries[i].channel == channel
  }

  /** The log of channel `ch` after a select with this outcome. */
  function LogSelect(l: Log, c: Channel<int>, ch: nat, entries: seq<Entry<nat, int>>, id: nat,
                     outcome: Outcome<int>): Log {
    var l' := if Listed(entries, ch) then l.(plain := false) else l;
    match outcome
    case SentOn(i) =>
      if i < |entries| && entries[i].channel == ch && entries[i].send.Some?
      then LogSend(l', c, id, entries[i].send.value, true)
      else l'
    case ReceivedOn(i, v) => if i < |entries| && entries[i].channel == ch then LogReceive(l', c, id, v) else l'
    case _ => l'
  }

  function LogAll(logs: map<nat, Log>, m: map<nat, Channel<int>>, entries: seq<Entry<nat, int>>, id: nat,
                  outcome: Outcome<int>): (r: map<nat, Log>)
    ensures r.Keys == logs.Keys * m.Keys
    ensures forall ch | ch in r :: r[ch] == LogSelect(logs[ch], m[ch], ch, entries, id, outcome)
  {
    map ch | ch in logs && ch in m :: LogSelect(logs[ch], m[ch], ch, entries, id, outcome)
  }

  predicate KnownOp(s: State, op: Pending) {
    match op
    case Idle => false
    case Sending(c, _) => c in s.channels && c in s.logs
    case Receiving(c) => c in s.channels && c in s.logs
    case Selecting(entries, _) =>
      forall i | 0 <= i < |entries| :: entries[i].channel in s.channels && entries[i].channel in s.logs
  }

  function TrySend(s: State, id: nat, c: nat, v: int): State
    requires c in s.channels && c in s.logs
  {
    var (channel, done) := Send(s.channels[c], id, v);
    s.(channels := s.channels[c := channel],
       logs := s.logs[c := LogSend(s.logs[c], s.channels[c], id, v, done)],
       pending := if done then s.pending[id := Idle] else s.pending,
       suspended := !done)
  }

  function TryReceive(s: State, id: nat, c: nat): State
    requires c in s.channels && c in s.logs
  {
    var (channel, status) := Receive(s.channels[c], id);
    s.(channels := s.channels[c := channel],
       logs := if status.Received? then s.logs[c := LogReceive(s.logs[c], s.channels[c], id, status.value)] else s.logs,
       pending := if status.Blocked? then s.pending else s.pending[id := Idle],
       suspended := status.Blocked?)
  }

  function TrySelect(s: State, id: nat, entries: seq<Entry<nat, int>>, needBlock: bool): State
    requires KnownOp(s, Selecting(entries, needBlock))
  {
    assert Known(s.channels, entries);
    var (channels, outcome) := Select(s.channels, entries, id, needBlock);
    s.(channels := channels,
       logs := LogAll(s.logs, s.channels, entries, id, outcome),
       pending := if outcome.MustWait? then s.pending else s.pending[id := Idle],
       suspended := outcome.MustWait?)
  }

  /** True when the running goroutine executes code of its own. */
  predicate InCode(s: State) {
    s.running.Some? && !s.suspended && s.running.value in s.pending && s.pending[s.running.value].Idle?
  }

  /** One action, when it is possible. Closing a closed channel stops the process, so it has no successor. */
  function Step(s: State, a: Action): Option<State> {
    if s.exited then None
    else
      match a
      case Dispatch =>
        if s.running.None? && s.queue != []
        then Some(s.(running := Some(s.queue[0]), queue := s.queue[1..], suspended := false))
        else None
      case Park =>
        if s.running.Some? && s.suspended
        then Some(s.(running := None, suspended := false, queue := s.queue + [s.running.value]))
        else None
      case Try =>
        if && s.running.Some? && !s.suspended && s.running.value in s.pending
           && KnownOp(s, s.pending[s.running.value])
        then
          var id := s.running.value;
          match s.pending[id]
          case Sending(c, v) => Some(TrySend(s, id, c, v))
          case Receiving(c) => Some(TryReceive(s, id, c))
          case Selecting(entries, needBlock) => Some(TrySelect(s, id, entries, needBlock))
          case Idle => None
        else None
      case Begin(op) =>
        if InCode(s) && KnownOp(s, op) then Some(s.(pending := s.pending[s.running.value := op])) else None
      case MakeChannel(c, capacity) =>
        if InCode(s) && c !in s.channels && c !in s.logs
        then Some(s.(channels := s.channels[c := New(capacity)], logs := s.logs[c := EMPTY_LOG])) else None
      case Close(c) =>
        if InCode(s) && c in s.channels && c in s.logs && !s.channels[c].isClosed
        then Some(s.(channels := s.channels[c := s.channels[c].(isClosed := true)],
                     logs := s.logs[c := s.logs[c].(plain := false)]))
        else None
      case Spawn =>
        if InCode(s)
        then Some(s.(created := s.created + 1, pending := s.pending[s.created := Idle],
                     queue := s.queue + [s.created], suspended := true))
        else None
      case Yield => if InCode(s) then Some(s.(suspended := true)) else None
      case Finish =>
        if InCode(s)
        then Some(s.(pending := s.pending - {s.running.value}, running := None, exited := s.running.value == 0))
        else None
  }

  function Run(s: State, actions: seq<Action>): Option<State>
    decreases actions
  {
    if actions == [] then Some(s)
    else
      match Step(s, actions[0])
      case None => None
      case Some(next) => Run(next, actions[1..])
  }

  // ----- the run queue

  /** Every goroutine is in the queue once or running, ids are never reused, and the main goroutine is
      there until the process exits. */
  ghost predicate QueueInv(s: State) {
    && Distinct(s.queue)
    && (s.running.Some? ==> s.running.value !in s.queue && s.running.value in s.pending)
    && (forall id | id in s.queue :: id in s.pending)
    && (forall id | id in s.pending :: id in s.queue || s.running == Some(id))
    && (forall id | id in s.pending :: id < s.created)
    && (!s.exited ==> 0 in s.pending)
    && (s.suspended ==> s.running.Some?)
  }

  lemma QueueDispatch(s: State)
    requires QueueInv(s) && s.queue != []
    ensures QueueInv(s.(running := Some(s.queue[0]), queue := s.queue[1..], suspended := false)) || s.running.Some?
  {
    assert s.queue == [s.queue[0]] + s.queue[1..];
    assert s.queue[0] in s.queue;
  }

  lemma QueuePark(s: State)
    requires QueueInv(s) && s.running.Some?
    ensures QueueInv(s.(running := None, suspended := false, queue := s.queue + [s.running.value]))
  {
    var queue := s.queue + [s.running.value];
    assert queue[|s.queue|] == s.running.value;
  }

  lemma QueueSpawn(s: State)
    requires QueueInv(s) && s.running.Some?
    ensures QueueInv(s.(created := s.created + 1, pending := s.pending[s.created := Idle],
                        queue := s.queue + [s.created], suspended := true))
  {
    assert s.created !in s.queue && s.created != s.running.value;
    var queue := s.queue + [s.created];
    assert queue[|s.queue|] == s.created;
  }

  lemma QueueStep(s: State, a: Action)
    requires QueueInv(s) && Step(s, a).Some?
    ensures QueueInv(Step(s, a).value)
  {
    hide TrySend, TryReceive, TrySelect;
    match a
    case Dispatch => QueueDispatch(s);
    case Park => QueuePark(s);
    case Spawn => QueueSpawn(s);
    case Try => TryKeepsQueue(s);
    case Finish =>
      var s' := Step(s, a).value;
      assert forall id | id in s'.pending :: id in s.pending;
    case _ =>
  }

  lemma TryKeepsQueue(s: State)
    requires QueueInv(s) && Step(s, Try).Some?
    ensures var s' := Step(s, Try).value;
            && s'.queue == s.queue && s'.running == s.running && s'.pending.Keys == s.pending.Keys
            && s'.created == s.created && s'.exited == s.exited && QueueInv(s')
  {
    var s' := Step(s, Try).value;
    hide Send, Receive, Select, LogSend, LogReceive, LogAll;
    assert s'.pending.Keys == s.pending.Keys;
  }
}
