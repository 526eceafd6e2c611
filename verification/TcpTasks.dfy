/**
 The client's three TCP tasks (client/main/tcp/tasks): a manager that connects, starts a send task and a listen task,
 waits for either to report a failure and tears both down again. They share the socket, the bounded queue of outgoing
 messages and the manager's notification count.

 The tasks are endless loops that FreeRTOS interleaves, so the model is a state machine: an action is one atomic piece
 of one task, an action of a task that does not exist changes nothing, and a run is any sequence of actions.
 */
module TcpTasks {
  import opened Wrappers
  import opened Bytes
  import opened TcpClient
  import Runs

  datatype Config = Config(capacity: nat, maxAttempts: nat)

  /** A message, known to these tasks only by the frame that `send_to_server` puts on the wire for it. */
  datatype Msg = Msg(frame: seq<byte>)

  /** Where the send task is in its loop; all but the first hold a message taken from the queue. */
  datatype SendTask =
    | Receiving
    | Deciding(msg: Msg, attempts: nat)
    | Sending(msg: Msg, attempts: nat, sent: nat)
    | Notifying(msg: Msg)
    | Suspended(msg: Msg)

  datatype ListenTask = Listening | ListenNotifying | ListenSuspended

  datatype Manager =
    | Connecting | SpawningSend | SpawningListen | Waiting | DestroyingSend | DestroyingListen | Disconnecting

  /** What became of a message that left the queue. */
  datatype Fate = Delivered(msg: Msg) | Lost(msg: Msg)

  /** One connection: the bytes the client sent on it, and, as history, the messages they complete and what follows. */
  datatype Connection = Connection(bytes: seq<byte>, whole: seq<Msg>, part: seq<byte>)

  /**
   `senders` and `listeners` are the tasks alive, by identity; the handles are what the task objects remember of them.
   `accepted`, `settled` and `teardowns` are history.
   */
  datatype State = State(
    manager: Manager,
    socket: Option<nat>,
    notifications: nat,
    senders: map<nat, SendTask>, sendHandle: Option<nat>,
    listeners: map<nat, ListenTask>, listenHandle: Option<nat>,
    nextTask: nat,
    queue: seq<Msg>,
    conns: seq<Connection>,
    accepted: seq<Msg>, settled: seq<Fate>, teardowns: nat)

  const INIT := State(Connecting, None, 0, map[], None, map[], None, 0, [], [], [], [], 0)

  /**
   Some other task queues a message; the manager, the send task `id` or the listen task `id` does its next piece.
   `ok` says whether the system call in that piece succeeds, `answer` what `send` answers.
   */
  datatype Action =
    | Enqueue(msg: Msg)
    | Manage(ok: bool)
    | Sender(id: nat, answer: SendResult)
    | Listener(id: nat, ok: bool)

  /** The message a send task holds. */
  function Held(t: SendTask): seq<Msg> {
    if t.Receiving? then [] else [t.msg]
  }

  /** The message in flight: the one held by the task the handle names. */
  function InFlight(s: State): seq<Msg> {
    if s.sendHandle.Some? && s.sendHandle.value in s.senders then Held(s.senders[s.sendHandle.value]) else []
  }

  function Messages(fates: seq<Fate>): seq<Msg> {
    if fates == [] then [] else Messages(fates[..|fates| - 1]) + [fates[|fates| - 1].msg]
  }

  function LostCount(fates: seq<Fate>): nat {
    if fates == [] then 0 else LostCount(fates[..|fates| - 1]) + (if fates[|fates| - 1].Lost? then 1 else 0)
  }

  // ----- the manager -----

  function Losses(held: seq<Msg>): seq<Fate> {
    if held == [] then [] else [Lost(held[0])]
  }

  function ManagerStep(s: State, ok: bool): State {
    match s.manager
    case Connecting =>
      if ok then s.(manager := SpawningSend, socket := Some(|s.conns|), conns := s.conns + [Connection([], [], [])])
      else s
    case SpawningSend =>
      if ok then s.(manager := SpawningListen, senders := s.senders[s.nextTask := Receiving],
                    sendHandle := Some(s.nextTask), nextTask := s.nextTask + 1)
      else s.(manager := SpawningListen)
    case SpawningListen =>
      if ok then s.(manager := Waiting, listeners := s.listeners[s.nextTask := Listening],
                    listenHandle := Some(s.nextTask), nextTask := s.nextTask + 1)
      else s.(manager := Waiting)
    case Waiting =>
      if s.notifications > 0 then s.(manager := DestroyingSend, notifications := 0) else s
    case DestroyingSend =>
      s.(manager := DestroyingListen, teardowns := s.teardowns + 1, settled := s.settled + Losses(InFlight(s)),
         senders := if s.sendHandle.Some? then s.senders - {s.sendHandle.value} else s.senders, sendHandle := None)
    case DestroyingListen =>
      s.(manager := Disconnecting, listenHandle := None,
         listeners := if s.listenHandle.Some? then s.listeners - {s.listenHandle.value} else s.listeners)
    case Disconnecting =>
      if ok then s.(manager := Connecting, socket := None) else s.(manager := Connecting)
  }

  // ----- the send task `id` -----

  /** Bytes accepted by one `send` on a connection; the last ones complete the message. */
  function Sent(c: Connection, p: Msg, from: nat, to: nat): Connection
    requires from <= to <= |p.frame|
  {
    var bytes := c.bytes + p.frame[from..to];
    if to == |p.frame| then Connection(bytes, c.whole + [p], []) else Connection(bytes, c.whole, p.frame[..to])
  }

  /** The send task `id` has put the bytes up to `to` of its message on connection `c`. */
  function SentOn(s: State, id: nat, c: nat, p: Msg, attempts: nat, from: nat, to: nat): State
    requires c < |s.conns| && from <= to <= |p.frame|
  {
    var conns := s.conns[c := Sent(s.conns[c], p, from, to)];
    if to == |p.frame|
    then s.(conns := conns, senders := s.senders[id := Receiving], settled := s.settled + [Delivered(p)])
    else s.(conns := conns, senders := s.senders[id := Sending(p, attempts, to)])
  }

  /** How far into a message one `send` that takes `count` bytes gets. */
  function Reached(p: Msg, sent: nat, count: nat): (to: nat)
    requires sent < |p.frame| && count > 0
    ensures sent < to <= |p.frame|
  {
    if count <= |p.frame| - sent then sent + count else |p.frame|
  }

  /**
   `send_to_server` fails when `send` fails or takes nothing, and never reports a timeout, so the task's branch that
   tries the same message again is not taken: every failure ends in the notification.
   */
  function SenderStep(cfg: Config, s: State, id: nat, answer: SendResult): State
    requires id in s.senders
  {
    match s.senders[id]
    case Receiving =>
      if s.queue == [] then s
      else s.(senders := s.senders[id := Deciding(s.queue[0], 0)], queue := s.queue[1..])
    case Deciding(p, attempts) =>
      s.(senders := s.senders[id := if attempts == cfg.maxAttempts then Notifying(p) else Sending(p, attempts, 0)])
    case Sending(p, attempts, sent) =>
      if answer.Refuses? || answer.count == 0 || s.socket.None? || s.socket.value >= |s.conns| || sent >= |p.frame|
      then s.(senders := s.senders[id := Notifying(p)])
      else SentOn(s, id, s.socket.value, p, attempts, sent, Reached(p, sent, answer.count))
    case Notifying(p) => s.(senders := s.senders[id := Suspended(p)], notifications := s.notifications + 1)
    case Suspended(_) => s
  }

  // ----- the listen task `id` -----

  function ListenerStep(s: State, id: nat, ok: bool): State
    requires id in s.listeners
  {
    match s.listeners[id]
    case Listening => if ok then s else s.(listeners := s.listeners[id := ListenNotifying])
    case ListenNotifying => s.(listeners := s.listeners[id := ListenSuspended], notifications := s.notifications + 1)
    case ListenSuspended => s
  }

  function Step(cfg: Config, s: State, a: Action): State {
    match a
    case Enqueue(p) =>
      if p.frame != [] && |s.queue| < cfg.capacity
      then s.(queue := s.queue + [p], accepted := s.accepted + [p]) else s
    case Manage(ok) => ManagerStep(s, ok)
    case Sender(id, answer) => if id in s.senders then SenderStep(cfg, s, id, answer) else s
    case Listener(id, ok) => if id in s.listeners then ListenerStep(s, id, ok) else s
  }

  function StepOf(cfg: Config): (State, Action) -> State {
    (s, a) => Step(cfg, s, a)
  }

  function Run(cfg: Config, s: State, actions: seq<Action>): State {
    Runs.Run(StepOf(cfg), s, actions)
  }

  // ----- the invariant -----

  ghost predicate Named(keys: set<nat>, handle: Option<nat>) {
    keys == if handle.Some? then {handle.value} else {}
  }

  /** Each handle names exactly the tasks alive, and the manager's position says which may be. */
  ghost predicate TasksInv(s: State) {
    && Named(s.senders.Keys, s.sendHandle)
    && Named(s.listeners.Keys, s.listenHandle)
    && (s.manager in {Connecting, SpawningSend, DestroyingListen, Disconnecting} ==> s.sendHandle.None?)
    && (s.manager in {Connecting, SpawningSend, SpawningListen, Disconnecting} ==> s.listenHandle.None?)
    && (s.manager != Connecting ==> s.socket.Some?)
    && (s.socket.Some? ==> s.socket.value + 1 == |s.conns|)
  }

  /** Nothing the queue accepted disappears or changes places. */
  ghost predicate Conserved(s: State) {
    s.accepted == Messages(s.settled) + (InFlight(s) + s.queue)
  }

  ghost predicate FlowInv(cfg: Config, s: State) {
    && Conserved(s)
    && LostCount(s.settled) <= s.teardowns
    && |s.queue| <= cfg.capacity
    && forall i :: 0 <= i < |s.queue| ==> s.queue[i].frame != []
  }

  function WholeFrames(ps: seq<Msg>): seq<byte> {
    if ps == [] then [] else WholeFrames(ps[..|ps| - 1]) + ps[|ps| - 1].frame
  }

  /** A proper prefix of the frame of some message. */
  ghost predicate Truncated(msgs: seq<Msg>, part: seq<byte>) {
    part == [] || exists p :: p in msgs && part < p.frame
  }

  /** Whole frames followed by at most one truncated one. */
  ghost predicate WellFramed(msgs: seq<Msg>, c: Connection) {
    c.bytes == WholeFrames(c.whole) + c.part && Truncated(msgs, c.part)
  }

  /** What a send task knows about the connection it writes to. */
  ghost predicate InStep(t: SendTask, part: seq<byte>) {
    match t
    case Receiving => part == []
    case Deciding(p, _) => part == [] && p.frame != []
    case Sending(p, _, sent) => sent < |p.frame| && part == p.frame[..sent]
    case _ => true
  }

  ghost predicate AllFramed(msgs: seq<Msg>, conns: seq<Connection>) {
    forall i :: 0 <= i < |conns| ==> WellFramed(msgs, conns[i])
  }

  ghost predicate WireInv(s: State) {
    && AllFramed(s.accepted, s.conns)
    && (s.manager == SpawningSend && s.conns != [] ==> s.conns[|s.conns| - 1].part == [])
    && (s.sendHandle.Some? && s.sendHandle.value in s.senders && s.conns != [] ==>
          InStep(s.senders[s.sendHandle.value], s.conns[|s.conns| - 1].part))
  }

  /** The messages completed on all connections together. */
  function Completed(conns: seq<Connection>): seq<Msg> {
    if conns == [] then [] else Completed(conns[..|conns| - 1]) + conns[|conns| - 1].whole
  }

  function DeliveredOnly(fates: seq<Fate>): seq<Msg> {
    if fates == [] then []
    else
      var f := fates[|fates| - 1];
      DeliveredOnly(fates[..|fates| - 1]) + (if f.Delivered? then [f.msg] else [])
  }

  /** What was completed on the wire is what counts as delivered. */
  ghost predicate DeliveryInv(s: State) {
    Completed(s.conns) == DeliveredOnly(s.settled)
  }

  ghost predicate Inv(cfg: Config, s: State) {
    TasksInv(s) && FlowInv(cfg, s) && WireInv(s) && DeliveryInv(s)
  }

  // ----- every step keeps it: tasks -----

  lemma ManagerKeepsTasks(s: State, ok: bool)
    requires TasksInv(s)
    ensures TasksInv(ManagerStep(s, ok))
  {
  }

  lemma SenderKeepsTasks(cfg: Config, s: State, id: nat, answer: SendResult)
    requires TasksInv(s) && id in s.senders
    ensures TasksInv(SenderStep(cfg, s, id, answer))
  {
    var s' := SenderStep(cfg, s, id, answer);
    assert s'.senders.Keys == s.senders.Keys;
  }

  lemma TasksInvKept(cfg: Config, s: State, a: Action)
    requires TasksInv(s)
    ensures TasksInv(Step(cfg, s, a))
  {
    match a
    case Enqueue(_) =>
    case Manage(ok) => ManagerKeepsTasks(s, ok);
    case Sender(id, answer) => if id in s.senders { SenderKeepsTasks(cfg, s, id, answer); }
    case Listener(id, ok) => if id in s.listeners { assert ListenerStep(s, id, ok).listeners.Keys == s.listeners.Keys; }
  }

  // ----- flow -----

  /** Settling the message in flight keeps the order. */
  lemma OneMoreFate(fates: seq<Fate>, f: Fate, queue: seq<Msg>)
    ensures Messages(fates + [f]) + ([] + queue) == Messages(fates) + ([f.msg] + queue)
    ensures LostCount(fates + [f]) == LostCount(fates) + (if f.Lost? then 1 else 0)
  {
    assert (fates + [f])[..|fates|] == fates;
    assert Messages(fates + [f]) == Messages(fates) + [f.msg];
    Regroup(Messages(fates), [f.msg], queue);
  }

  lemma EnqueueKeepsFlow(cfg: Config, s: State, p: Msg)
    requires FlowInv(cfg, s)
    ensures FlowInv(cfg, Step(cfg, s, Enqueue(p)))
  {
    Regroup(Messages(s.settled), InFlight(s) + s.queue, [p]);
    Regroup(InFlight(s), s.queue, [p]);
  }

  lemma ManagerKeepsFlow(cfg: Config, s: State, ok: bool)
    requires TasksInv(s) && FlowInv(cfg, s)
    ensures FlowInv(cfg, ManagerStep(s, ok))
  {
    if s.manager == DestroyingSend {
      if InFlight(s) == [] {
        assert s.settled + Losses([]) == s.settled;
      } else {
        assert InFlight(s) == [InFlight(s)[0]];
        OneMoreFate(s.settled, Lost(InFlight(s)[0]), s.queue);
      }
    }
  }

  lemma SendKeepsFlow(cfg: Config, s: State, id: nat, c: nat, p: Msg, attempts: nat, from: nat, to: nat)
    requires FlowInv(cfg, s) && s.sendHandle == Some(id) && id in s.senders
    requires s.senders[id] == Sending(p, attempts, from) && c < |s.conns| && from < to <= |p.frame|
    ensures FlowInv(cfg, SentOn(s, id, c, p, attempts, from, to))
  {
    var s' := SentOn(s, id, c, p, attempts, from, to);
    assert InFlight(s) == [p];
    if to == |p.frame| {
      assert InFlight(s') == [] && s'.settled == s.settled + [Delivered(p)];
      OneMoreFate(s.settled, Delivered(p), s.queue);
    } else {
      assert InFlight(s') == [p] && s'.settled == s.settled;
    }
  }

  lemma SenderKeepsFlow(cfg: Config, s: State, id: nat, answer: SendResult)
    requires TasksInv(s) && FlowInv(cfg, s) && id in s.senders
    ensures FlowInv(cfg, SenderStep(cfg, s, id, answer))
  {
    match s.senders[id]
    case Sending(p, attempts, sent) =>
      if answer.Accepts? && answer.count > 0 && s.socket.Some? && sent < |p.frame| {
        SendKeepsFlow(cfg, s, id, s.socket.value, p, attempts, sent, Reached(p, sent, answer.count));
      }
    case Receiving =>
      if s.queue != [] {
        assert [] + s.queue == [s.queue[0]] + s.queue[1..];
      }
    case _ =>
  }

  lemma FlowInvKept(cfg: Config, s: State, a: Action)
    requires TasksInv(s) && FlowInv(cfg, s)
    ensures FlowInv(cfg, Step(cfg, s, a))
  {
    match a
    case Enqueue(p) => EnqueueKeepsFlow(cfg, s, p);
    case Manage(ok) => ManagerKeepsFlow(cfg, s, ok);
    case Sender(id, answer) => if id in s.senders { SenderKeepsFlow(cfg, s, id, answer); }
    case Listener(_, _) =>
  }

  // ----- the wire -----

  /** The bytes from `from` to `to` of a frame go behind those up to `from`. */
  lemma PartGrows(whole: seq<byte>, frame: seq<byte>, from: nat, to: nat)
    requires from <= to <= |frame|
    ensures whole + frame[..from] + frame[from..to] == whole + frame[..to]
    ensures to == |frame| ==> frame[..to] == frame
    ensures to < |frame| ==> frame[..to] < frame
  {
    assert frame[..from] + frame[from..to] == frame[..to];
    Regroup(whole, frame[..from], frame[from..to]);
  }

  lemma OneMoreWhole(ps: seq<Msg>, p: Msg)
    ensures WholeFrames(ps + [p]) == WholeFrames(ps) + p.frame
  {
    assert (ps + [p])[..|ps|] == ps;
  }

  lemma SentKeepsFraming(msgs: seq<Msg>, c: Connection, p: Msg, from: nat, to: nat)
    requires WellFramed(msgs, c) && p in msgs && from < to <= |p.frame| && c.part == p.frame[..from]
    ensures WellFramed(msgs, Sent(c, p, from, to))
  {
    PartGrows(WholeFrames(c.whole), p.frame, from, to);
    OneMoreWhole(c.whole, p);
  }

  lemma HeldIsAccepted(cfg: Config, s: State, id: nat)
    requires TasksInv(s) && FlowInv(cfg, s) && id in s.senders && !s.senders[id].Receiving?
    ensures s.senders[id].msg in s.accepted
  {
    assert InFlight(s) == [s.senders[id].msg];
    assert s.accepted[|Messages(s.settled)|] == s.senders[id].msg;
  }

  /** One `send` of the task `id` on the newest connection. */
  lemma SendKeepsWire(s: State, id: nat, c: nat, p: Msg, attempts: nat, from: nat, to: nat)
    requires TasksInv(s) && WireInv(s)
    requires s.sendHandle == Some(id) && id in s.senders && s.senders[id] == Sending(p, attempts, from)
    requires p in s.accepted && c + 1 == |s.conns| && from < to <= |p.frame|
    ensures WireInv(SentOn(s, id, c, p, attempts, from, to))
  {
    SentKeepsFraming(s.accepted, s.conns[c], p, from, to);
    OneMoreFramed(s.accepted, s.conns, c, Sent(s.conns[c], p, from, to));
  }

  lemma OneMoreFramed(msgs: seq<Msg>, conns: seq<Connection>, c: nat, next: Connection)
    requires AllFramed(msgs, conns) && c < |conns| && WellFramed(msgs, next)
    ensures AllFramed(msgs, conns[c := next])
  {
  }

  lemma ManagerKeepsWire(s: State, ok: bool)
    requires TasksInv(s) && WireInv(s)
    ensures WireInv(ManagerStep(s, ok))
  {
    if s.manager == Connecting {
      assert AllFramed(s.accepted, s.conns + [Connection([], [], [])]);
    }
  }

  lemma SenderKeepsWire(cfg: Config, s: State, id: nat, answer: SendResult)
    requires TasksInv(s) && FlowInv(cfg, s) && WireInv(s) && id in s.senders
    ensures WireInv(SenderStep(cfg, s, id, answer))
  {
    var t := s.senders[id];
    if t.Sending? {
      HeldIsAccepted(cfg, s, id);
      if answer.Accepts? && answer.count > 0 {
        SendKeepsWire(s, id, s.socket.value, t.msg, t.attempts, t.sent, Reached(t.msg, t.sent, answer.count));
      }
    }
  }

  lemma WireInvKept(cfg: Config, s: State, a: Action)
    requires TasksInv(s) && FlowInv(cfg, s) && WireInv(s)
    ensures WireInv(Step(cfg, s, a))
  {
    match a
    case Enqueue(p) => assert AllFramed(s.accepted + [p], s.conns);
    case Manage(ok) => ManagerKeepsWire(s, ok);
    case Sender(id, answer) => if id in s.senders { SenderKeepsWire(cfg, s, id, answer); }
    case Listener(_, _) =>
  }

  // ----- deliveries -----

  lemma SendKeepsDelivery(s: State, id: nat, c: nat, p: Msg, attempts: nat, from: nat, to: nat)
    requires DeliveryInv(s) && c + 1 == |s.conns| && from < to <= |p.frame|
    ensures DeliveryInv(SentOn(s, id, c, p, attempts, from, to))
  {
    var sent := Sent(s.conns[c], p, from, to);
    assert s.conns[c := sent][..c] == s.conns[..c];
    if to == |p.frame| {
      assert (s.settled + [Delivered(p)])[..|s.settled|] == s.settled;
      Regroup(Completed(s.conns[..c]), s.conns[c].whole, [p]);
    }
  }

  lemma ManagerKeepsDelivery(s: State, ok: bool)
    requires DeliveryInv(s)
    ensures DeliveryInv(ManagerStep(s, ok))
  {
    var s' := ManagerStep(s, ok);
    if s.manager == Connecting && ok {
      assert s'.conns[..|s.conns|] == s.conns;
    } else if s.manager == DestroyingSend {
      assert s'.settled[..|s.settled|] == s.settled;
      assert InFlight(s) == [] ==> s'.settled == s.settled;
    }
  }

  lemma DeliveryInvKept(cfg: Config, s: State, a: Action)
    requires TasksInv(s) && DeliveryInv(s)
    ensures DeliveryInv(Step(cfg, s, a))
  {
    match a
    case Enqueue(_) =>
    case Manage(ok) => ManagerKeepsDelivery(s, ok);
    case Sender(id, answer) =>
      if id in s.senders && s.senders[id].Sending? {
        var t := s.senders[id];
        if answer.Accepts? && answer.count > 0 && s.socket.Some? && t.sent < |t.msg.frame| {
          SendKeepsDelivery(s, id, s.socket.value, t.msg, t.attempts, t.sent, Reached(t.msg, t.sent, answer.count));
        }
      }
    case Listener(_, _) =>
  }

  lemma {:induction false} InvHolds(cfg: Config, s: State, actions: seq<Action>)
    requires Inv(cfg, s)
    ensures Inv(cfg, Run(cfg, s, actions))
    decreases |actions|
  {
    if actions != [] {
      TasksInvKept(cfg, s, actions[0]);
      FlowInvKept(cfg, s, actions[0]);
      WireInvKept(cfg, s, actions[0]);
      DeliveryInvKept(cfg, s, actions[0]);
      InvHolds(cfg, Step(cfg, s, actions[0]), actions[1..]);
    }
  }

  // ----- what every interleaving guarantees -----

  ghost predicate Reachable(cfg: Config, s: State) {
    exists actions :: s == Run(cfg, INIT, actions)
  }

  lemma ReachableInv(cfg: Config, s: State)
    requires Reachable(cfg, s)
    ensures Inv(cfg, s)
  {
    var actions :| s == Run(cfg, INIT, actions);
    InvHolds(cfg, INIT, actions);
  }

  /** Never two send or two listen tasks; a live one has a socket; none is left to see a disconnect or a connect. */
  lemma TasksAreExclusive(cfg: Config, s: State)
    requires Reachable(cfg, s)
    ensures |s.senders| <= 1 && |s.listeners| <= 1
    ensures s.senders != map[] || s.listeners != map[] ==> s.socket.Some?
    ensures s.manager == Disconnecting || s.manager == Connecting ==> s.senders == map[] && s.listeners == map[]
  {
    ReachableInv(cfg, s);
    assert |s.senders| == |s.senders.Keys| && |s.listeners| == |s.listeners.Keys|;
  }

  /**
   The messages the queue accepted are, in order, those delivered or lost, then the one in flight, then those queued;
   and no more are lost than connections torn down.
   */
  lemma MessagesAreConserved(cfg: Config, s: State)
    requires Reachable(cfg, s)
    ensures s.accepted == Messages(s.settled) + InFlight(s) + s.queue
    ensures forall id :: id in s.senders ==> InFlight(s) == Held(s.senders[id])
    ensures LostCount(s.settled) <= s.teardowns
  {
    ReachableInv(cfg, s);
    Regroup(Messages(s.settled), InFlight(s), s.queue);
  }

  /**
   On every connection the client sent whole frames and then at most a truncated one, and the whole ones of all
   connections together are the delivered messages, in order.
   */
  lemma WireIsWholeFrames(cfg: Config, s: State)
    requires Reachable(cfg, s)
    ensures forall c :: 0 <= c < |s.conns| ==> WellFramed(s.accepted, s.conns[c])
    ensures Completed(s.conns) == DeliveredOnly(s.settled)
  {
    ReachableInv(cfg, s);
  }

  // ----- recovery: a failure is noticed, and followed by a new connection -----

  /** A task that has suspended itself has told the manager, who has not yet taken the notice or is tearing down. */
  ghost predicate NoticeInv(s: State) {
    && (forall id :: id in s.senders && s.senders[id].Suspended? ==> s.notifications > 0 || s.manager == DestroyingSend)
    && (forall id :: id in s.listeners && s.listeners[id].ListenSuspended? ==>
          s.notifications > 0 || s.manager == DestroyingSend || s.manager == DestroyingListen)
  }

  lemma ManagerKeepsNotice(s: State, ok: bool)
    requires TasksInv(s) && NoticeInv(s)
    ensures NoticeInv(ManagerStep(s, ok))
  {
  }

  lemma SenderKeepsNotice(cfg: Config, s: State, id: nat, answer: SendResult)
    requires NoticeInv(s) && id in s.senders
    ensures NoticeInv(SenderStep(cfg, s, id, answer))
  {
  }

  lemma NoticeInvKept(cfg: Config, s: State, a: Action)
    requires TasksInv(s) && NoticeInv(s)
    ensures NoticeInv(Step(cfg, s, a))
  {
    match a
    case Enqueue(_) =>
    case Manage(ok) => ManagerKeepsNotice(s, ok);
    case Sender(id, answer) => if id in s.senders { SenderKeepsNotice(cfg, s, id, answer); }
    case Listener(_, _) =>
  }

  lemma {:induction false} NoticeHolds(cfg: Config, s: State, actions: seq<Action>)
    requires TasksInv(s) && NoticeInv(s)
    ensures NoticeInv(Run(cfg, s, actions))
    decreases |actions|
  {
    if actions != [] {
      TasksInvKept(cfg, s, actions[0]);
      NoticeInvKept(cfg, s, actions[0]);
      NoticeHolds(cfg, Step(cfg, s, actions[0]), actions[1..]);
    }
  }

  /** In every reachable state a suspended task is known to the manager. */
  lemma FailuresAreNoticed(cfg: Config, s: State, id: nat)
    requires Reachable(cfg, s)
    requires (id in s.senders && s.senders[id].Suspended?) || (id in s.listeners && s.listeners[id].ListenSuspended?)
    ensures s.notifications > 0 || s.manager == DestroyingSend || s.manager == DestroyingListen
  {
    var actions :| s == Run(cfg, INIT, actions);
    NoticeHolds(cfg, INIT, actions);
  }

  /**
   From every reachable state in which the manager waits and has been notified, four of its turns take both tasks and
   the socket away, a fifth opens the next connection, and two more start its tasks.
   */
  lemma ManagerRecovers(cfg: Config, s: State)
    requires Reachable(cfg, s) && s.manager == Waiting && s.notifications > 0
    ensures var down := Run(cfg, s, [Manage(true), Manage(true), Manage(true), Manage(true)]);
            && down.manager == Connecting && down.senders == map[] && down.listeners == map[] && down.socket.None?
            && down.teardowns == s.teardowns + 1 && down.conns == s.conns && down.queue == s.queue
            && var up := Run(cfg, down, [Manage(true)]);
               && up.manager == SpawningSend && up.socket == Some(|s.conns|)
               && up.conns == s.conns + [Connection([], [], [])]
               && var ready := Run(cfg, up, [Manage(true), Manage(true)]);
                  && ready.manager == Waiting && ready.socket == up.socket && ready.conns == up.conns
                  && ready.senders == map[s.nextTask := Receiving]
                  && ready.listeners == map[s.nextTask + 1 := Listening]
  {
    ReachableInv(cfg, s);
    Runs.FourSteps(StepOf(cfg), s, Manage(true), Manage(true), Manage(true), Manage(true));
    ManagerTearsDown(s);
    var down := Run(cfg, s, [Manage(true), Manage(true), Manage(true), Manage(true)]);
    Runs.OneStep(StepOf(cfg), down, Manage(true));
    var up := Run(cfg, down, [Manage(true)]);
    Runs.TwoSteps(StepOf(cfg), up, Manage(true), Manage(true));
    assert ManagerStep(up, true).senders == map[s.nextTask := Receiving];
  }

  lemma ManagerTearsDown(s: State)
    requires TasksInv(s) && s.manager == Waiting && s.notifications > 0
    ensures var down := ManagerStep(ManagerStep(ManagerStep(ManagerStep(s, true), true), true), true);
            && down.manager == Connecting && down.senders == map[] && down.listeners == map[] && down.socket.None?
            && down.teardowns == s.teardowns + 1 && down.conns == s.conns && down.queue == s.queue
            && down.nextTask == s.nextTask
  {
    var taken := ManagerStep(s, true);
    var sendGone := ManagerStep(taken, true);
    assert sendGone.manager == DestroyingListen && sendGone.senders == map[];
    var bothGone := ManagerStep(sendGone, true);
    assert bothGone.manager == Disconnecting && bothGone.listeners == map[];
  }

  /** A send that the socket refuses, or takes nothing of, notifies the manager with the task's next piece. */
  lemma RefusedSendIsNoticed(cfg: Config, s: State, id: nat, answer: SendResult, any: SendResult)
    requires id in s.senders && s.senders[id].Sending? && (answer == Refuses || answer == Accepts(0))
    ensures var end := Run(cfg, s, [Sender(id, answer), Sender(id, any)]);
            && id in end.senders && end.senders[id] == Suspended(s.senders[id].msg)
            && end.notifications == s.notifications + 1 && end.conns == s.conns
  {
    Runs.TwoSteps(StepOf(cfg), s, Sender(id, answer), Sender(id, any));
  }

  /** A receive that fails notifies the manager with the task's next piece; one that does not changes nothing. */
  lemma FailedReceiveIsNoticed(cfg: Config, s: State, id: nat, any: bool)
    requires id in s.listeners && s.listeners[id].Listening?
    ensures var end := Run(cfg, s, [Listener(id, false), Listener(id, any)]);
            && id in end.listeners && end.listeners[id] == ListenSuspended
            && end.notifications == s.notifications + 1
    ensures Step(cfg, s, Listener(id, true)) == s
  {
    Runs.TwoSteps(StepOf(cfg), s, Listener(id, false), Listener(id, any));
  }

  // ----- delivery: an idle sender and a willing socket -----

  /** The send task's turns while the socket gives these answers. */
  function Sends(id: nat, answers: seq<SendResult>): seq<Action> {
    seq(|answers|, i requires 0 <= i < |answers| => Sender(id, answers[i]))
  }

  /** The answers are all willing and take `size` bytes, the last of them the last byte. */
  ghost predicate JustEnough(answers: seq<SendResult>, size: nat) {
    Willing(answers) && answers != [] && Total(answers[..|answers| - 1]) < size <= Total(answers)
  }

  lemma FirstOfEnough(answers: seq<SendResult>, size: nat)
    requires JustEnough(answers, size)
    ensures answers[0].Accepts? && answers[0].count > 0
    ensures if |answers| == 1 then answers[0].count >= size
            else answers[0].count < size && JustEnough(answers[1..], size - answers[0].count)
  {
    var first, rest := answers[..1], answers[1..];
    assert Total(first) == Total(first[..0]) + answers[0].count;
    assert first + rest == answers;
    TotalOfSum(first, rest);
    if |answers| > 1 {
      var front := answers[..|answers| - 1];
      assert first + rest[..|rest| - 1] == front;
      TotalOfSum(first, rest[..|rest| - 1]);
    }
  }

  /** Nothing but the message in flight, its bytes and its fate change. */
  ghost predicate OnlySent(s: State, end: State, id: nat, p: Msg) {
    && id in end.senders && end.senders[id] == Receiving && end.settled == s.settled + [Delivered(p)]
    && end.queue == s.queue && end.accepted == s.accepted && end.notifications == s.notifications
    && end.manager == s.manager && end.teardowns == s.teardowns && end.socket == s.socket && |end.conns| == |s.conns|
  }

  lemma {:induction false} SendsDeliver(cfg: Config, s: State, id: nat, p: Msg, attempts: nat, sent: nat,
                                        answers: seq<SendResult>)
    requires id in s.senders && s.senders[id] == Sending(p, attempts, sent) && sent < |p.frame|
    requires s.socket.Some? && s.socket.value < |s.conns| && JustEnough(answers, |p.frame| - sent)
    ensures OnlySent(s, Run(cfg, s, Sends(id, answers)), id, p)
    decreases |answers|
  {
    FirstOfEnough(answers, |p.frame| - sent);
    var next := Step(cfg, s, Sender(id, answers[0]));
    assert Sends(id, answers)[1..] == Sends(id, answers[1..]);
    assert Run(cfg, s, Sends(id, answers)) == Run(cfg, next, Sends(id, answers[1..]));
    if |answers| == 1 {
      assert Run(cfg, next, []) == next;
    } else {
      SendsDeliver(cfg, next, id, p, attempts, sent + answers[0].count, answers[1..]);
    }
  }

  /**
   In every reachable state, a send task that waits for a message, finds one in the queue and has a socket that takes
   its bytes, in whatever portions, delivers it and waits for the next.
   */
  lemma IdleSenderDelivers(cfg: Config, s: State, id: nat, answers: seq<SendResult>, any: SendResult)
    requires Reachable(cfg, s) && cfg.maxAttempts > 0
    requires id in s.senders && s.senders[id] == Receiving && s.queue != []
    requires JustEnough(answers, |s.queue[0].frame|)
    ensures var end := Run(cfg, s, [Sender(id, any), Sender(id, any)] + Sends(id, answers));
            OnlySent(s.(queue := s.queue[1..]), end, id, s.queue[0])
  {
    ReachableInv(cfg, s);
    Runs.RunAppends(StepOf(cfg), s, [Sender(id, any), Sender(id, any)], Sends(id, answers));
    Runs.TwoSteps(StepOf(cfg), s, Sender(id, any), Sender(id, any));
    var ready := Step(cfg, Step(cfg, s, Sender(id, any)), Sender(id, any));
    assert ready == s.(queue := s.queue[1..], senders := s.senders[id := Sending(s.queue[0], 0, 0)]);
    SendsDeliver(cfg, ready, id, s.queue[0], 0, 0, answers);
  }

  /** A message is accepted exactly if it has a frame and there is room for it. */
  lemma EnqueueAcceptsIff(cfg: Config, s: State, p: Msg)
    requires p.frame != []
    ensures Step(cfg, s, Enqueue(p)).accepted == s.accepted + [p] <==> |s.queue| < cfg.capacity
  {
    assert s.accepted != s.accepted + [p];
  }

  // ----- no teardown without a failure -----

  /** The manager waits, nobody has anything to tell it, and nobody is about to. */
  ghost predicate Healthy(s: State) {
    && s.manager == Waiting && s.notifications == 0
    && (forall id :: id in s.senders ==>
          match s.senders[id]
          case Receiving => true
          case Deciding(_, attempts) => attempts == 0
          case Sending(_, _, _) => true
          case _ => false)
    && (forall id :: id in s.listeners ==> s.listeners[id] == Listening)
  }

  /** No send and no receive fails. */
  predicate Works(a: Action) {
    match a
    case Sender(_, answer) => answer.Accepts? && answer.count > 0
    case Listener(_, ok) => ok
    case _ => true
  }

  lemma SenderStaysHealthy(cfg: Config, s: State, id: nat, answer: SendResult)
    requires TasksInv(s) && WireInv(s) && Healthy(s) && cfg.maxAttempts > 0
    requires id in s.senders && answer.Accepts? && answer.count > 0
    ensures var s' := SenderStep(cfg, s, id, answer);
            && Healthy(s') && s'.teardowns == s.teardowns && s'.socket == s.socket && |s'.conns| == |s.conns|
            && LostCount(s'.settled) == LostCount(s.settled)
  {
    var t := s.senders[id];
    if t.Sending? {
      assert InStep(t, s.conns[|s.conns| - 1].part);
      OneMoreFate(s.settled, Delivered(t.msg), s.queue);
    }
  }

  lemma StepStaysHealthy(cfg: Config, s: State, a: Action)
    requires TasksInv(s) && WireInv(s) && Healthy(s) && Works(a) && cfg.maxAttempts > 0
    ensures var s' := Step(cfg, s, a);
            && Healthy(s') && s'.teardowns == s.teardowns && s'.socket == s.socket && |s'.conns| == |s.conns|
            && LostCount(s'.settled) == LostCount(s.settled)
  {
    if a.Sender? && a.id in s.senders {
      SenderStaysHealthy(cfg, s, a.id, a.answer);
    }
  }

  /** A connection on which nothing fails is never torn down, and no message on it is lost. */
  lemma {:induction false} HealthyConnectionStays(cfg: Config, s: State, actions: seq<Action>)
    requires Inv(cfg, s) && Healthy(s) && cfg.maxAttempts > 0
    requires forall i :: 0 <= i < |actions| ==> Works(actions[i])
    ensures var end := Run(cfg, s, actions);
            && Healthy(end) && end.teardowns == s.teardowns && end.socket == s.socket && |end.conns| == |s.conns|
            && LostCount(end.settled) == LostCount(s.settled)
    decreases |actions|
  {
    if actions != [] {
      StepStaysHealthy(cfg, s, actions[0]);
      var next := Step(cfg, s, actions[0]);
      TasksInvKept(cfg, s, actions[0]);
      FlowInvKept(cfg, s, actions[0]);
      WireInvKept(cfg, s, actions[0]);
      DeliveryInvKept(cfg, s, actions[0]);
      HealthyConnectionStays(cfg, next, actions[1..]);
    }
  }

  // ----- a notice can outlive its connection -----

  /** A new connection is torn down at the manager's first look exactly if a notice is left over when it is made. */
  lemma NewConnectionFallsIff(cfg: Config, s: State)
    requires s.manager == Connecting
    ensures var looked := Run(cfg, s, [Manage(true), Manage(true), Manage(true), Manage(true)]);
            && |looked.conns| == |s.conns| + 1
            && looked.manager == if s.notifications > 0 then DestroyingSend else Waiting
  {
    Runs.FourSteps(StepOf(cfg), s, Manage(true), Manage(true), Manage(true), Manage(true));
  }

  /** A run that goes on with four more actions. */
  lemma Onward(cfg: Config, s: State, before: seq<Action>, a: Action, b: Action, c: Action, d: Action)
    returns (actions: seq<Action>)
    ensures actions == before + [a, b, c, d]
    ensures Run(cfg, s, actions) == Step(cfg, Step(cfg, Step(cfg, Step(cfg, Run(cfg, s, before), a), b), c), d)
  {
    actions := before + [a, b, c, d];
    Runs.RunAppends(StepOf(cfg), s, before, [a, b, c, d]);
    Runs.FourSteps(StepOf(cfg), Run(cfg, s, before), a, b, c, d);
  }

  /** Both tasks are at work, and a message is queued. */
  ghost predicate BothAtWork(s: State, p: Msg) {
    && s.manager == Waiting && s.notifications == 0 && s.senders == map[0 := Receiving] && s.queue == [p]
    && s.listeners == map[1 := Listening] && s.sendHandle == Some(0)
  }

  lemma FirstConnection(cfg: Config, p: Msg) returns (actions: seq<Action>)
    requires cfg.capacity > 0 && p.frame != []
    ensures BothAtWork(Run(cfg, INIT, actions), p)
  {
    var go := Manage(true);
    actions := Onward(cfg, INIT, [], Enqueue(p), go, go, go);
    var s := Step(cfg, INIT, Enqueue(p));
    assert s.queue == [p];
    var sending := ManagerStep(ManagerStep(s, true), true);
    assert sending.senders == map[0 := Receiving] && sending.nextTask == 1;
  }

  /** The manager has taken a notice, and the send task still holds a message. */
  ghost predicate TornDownWithMessage(s: State, p: Msg) {
    && s.manager == DestroyingSend && s.notifications == 0
    && s.senders == map[0 := Deciding(p, 0)] && s.sendHandle == Some(0)
  }

  lemma ListenerFails(cfg: Config, before: seq<Action>, p: Msg) returns (actions: seq<Action>)
    requires BothAtWork(Run(cfg, INIT, before), p)
    ensures TornDownWithMessage(Run(cfg, INIT, actions), p)
  {
    actions := Onward(cfg, INIT, before, Listener(1, false), Listener(1, false), Manage(true), Sender(0, Refuses));
  }

  lemma SenderFailsToo(cfg: Config, before: seq<Action>, p: Msg) returns (actions: seq<Action>)
    requires TornDownWithMessage(Run(cfg, INIT, before), p) && cfg.maxAttempts > 0
    ensures var s := Run(cfg, INIT, actions); s.manager == DestroyingListen && s.notifications == 1
  {
    var fails := Sender(0, Refuses);
    actions := Onward(cfg, INIT, before, fails, fails, fails, Manage(true));
  }

  /** That does happen: the listen task fails, and before the send task is destroyed it fails too. */
  lemma NoticeIsLeftOver(cfg: Config, p: Msg) returns (actions: seq<Action>)
    requires cfg.capacity > 0 && cfg.maxAttempts > 0 && p.frame != []
    ensures var s := Run(cfg, INIT, actions); s.manager == Connecting && s.notifications == 1
  {
    actions := FirstConnection(cfg, p);
    actions := ListenerFails(cfg, actions, p);
    actions := SenderFailsToo(cfg, actions, p);
    var end := [Manage(true), Manage(true)];
    Runs.RunAppends(StepOf(cfg), INIT, actions, end);
    Runs.TwoSteps(StepOf(cfg), Run(cfg, INIT, actions), Manage(true), Manage(true));
    actions := actions + end;
  }
}
