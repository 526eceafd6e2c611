/**
 The host's handshake manager (host/src/host/protocol/handshake_manager.cpp) over the timers of Asio
 (vendors/asio-1.36.0/include/asio/basic_waitable_timer.hpp).

 The session map owns one timer per id. A wait on a timer completes exactly once: successfully when the timer expires,
 aborted when it is cancelled or destroyed first. A completion is queued, and the handler runs later; once queued it can
 no longer be cancelled. The model counts queued completions and lets their handlers run in any order.
 */
module Handshake {
  import Runs

  type Id = n: int | 0 <= n < 0x1_0000

  type Counts = map<Id, nat>

  function Count(m: Counts, id: Id): nat {
    if id in m then m[id] else 0
  }

  function Plus(m: Counts, id: Id, n: nat): Counts {
    m[id := Count(m, id) + n]
  }

  /**
   `session` gives, for the timer of every id, how many waits are pending on it; `expired` and `aborted` count the
   queued completions. The rest is history: `connects`, the completions handled (every handled expiry disconnects), and
   in `settled` the ids answered or disconnected since they last connected.
   */
  datatype State = State(
    session: Counts,
    expired: Counts, aborted: Counts,
    connects: Counts, disconnects: Counts, dropped: Counts,
    settled: set<Id>)

  const INIT := State(map[], map[], map[], map[], map[], map[], {})

  datatype Action =
    | Connect(id: Id)
    | Respond(id: Id)
    | Expire(id: Id)
    | Handle(id: Id, ok: bool)

  /** Cancelling or destroying the timer of `id`, and dropping its session. */
  function Erased(s: State, id: Id): State {
    s.(session := s.session - {id}, aborted := Plus(s.aborted, id, Count(s.session, id)), settled := s.settled + {id})
  }

  /** `on_connect`: a new session, or one more wait on the timer of the session already there. */
  function OnConnect(s: State, id: Id): State {
    s.(session := Plus(s.session, id, 1), connects := Plus(s.connects, id, 1), settled := s.settled - {id})
  }

  /** `on_response_received`: an unknown id changes nothing. */
  function OnResponse(s: State, id: Id): State {
    if id in s.session then Erased(s, id) else s
  }

  /** The timer of `id` expires: every wait pending on it completes. */
  function OnExpiry(s: State, id: Id): State {
    if id in s.session
    then s.(session := s.session[id := 0], expired := Plus(s.expired, id, s.session[id])) else s
  }

  /** The completion handler: only an expiry disconnects, and drops whatever session the id has by then. */
  function OnCompletion(s: State, id: Id, ok: bool): State {
    if ok && Count(s.expired, id) > 0 then
      Erased(s.(expired := s.expired[id := s.expired[id] - 1], disconnects := Plus(s.disconnects, id, 1)), id)
    else if !ok && Count(s.aborted, id) > 0 then
      s.(aborted := s.aborted[id := s.aborted[id] - 1], dropped := Plus(s.dropped, id, 1))
    else s
  }

  function Step(s: State, a: Action): State {
    match a
    case Connect(id) => OnConnect(s, id)
    case Respond(id) => OnResponse(s, id)
    case Expire(id) => OnExpiry(s, id)
    case Handle(id, ok) => OnCompletion(s, id, ok)
  }

  function Run(s: State, actions: seq<Action>): State {
    Runs.Run(Step, s, actions)
  }

  ghost predicate Reachable(s: State) {
    exists actions :: s == Run(INIT, actions)
  }

  // ----- the invariant -----

  /** All that one id can see of a state. */
  datatype Client = Client(live: bool, pending: nat, expired: nat, aborted: nat,
                           connects: nat, disconnects: nat, dropped: nat, settled: bool)

  function Look(s: State, id: Id): Client {
    Client(id in s.session, Count(s.session, id), Count(s.expired, id), Count(s.aborted, id),
           Count(s.connects, id), Count(s.disconnects, id), Count(s.dropped, id), id in s.settled)
  }

  /** The effect of an action on the id it concerns. */
  function ClientStep(c: Client, a: Action): Client {
    match a
    case Connect(_) => c.(live := true, pending := c.pending + 1, connects := c.connects + 1, settled := false)
    case Respond(_) =>
      if c.live then c.(live := false, pending := 0, aborted := c.aborted + c.pending, settled := true) else c
    case Expire(_) => c.(pending := 0, expired := c.expired + c.pending)
    case Handle(_, ok) =>
      if ok && c.expired > 0 then
        c.(live := false, pending := 0, expired := c.expired - 1, aborted := c.aborted + c.pending,
           disconnects := c.disconnects + 1, settled := true)
      else if !ok && c.aborted > 0 then c.(aborted := c.aborted - 1, dropped := c.dropped + 1)
      else c
  }

  lemma PlusCounts(m: Counts, k: Id, n: nat, id: Id)
    ensures Count(Plus(m, k, n), id) == Count(m, id) + (if k == id then n else 0)
  {
  }

  lemma ErasedIsLocal(s: State, k: Id, id: Id)
    ensures var c := Look(s, id);
            Look(Erased(s, k), id) ==
            if k == id then c.(live := false, pending := 0, aborted := c.aborted + c.pending, settled := true) else c
  {
    PlusCounts(s.aborted, k, Count(s.session, k), id);
  }

  lemma ConnectIsLocal(s: State, k: Id, id: Id)
    ensures Look(OnConnect(s, k), id) == if k == id then ClientStep(Look(s, id), Connect(k)) else Look(s, id)
  {
    PlusCounts(s.session, k, 1, id);
    PlusCounts(s.connects, k, 1, id);
  }

  lemma ExpiryIsLocal(s: State, k: Id, id: Id)
    ensures Look(OnExpiry(s, k), id) == if k == id then ClientStep(Look(s, id), Expire(k)) else Look(s, id)
  {
    PlusCounts(s.expired, k, Count(s.session, k), id);
  }

  lemma CompletionIsLocal(s: State, k: Id, ok: bool, id: Id)
    ensures Look(OnCompletion(s, k, ok), id) == if k == id then ClientStep(Look(s, id), Handle(k, ok)) else Look(s, id)
  {
    if ok && Count(s.expired, k) > 0 {
      var s' := s.(expired := s.expired[k := s.expired[k] - 1], disconnects := Plus(s.disconnects, k, 1));
      PlusCounts(s.disconnects, k, 1, id);
      ErasedIsLocal(s', k, id);
    } else if !ok {
      PlusCounts(s.dropped, k, 1, id);
    }
  }

  /** Ids do not meddle with each other: an action changes what its own id sees, and nothing else. */
  lemma StepIsLocal(s: State, a: Action, id: Id)
    ensures Look(Step(s, a), id) == if a.id == id then ClientStep(Look(s, id), a) else Look(s, id)
  {
    match a
    case Connect(k) => ConnectIsLocal(s, k, id);
    case Respond(k) => ErasedIsLocal(s, k, id);
    case Expire(k) => ExpiryIsLocal(s, k, id);
    case Handle(k, ok) => CompletionIsLocal(s, k, ok, id);
  }

  /**
   Every connect is a wait that is pending, queued or handled; a session is still waited for, by a pending wait or by a
   queued expiry; and an id that connected is in session, or was answered or disconnected since.
   */
  ghost predicate ClientInv(c: Client) {
    && c.connects == c.pending + c.expired + c.aborted + c.disconnects + c.dropped
    && (c.live ==> c.pending > 0 || c.expired > 0)
    && (c.connects > 0 ==> c.live || c.settled)
  }

  ghost predicate Inv(s: State) {
    forall id: Id :: ClientInv(Look(s, id))
  }

  lemma StepKeepsInv(s: State, a: Action, id: Id)
    requires ClientInv(Look(s, id))
    ensures ClientInv(Look(Step(s, a), id))
  {
    StepIsLocal(s, a, id);
    ClientStepKeepsInv(Look(s, id), a);
  }

  lemma ClientStepKeepsInv(c: Client, a: Action)
    requires ClientInv(c)
    ensures ClientInv(ClientStep(c, a))
  {
  }

  lemma {:induction false} InvHolds(s: State, actions: seq<Action>)
    requires Inv(s)
    ensures Inv(Run(s, actions))
    decreases |actions|
  {
    if actions != [] {
      forall id: Id ensures ClientInv(Look(Step(s, actions[0]), id)) {
        StepKeepsInv(s, actions[0], id);
      }
      InvHolds(Step(s, actions[0]), actions[1..]);
    }
  }

  /** In every reachable state each session is awaited, and each connect is a pending, a queued or a handled wait. */
  lemma SessionsAreAwaited(s: State, id: Id)
    requires Reachable(s)
    ensures id in s.session ==> s.session[id] > 0 || Count(s.expired, id) > 0
    ensures Count(s.connects, id) ==
            Count(s.session, id) + Count(s.expired, id) + Count(s.aborted, id) +
            Count(s.disconnects, id) + Count(s.dropped, id)
  {
    ReachableInv(s);
    assert ClientInv(Look(s, id));
  }

  lemma ReachableInv(s: State)
    requires Reachable(s)
    ensures Inv(s)
  {
    var actions :| s == Run(INIT, actions);
    InvHolds(INIT, actions);
  }

  /**
   Right after the handler of an expiry has run, its id has no session, one more disconnect, and its waits that were
   still pending, those of a later connect, are aborted; for a queued abort nothing but the queue changes.
   */
  lemma HandledExpiryEndsSession(s: State, id: Id)
    ensures Count(s.expired, id) > 0 ==>
              var after := Run(s, [Handle(id, true)]);
              && id !in after.session && Count(after.disconnects, id) == Count(s.disconnects, id) + 1
              && Count(after.expired, id) == Count(s.expired, id) - 1
              && Count(after.aborted, id) == Count(s.aborted, id) + Count(s.session, id)
    ensures Count(s.aborted, id) > 0 ==>
              var after := Run(s, [Handle(id, false)]);
              && after.session == s.session && after.disconnects == s.disconnects
              && Count(after.aborted, id) == Count(s.aborted, id) - 1
  {
    Runs.OneStep(Step, s, Handle(id, true));
    Runs.OneStep(Step, s, Handle(id, false));
  }

  /** A client that connects again while its expiry is queued loses the new session with the old one. */
  lemma ReconnectedIsDropped(id: Id)
    ensures var end := Run(INIT, [Connect(id), Expire(id), Connect(id), Handle(id, true)]);
            id !in end.session && Count(end.disconnects, id) == 1 && Count(end.aborted, id) == 1
  {
    Runs.FourSteps(Step, INIT, Connect(id), Expire(id), Connect(id), Handle(id, true));
  }

  // ----- draining -----

  /** Nothing is pending or queued for an id. */
  ghost predicate Quiet(s: State, id: Id) {
    var c := Look(s, id);
    c.pending == 0 && c.expired == 0 && c.aborted == 0
  }

  /** Only time passes and handlers run. */
  predicate Draining(actions: seq<Action>) {
    forall i :: 0 <= i < |actions| ==> actions[i].Expire? || actions[i].Handle?
  }

  /** Nobody connects; timers expire, handlers run and clients answer in any order. */
  predicate NoConnects(actions: seq<Action>) {
    forall i :: 0 <= i < |actions| ==> !actions[i].Connect?
  }

  /** An id that does not connect and is not answered leaves the session map only by being disconnected. */
  lemma {:induction false} LeavesByDisconnect(s: State, actions: seq<Action>, id: Id)
    requires NoConnects(actions) && Respond(id) !in actions
    ensures var end := Run(s, actions);
            && Count(end.disconnects, id) >= Count(s.disconnects, id)
            && (id in s.session ==> id in end.session || Count(end.disconnects, id) > Count(s.disconnects, id))
    decreases |actions|
  {
    if actions != [] {
      assert actions[0] in actions;
      StepIsLocal(s, actions[0], id);
      if actions[0].id == id {
        StaysOrDisconnects(Look(s, id), actions[0]);
      }
      LeavesByDisconnect(Step(s, actions[0]), actions[1..], id);
    }
  }

  lemma StaysOrDisconnects(c: Client, a: Action)
    requires !a.Respond?
    ensures var c' := ClientStep(c, a);
            c'.disconnects >= c.disconnects && (c.live ==> c'.live || c'.disconnects > c.disconnects)
  {
  }

  /**
   Let time pass, handlers run and clients answer from a reachable state, in any order but without a new connect. Once
   nothing is pending or queued no session is left: every id that was waiting and did not answer has been disconnected,
   and every id ever connected was answered or disconnected since.
   */
  lemma DrainingEmptiesSessions(s: State, actions: seq<Action>)
    requires Reachable(s) && NoConnects(actions)
    requires forall id: Id :: Quiet(Run(s, actions), id)
    ensures var end := Run(s, actions);
            forall id: Id ::
              && id !in end.session
              && (id in s.session && Respond(id) !in actions ==>
                    Count(end.disconnects, id) > Count(s.disconnects, id))
              && (Count(end.connects, id) > 0 ==> id in end.settled)
  {
    var end := Run(s, actions);
    var before :| s == Run(INIT, before);
    Runs.RunAppends(Step, INIT, before, actions);
    assert end == Run(INIT, before + actions);
    ReachableInv(end);
    forall id: Id
      ensures id !in end.session && (Count(end.connects, id) > 0 ==> id in end.settled)
      ensures id in s.session && Respond(id) !in actions ==> Count(end.disconnects, id) > Count(s.disconnects, id)
    {
      assert ClientInv(Look(end, id)) && Quiet(end, id);
      if Respond(id) !in actions {
        LeavesByDisconnect(s, actions, id);
      }
    }
  }

  lemma DrainOne(s: State, id: Id) returns (actions: seq<Action>)
    ensures Draining(actions) && Quiet(Run(s, actions), id)
    ensures forall other: Id :: other != id && Quiet(s, other) ==> Quiet(Run(s, actions), other)
    decreases Count(s.session, id) > 0, Count(s.expired, id) + Count(s.aborted, id)
  {
    actions := [];
    if !Quiet(s, id) {
      var a := if Count(s.session, id) > 0 then Expire(id) else Handle(id, Count(s.expired, id) > 0);
      StepIsLocal(s, a, id);
      forall other: Id | other != id ensures Look(Step(s, a), other) == Look(s, other) {
        StepIsLocal(s, a, other);
      }
      var rest := DrainOne(Step(s, a), id);
      actions := [a] + rest;
      assert actions[1..] == rest;
    }
  }

  lemma DrainAll(s: State, busy: set<Id>) returns (actions: seq<Action>)
    requires forall id: Id :: id !in busy ==> Quiet(s, id)
    ensures Draining(actions) && forall id: Id :: Quiet(Run(s, actions), id)
    decreases busy
  {
    actions := [];
    if id :| id in busy {
      var first := DrainOne(s, id);
      var rest := DrainAll(Run(s, first), busy - {id});
      Runs.RunAppends(Step, s, first, rest);
      actions := first + rest;
      assert Run(s, actions) == Run(Run(s, first), rest);
    }
  }

  /** Such a drain always exists: for each id that is not quiet, expire its timer and run its handlers. */
  lemma DrainExists(s: State) returns (actions: seq<Action>)
    ensures Draining(actions) && forall id: Id :: Quiet(Run(s, actions), id)
  {
    actions := DrainAll(s, s.session.Keys + s.expired.Keys + s.aborted.Keys);
  }

  // ----- answers -----

  /** What may still turn into disconnects of an id, counted against its connects. */
  function Threat(c: Client): int {
    c.disconnects + c.expired + c.pending - c.connects
  }

  lemma StepNeverThreatens(c: Client, a: Action)
    ensures Threat(ClientStep(c, a)) <= Threat(c)
  {
  }

  lemma {:induction false} ThreatNeverGrows(s: State, actions: seq<Action>, id: Id)
    ensures Threat(Look(Run(s, actions), id)) <= Threat(Look(s, id))
    decreases |actions|
  {
    if actions != [] {
      StepIsLocal(s, actions[0], id);
      StepNeverThreatens(Look(s, id), actions[0]);
      ThreatNeverGrows(Step(s, actions[0]), actions[1..], id);
    }
  }

  /**
   An answer aborts every wait pending for its id, so in whatever follows, the id is disconnected at most once for every
   expiry that was already queued and for every later connect.
   */
  lemma AnswerAbortsWaits(s: State, id: Id, later: seq<Action>)
    requires id in s.session
    ensures var answered := OnResponse(s, id);
            && Count(answered.session, id) == 0
            && Count(answered.aborted, id) == Count(s.aborted, id) + s.session[id]
            && Count(answered.expired, id) == Count(s.expired, id)
    ensures var end := Run(OnResponse(s, id), later);
            Count(end.disconnects, id) + Count(s.connects, id) <=
            Count(s.disconnects, id) + Count(s.expired, id) + Count(end.connects, id)
  {
    ThreatNeverGrows(OnResponse(s, id), later, id);
  }

  /** A client that answered, and does not connect again, can still be disconnected exactly if its expiry was queued. */
  lemma AnsweredIsDisconnectedIff(s: State, id: Id)
    requires id in s.session
    ensures Count(s.expired, id) > 0 <==>
            exists later ::
              && Count(Run(OnResponse(s, id), later).connects, id) == Count(s.connects, id)
              && Count(Run(OnResponse(s, id), later).disconnects, id) > Count(s.disconnects, id)
  {
    var answered := OnResponse(s, id);
    if Count(s.expired, id) > 0 {
      var later := [Handle(id, true)];
      Runs.OneStep(Step, answered, Handle(id, true));
      assert Count(Run(answered, later).disconnects, id) > Count(s.disconnects, id);
    } else {
      forall later | Count(Run(answered, later).connects, id) == Count(s.connects, id)
        ensures Count(Run(answered, later).disconnects, id) <= Count(s.disconnects, id)
      {
        AnswerAbortsWaits(s, id, later);
      }
    }
  }

  /** That does happen: the expiry is queued, the client answers, and the handler disconnects it all the same. */
  lemma AnsweredTooLate(id: Id)
    ensures id in Run(INIT, [Connect(id), Expire(id)]).session
    ensures var end := Run(INIT, [Connect(id), Expire(id), Respond(id), Handle(id, true)]);
            Count(end.disconnects, id) == Count(end.connects, id) == 1
  {
    Runs.TwoSteps(Step, INIT, Connect(id), Expire(id));
    Runs.FourSteps(Step, INIT, Connect(id), Expire(id), Respond(id), Handle(id, true));
  }

  // ----- the object -----

  /** The manager's session map, with the completions its timers have queued on the I/O context. */
  class HandshakeManager {
    var session: Counts
    var expired: Counts
    var aborted: Counts
    ghost var connects: Counts
    ghost var disconnects: Counts
    ghost var dropped: Counts
    ghost var settled: set<Id>

    ghost function Now(): State
      reads this
    {
      State(session, expired, aborted, connects, disconnects, dropped, settled)
    }

    constructor ()
      ensures Now() == INIT && Inv(Now())
    {
      session, expired, aborted := map[], map[], map[];
      connects, disconnects, dropped, settled := map[], map[], map[], {};
    }

    method Connected(id: Id)
      requires Inv(Now())
      modifies this
      ensures Now() == OnConnect(old(Now()), id) && Inv(Now())
    {
      ghost var before := Now();
      if id !in session {
        session := session[id := 0];
      }
      session := session[id := session[id] + 1];
      assert session == Plus(before.session, id, 1);
      connects, settled := Plus(connects, id, 1), settled - {id};
      OneStep(before, Connect(id));
    }

    method ResponseReceived(id: Id)
      requires Inv(Now())
      modifies this
      ensures Now() == OnResponse(old(Now()), id) && Inv(Now())
    {
      OneStep(Now(), Respond(id));
      if id !in session {
        return;
      }
      aborted := Plus(aborted, id, session[id]);
      session, settled := session - {id}, settled + {id};
    }

    /** The handler given to `async_wait`, for a completion that is queued. */
    method WaitCompleted(id: Id, ok: bool)
      requires Inv(Now()) && Count(if ok then expired else aborted, id) > 0
      modifies this
      ensures Now() == OnCompletion(old(Now()), id, ok) && Inv(Now())
    {
      OneStep(Now(), Handle(id, ok));
      if ok {
        expired, disconnects := expired[id := expired[id] - 1], Plus(disconnects, id, 1);
        aborted := Plus(aborted, id, Count(session, id));
        session, settled := session - {id}, settled + {id};
      } else {
        aborted, dropped := aborted[id := aborted[id] - 1], Plus(dropped, id, 1);
      }
    }
  }

  lemma OneStep(s: State, a: Action)
    requires Inv(s)
    ensures Inv(Step(s, a))
  {
    forall id: Id ensures ClientInv(Look(Step(s, a), id)) {
      StepKeepsInv(s, a, id);
    }
  }
}
