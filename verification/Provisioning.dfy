/**
 Wi-Fi provisioning: the wait loop (client/main/wifi/provisioning/provisioning.hpp), the HTTP handlers and event bits it
 waits on (provisioning_http.cpp), and the Wi-Fi event handlers (client/main/wifi/wifi.hpp).

 The loop, the HTTP server and the Wi-Fi event task run concurrently, so a run is any sequence of atomic actions. A
 status request reads the status twice: once for its answer, and once to decide whether it acknowledges the connection.
 */
module Provisioning {
  import opened Wrappers
  import Runs

  datatype Status = Idle | ConnectingNow | Connected | BadCredentials

  /** Where the provisioning loop is: the statement it is about to execute or the call it is blocked in. */
  datatype Loop =
    | HasCredentials | ClearFailed | ClearBad | SetBad
    | ResetRetries | ClearWifi | SetConnecting | WaitConnection
    | SetConnected | WaitAck | ClearAck
    | Stopping | Succeeded

  /**
   `provisioning_http_t`: the status, the event bits, and the answers of status requests that have not decided yet.
   `ackedAs` is history, the answer of the last request that set the acknowledge bit.
   */
  datatype Server = Server(status: Status, received: bool, failed: bool, ack: bool,
                           requests: map<nat, Status>, ackedAs: Option<Status>)

  /** `wifi_t`: its event bits and retry count. `gotIp` is history: an address arrived since the bits were reset. */
  datatype Radio = Radio(connected: bool, failed: bool, retries: nat, limit: nat, gotIp: bool) {
    ghost predicate Valid() {
      retries <= limit && (connected ==> gotIp)
    }
  }

  datatype State = State(loop: Loop, http: Server, wifi: Radio)

  /** Provisioning starts after a failed attempt to connect, with the Wi-Fi as that attempt left it. */
  function Init(wifi: Radio): State {
    State(HasCredentials, Server(Idle, false, false, false, map[], None), wifi)
  }

  /** Requests carry a number so that two reads of one request can be told from those of another. */
  datatype HttpAction = PostGood | PostBad | GetAnswer(request: nat) | GetDecide(request: nat)

  datatype WifiAction = StationStart(ok: bool) | Disconnected | GotIp

  datatype Action = Http(request: HttpAction) | Wifi(event: WifiAction) | LoopStep(timeout: bool)

  function HttpStep(h: Server, a: HttpAction): Server {
    match a
    case PostGood => h.(received := true)
    case PostBad => h.(failed := true)
    case GetAnswer(r) => h.(requests := h.requests[r := h.status])
    case GetDecide(r) =>
      if r !in h.requests then h
      else if h.status != Connected then h.(requests := h.requests - {r})
      else h.(requests := h.requests - {r}, ack := true, ackedAs := Some(h.requests[r]))
  }

  function WifiStep(w: Radio, a: WifiAction): Radio {
    match a
    case StationStart(ok) => if ok then w else w.(failed := true)
    case Disconnected => if w.retries < w.limit then w.(retries := w.retries + 1) else w.(failed := true)
    case GotIp => w.(retries := 0, connected := true, gotIp := true)
  }

  function ClearBits(h: Server): Server { h.(received := false, failed := false, ack := false) }

  function ClearWifiBits(w: Radio): Radio { w.(connected := false, failed := false) }

  /** One statement of the loop; `timeout` ends the bounded wait for the acknowledgement. */
  function LoopMove(s: State, timeout: bool): State {
    var h, w := s.http, s.wifi;
    match s.loop
    case HasCredentials =>
      State(if h.received then ResetRetries else if h.failed then ClearFailed else HasCredentials, h, w)
    case ClearFailed => State(ClearBad, ClearBits(h), w)
    case ClearBad => State(SetBad, ClearBits(h), w)
    case SetBad => State(HasCredentials, h.(status := BadCredentials), w)
    case ResetRetries => State(ClearWifi, h, w.(retries := 0))
    case ClearWifi => State(SetConnecting, h, ClearWifiBits(w).(gotIp := false))
    case SetConnecting => State(WaitConnection, h.(status := ConnectingNow), w)
    case WaitConnection =>
      State(if w.connected then SetConnected else if w.failed then ClearBad else WaitConnection, h, w)
    case SetConnected => State(WaitAck, h.(status := Connected), w)
    case WaitAck => State(if h.ack then Stopping else if timeout then ClearAck else WaitAck, h, w)
    case ClearAck => State(HasCredentials, ClearBits(h), w)
    case Stopping => State(Succeeded, h, ClearWifiBits(w).(retries := 0))
    case Succeeded => s
  }

  function Step(s: State, a: Action): State {
    match a
    case Http(request) => s.(http := HttpStep(s.http, request))
    case Wifi(event) => s.(wifi := WifiStep(s.wifi, event))
    case LoopStep(timeout) => LoopMove(s, timeout)
  }

  function Run(s: State, actions: seq<Action>): State {
    Runs.Run(Step, s, actions)
  }

  ghost predicate Reachable(s: State) {
    exists wifi: Radio, actions :: wifi.Valid() && s == Run(Init(wifi), actions)
  }

  const GO := LoopStep(true)

  // ----- success is earned -----

  predicate PastConnection(l: Loop) { l.SetConnected? || l.WaitAck? || PastAck(l) }

  predicate PastAck(l: Loop) { l.Stopping? || l.Succeeded? }

  /**
   The Wi-Fi bit stands for an address in this attempt, and past the wait there is one; the acknowledge bit stands for a
   request that saw the connected status; and the retry count is within its limit.
   */
  ghost predicate Inv(s: State) {
    && s.wifi.Valid() && (PastConnection(s.loop) ==> s.wifi.gotIp)
    && (s.http.ack || PastAck(s.loop) ==> s.http.ackedAs.Some?)
  }

  lemma LoopKeepsInv(s: State, timeout: bool)
    requires Inv(s)
    ensures Inv(LoopMove(s, timeout))
  {
  }

  /** What the loop and the Wi-Fi events leave to the HTTP server. */
  lemma OnlyRequestsAcknowledge(s: State, a: Action)
    requires !a.Http?
    ensures var s' := Step(s, a).http;
            s'.requests == s.http.requests && s'.ackedAs == s.http.ackedAs && (s'.ack ==> s.http.ack)
  {
  }

  lemma StepKeepsInv(s: State, a: Action)
    requires Inv(s)
    ensures Inv(Step(s, a))
  {
    match a
    case LoopStep(timeout) => LoopKeepsInv(s, timeout);
    case Http(h) =>
    case Wifi(w) =>
  }

  lemma {:induction false} InvHolds(s: State, actions: seq<Action>)
    requires Inv(s)
    ensures Inv(Run(s, actions))
    decreases |actions|
  {
    if actions != [] {
      StepKeepsInv(s, actions[0]);
      InvHolds(Step(s, actions[0]), actions[1..]);
    }
  }

  /**
   Success is reported only when an address arrived since the retry reset of the attempt that succeeded, and some status
   request, of this or of an earlier connection, found the status to be connected; and the retry count is always within
   its limit.
   */
  lemma SuccessIsEarned(s: State)
    requires Reachable(s)
    ensures s.loop == Succeeded ==> s.wifi.gotIp && s.http.ackedAs.Some?
    ensures s.wifi.retries <= s.wifi.limit
  {
    var wifi: Radio, actions :| wifi.Valid() && s == Run(Init(wifi), actions);
    InvHolds(Init(wifi), actions);
  }

  // ----- failures are reported -----

  /** A number of disconnects in a row. */
  function Drops(n: nat): (actions: seq<Action>)
    ensures |actions| == n && forall i :: 0 <= i < n ==> actions[i] == Wifi(Disconnected)
  {
    seq(n, _ => Wifi(Disconnected))
  }

  /** Disconnects use up the retries one by one, and the fail bit is set exactly by one more than are left. */
  lemma {:induction false} DropsFailIff(s: State, n: nat)
    requires s.wifi.retries <= s.wifi.limit
    ensures var left := s.wifi.limit - s.wifi.retries;
            Run(s, Drops(n)) == s.(wifi := s.wifi.(retries := s.wifi.retries + (if n < left then n else left),
                                                   failed := s.wifi.failed || n > left))
    decreases n
  {
    if n > 0 {
      assert Drops(n)[1..] == Drops(n - 1);
      DropsFailIff(Step(s, Wifi(Disconnected)), n - 1);
    }
  }

  /**
   Wrong credentials do not hang the loop: while it waits and no address arrives, disconnects take it back to asking for
   credentials, with a status that says so, exactly if there are more of them than retries left; `limit + 1` always are.
   */
  lemma WrongCredentialsAreReported(s: State, n: nat)
    requires s.loop == WaitConnection && !s.wifi.connected && s.wifi.retries <= s.wifi.limit
    ensures var end := Run(s, Drops(n) + [GO, GO, GO]);
            if s.wifi.failed || n > s.wifi.limit - s.wifi.retries
            then end.loop == HasCredentials && end.http == ClearBits(s.http).(status := BadCredentials)
            else end.loop == WaitConnection && end.http == s.http
  {
    DropsFailIff(s, n);
    Runs.RunAppends(Step, s, Drops(n), [GO, GO, GO]);
    Runs.ThreeSteps(Step, Run(s, Drops(n)), GO, GO, GO);
  }

  /** A Wi-Fi station that does not even start to connect is reported likewise. */
  lemma FailedStartIsReported(s: State)
    requires s.loop == WaitConnection && !s.wifi.connected
    ensures var end := Run(s, [Wifi(StationStart(false)), GO, GO, GO]);
            end.loop == HasCredentials && end.http == ClearBits(s.http).(status := BadCredentials)
  {
    Runs.FourSteps(Step, s, Wifi(StationStart(false)), GO, GO, GO);
  }

  /** A connection that nobody acknowledges in time is given up: the loop asks for credentials again. */
  lemma UnacknowledgedAsksAgain(s: State)
    requires s.loop == WaitAck && !s.http.ack
    ensures var end := Run(s, [LoopStep(true), GO]);
            end.loop == HasCredentials && end.http == s.http.(received := false, failed := false, ack := false)
  {
    Runs.TwoSteps(Step, s, LoopStep(true), GO);
  }

  /** A request with bad credentials is reported likewise. */
  lemma BadRequestIsReported(s: State)
    requires s.loop == HasCredentials && !s.http.received
    ensures var end := Run(s, [Http(PostBad)] + [GO, GO, GO, GO]);
            end.loop == HasCredentials && end.http == ClearBits(s.http).(status := BadCredentials)
  {
    Runs.RunAppends(Step, s, [Http(PostBad)], [GO, GO, GO, GO]);
    Runs.OneStep(Step, s, Http(PostBad));
    Runs.FourSteps(Step, Step(s, Http(PostBad)), GO, GO, GO, GO);
  }

  // ----- what the acknowledging request answered -----

  /** A request that decides right after it answered cannot acknowledge what it did not say. */
  predicate AtomicRequests(actions: seq<Action>) {
    forall i :: 0 <= i < |actions| && actions[i].Http? && actions[i].request.GetDecide? ==>
      i > 0 && actions[i - 1] == Http(GetAnswer(actions[i].request.request))
  }

  /** When every status request is atomic, only a request that answered "connected" acknowledges. */
  lemma {:induction false} AtomicRequestsTellTheTruth(wifi: Radio, actions: seq<Action>)
    requires AtomicRequests(actions)
    ensures var end := Run(Init(wifi), actions).http;
            end.ackedAs.Some? ==> end.ackedAs == Some(Connected)
    decreases |actions|
  {
    if actions != [] {
      var n := |actions| - 1;
      var s, a := Run(Init(wifi), actions[..n]), actions[n];
      Runs.RunLast(Step, Init(wifi), actions);
      AtomicRequestsTellTheTruth(wifi, actions[..n]);
      if !a.Http? {
        OnlyRequestsAcknowledge(s, a);
      } else if a.request.GetDecide? {
        Runs.RunLast(Step, Init(wifi), actions[..n]);
        assert actions[..n][n - 1] == Http(GetAnswer(a.request.request));
      }
    }
  }

  /** No action in between belongs to request `r`. */
  predicate Elsewhere(actions: seq<Action>, r: nat) {
    forall i :: 0 <= i < |actions| ==>
      actions[i] != Http(GetAnswer(r)) && actions[i] != Http(GetDecide(r))
  }

  lemma {:induction false} AnswerIsKept(s: State, actions: seq<Action>, r: nat)
    requires Elsewhere(actions, r) && r in s.http.requests
    ensures r in Run(s, actions).http.requests && Run(s, actions).http.requests[r] == s.http.requests[r]
    decreases |actions|
  {
    if actions != [] {
      assert actions[0] != Http(GetAnswer(r)) && actions[0] != Http(GetDecide(r));
      if !actions[0].Http? {
        OnlyRequestsAcknowledge(s, actions[0]);
      }
      AnswerIsKept(Step(s, actions[0]), actions[1..], r);
    }
  }

  /**
   Whatever happens between its two reads, a request acknowledges exactly if the status is connected at the second, and
   what it answered is the status at the first.
   */
  lemma RequestAcknowledgesIff(s: State, r: nat, between: seq<Action>)
    requires Elsewhere(between, r)
    ensures var mid := Run(Step(s, Http(GetAnswer(r))), between);
            var end := Step(mid, Http(GetDecide(r)));
            if mid.http.status == Connected
            then end.http.ack && end.http.ackedAs == Some(s.http.status)
            else end.http.ack == mid.http.ack && end.http.ackedAs == mid.http.ackedAs
  {
    AnswerIsKept(Step(s, Http(GetAnswer(r))), between, r);
  }

  /** A run that goes on with four more actions. */
  lemma Onward(s: State, before: seq<Action>, a: Action, b: Action, c: Action, d: Action)
    returns (actions: seq<Action>)
    ensures actions == before + [a, b, c, d]
    ensures Run(s, actions) == Step(Step(Step(Step(Run(s, before), a), b), c), d)
  {
    actions := before + [a, b, c, d];
    Runs.RunAppends(Step, s, before, [a, b, c, d]);
    Runs.FourSteps(Step, Run(s, before), a, b, c, d);
  }

  /** Good credentials take the loop to the next attempt, whatever was acknowledged before. */
  lemma PostCredentials(s: State, before: seq<Action>) returns (actions: seq<Action>)
    requires Run(s, before).loop == HasCredentials
    ensures Run(s, actions).loop == SetConnecting
    ensures Run(s, actions).http.ack == Run(s, before).http.ack
    ensures var wifi := Run(s, actions).wifi; !wifi.connected && !wifi.failed && !wifi.gotIp && wifi.retries == 0
  {
    actions := Onward(s, before, Http(PostGood), GO, GO, GO);
  }

  /** From wherever credentials are asked for: good ones, an address and a status request make provisioning succeed. */
  lemma GoodCredentialsSucceed(s: State, r: nat) returns (actions: seq<Action>)
    requires s.loop == HasCredentials
    ensures var end := Run(s, actions);
            end.loop == Succeeded && end.wifi.gotIp && end.http.ackedAs == Some(Connected)
  {
    actions := PostCredentials(s, []);
    actions := ConnectUnasked(s, actions);
    actions := Onward(s, actions, Http(GetAnswer(r)), Http(GetDecide(r)), LoopStep(false), GO);
  }

  /** So provisioning can succeed although the only status request was told "connecting". */
  lemma SuccessWithoutTheAnswer(wifi: Radio) returns (actions: seq<Action>)
    ensures var s := Run(Init(wifi), actions); s.loop == Succeeded && s.http.ackedAs == Some(ConnectingNow)
  {
    var s := Init(wifi);
    actions := PostCredentials(s, []);
    actions := Onward(s, actions, GO, Http(GetAnswer(0)), Wifi(GotIp), GO);
    var http := Run(s, actions).http;
    assert Run(s, actions).loop == SetConnected && 0 in http.requests && http.requests[0] == ConnectingNow;
    actions := Onward(s, actions, GO, Http(GetDecide(0)), GO, GO);
  }

  // ----- an acknowledgement from before -----

  predicate NoDecision(actions: seq<Action>) {
    forall i :: 0 <= i < |actions| ==> !(actions[i].Http? && actions[i].request.GetDecide?)
  }

  lemma {:induction false} NoDecisionNoAck(s: State, actions: seq<Action>)
    requires NoDecision(actions) && !s.http.ack && s.loop != Stopping && s.loop != Succeeded
    ensures Run(s, actions).loop != Succeeded
    decreases |actions|
  {
    if actions != [] {
      assert !(actions[0].Http? && actions[0].request.GetDecide?);
      if !actions[0].Http? {
        OnlyRequestsAcknowledge(s, actions[0]);
      }
      NoDecisionNoAck(Step(s, actions[0]), actions[1..]);
    }
  }

  /**
   From the moment a connection is made, success needs no further status request exactly when the acknowledge bit is set
   already, by a request that saw the status of an earlier connection.
   */
  lemma SucceedsUnseenIff(s: State)
    requires s.loop == SetConnected
    ensures s.http.ack <==> exists actions :: NoDecision(actions) && Run(s, actions).loop == Succeeded
  {
    if s.http.ack {
      var step := LoopStep(false);
      var actions := [step, step, step, step];
      Runs.FourSteps(Step, s, step, step, step, step);
      assert NoDecision(actions) && Run(s, actions).loop == Succeeded;
    } else {
      forall actions | NoDecision(actions) ensures Run(s, actions).loop != Succeeded {
        NoDecisionNoAck(s, actions);
      }
    }
  }

  /** An address arrives, and the connection waits for its acknowledgement. */
  lemma ConnectUnasked(s: State, before: seq<Action>) returns (actions: seq<Action>)
    requires Run(s, before).loop == SetConnecting
    ensures Run(s, actions).loop == WaitAck && Run(s, actions).http.status == Connected && Run(s, actions).wifi.gotIp
    ensures Run(s, actions).http.ack == Run(s, before).http.ack
  {
    actions := Onward(s, before, GO, Wifi(GotIp), GO, GO);
  }

  /** A request that comes when the loop has given up waiting for it. */
  lemma RequestLate(s: State, before: seq<Action>) returns (actions: seq<Action>)
    requires Run(s, before).loop == WaitAck && Run(s, before).http.status == Connected && !Run(s, before).http.ack
    ensures Run(s, actions).loop == HasCredentials && Run(s, actions).http.ack
  {
    actions := Onward(s, before, GO, GO, Http(GetAnswer(0)), Http(GetDecide(0)));
  }

  /** That does happen: a connection nobody asks about in time, a late request, then new credentials. */
  lemma StaleAcknowledgement(wifi: Radio) returns (actions: seq<Action>)
    ensures var s := Run(Init(wifi), actions); s.loop == SetConnected && s.http.ack
  {
    var s := Init(wifi);
    actions := PostCredentials(s, []);
    actions := ConnectUnasked(s, actions);
    actions := RequestLate(s, actions);
    actions := PostCredentials(s, actions);
    actions := Onward(s, actions, GO, Wifi(GotIp), GO, Http(PostBad));
  }
}
