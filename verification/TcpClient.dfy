/**
 The client's end of the TCP stream (client/main/tcp/tcp_client.hpp and tcp_client.cpp): frames are sent by a loop
 over partial `send`s and read back by a loop over partial `recv`s, id first and then as many bytes as the id expects.
 */
module TcpClient {
  import opened Wrappers
  import opened Bytes
  import opened Serialise
  import opened PacketRegistry

  /** `Blocked` is no status of the code: it stands for a call that is still waiting when the run ends. */
  datatype Status = Success | Failure | Timeout | ConnectionClosed | UnknownPacket | Blocked

  /**
   What the socket has for the reader, in order: bytes that arrive together, a receive timeout, or an error.
   One `recv` returns as much of the front chunk as it asked for. An empty chunk is the peer closing.
   */
  datatype Event = Chunk(data: seq<byte>) | TimedOut | Failed

  function Stream(ev: seq<Event>): seq<byte> {
    if ev == [] then [] else (if ev[0].Chunk? then ev[0].data else []) + Stream(ev[1..])
  }

  // ----- reading an exact number of bytes -----

  datatype RecvResult = Got(count: nat) | WouldBlock | Error | Pending

  /** How `recv_exact` reports a `recv` that brought nothing. */
  function StatusOf(r: RecvResult): Status {
    match r
    case Got(_) => ConnectionClosed
    case WouldBlock => Timeout
    case Error => Failure
    case Pending => Blocked
  }

  datatype Received = Received(result: RecvResult, bytes: seq<byte>, rest: seq<Event>)

  /** One `recv` of at most `max` bytes. */
  function TakeSome(ev: seq<Event>, max: nat): (r: Received)
    ensures |r.bytes| <= max && (r.result.Got? ==> r.result.count == |r.bytes|)
  {
    if ev == [] then Received(Pending, [], ev)
    else match ev[0]
      case TimedOut => Received(WouldBlock, [], ev[1..])
      case Failed => Received(Error, [], ev[1..])
      case Chunk(d) =>
        if |d| <= max then Received(Got(|d|), d, ev[1..])
        else Received(Got(max), d[..max], [Chunk(d[max..])] + ev[1..])
  }

  datatype Taken = Taken(status: Status, bytes: seq<byte>, rest: seq<Event>)

  /** `recv_exact`, with the bytes it has stored when it returns. */
  function TakeExact(ev: seq<Event>, n: nat): (r: Taken)
    ensures r.status == Success ==> |r.bytes| == n
    ensures |r.bytes| <= n
    decreases |ev|
  {
    if n == 0 then Taken(Success, [], ev)
    else if ev == [] then Taken(Blocked, [], ev)
    else match ev[0]
      case TimedOut => Taken(Timeout, [], ev[1..])
      case Failed => Taken(Failure, [], ev[1..])
      case Chunk(d) =>
        if d == [] then Taken(ConnectionClosed, [], ev[1..])
        else if |d| <= n then
          var r := TakeExact(ev[1..], n - |d|);
          r.(bytes := d + r.bytes)
        else Taken(Success, d[..n], [Chunk(d[n..])] + ev[1..])
  }

  /** How much is left to read. */
  function Size(ev: seq<Event>): nat {
    if ev == [] then 0 else 1 + (if ev[0].Chunk? then |ev[0].data| else 0) + Size(ev[1..])
  }

  lemma {:induction false} TakingShrinks(ev: seq<Event>, n: nat)
    ensures var r := TakeExact(ev, n);
            Size(r.rest) <= Size(ev) && (n > 0 && r.status != Blocked ==> Size(r.rest) < Size(ev))
    decreases |ev|
  {
    if n > 0 && ev != [] && ev[0].Chunk? {
      var d := ev[0].data;
      if 0 < |d| <= n {
        TakingShrinks(ev[1..], n - |d|);
      } else if |d| > n {
        assert ([Chunk(d[n..])] + ev[1..])[1..] == ev[1..];
      }
    }
  }

  // ----- one call of the listener, and the listening task -----

  datatype Listened = Listened(status: Status, packet: Option<Packet>, rest: seq<Event>)

  /** One call of the listener: the id, and then what the id expects. */
  function Listen(order: Endian, types: Types, table: Table, ev: seq<Event>): (r: Listened)
    requires TableOf(types, table)
  {
    var head := TakeExact(ev, ID_SIZE);
    if head.status != Success then Listened(head.status, None, head.rest)
    else ListenBehind(order, types, table, FromNativeBytes(order, head.bytes), head.rest)
  }

  /** The rest of the call, once the id is read. */
  function ListenBehind(order: Endian, types: Types, table: Table, id: nat, ev: seq<Event>): (r: Listened)
    requires TableOf(types, table)
  {
    var expected := Expected(table, id);
    if expected.None? then Listened(UnknownPacket, None, ev) else
    var body := TakeExact(ev, expected.value);
    if body.status != Success then Listened(body.status, None, body.rest)
    else if table[id].handler.None? then Listened(UnknownPacket, None, body.rest)
    else
      var t := table[id].handler.value;
      Listened(Success, Some(Packet(t, DecodeMessage(order, t.schema, body.bytes))), body.rest)
  }

  lemma ListeningShrinks(order: Endian, types: Types, table: Table, ev: seq<Event>)
    requires TableOf(types, table)
    ensures var r := Listen(order, types, table, ev); r.status != Blocked ==> Size(r.rest) < Size(ev)
  {
    TakingShrinks(ev, ID_SIZE);
    var head := TakeExact(ev, ID_SIZE);
    if head.status == Success {
      var expected := Expected(table, FromNativeBytes(order, head.bytes));
      if expected.Some? {
        TakingShrinks(head.rest, expected.value);
      }
    }
  }

  /** The statuses after which the listen task calls the listener again. */
  predicate GoesOn(status: Status) {
    status == Success || status == Timeout || status == UnknownPacket
  }

  /** What the callbacks are given while the listen task keeps calling the listener. */
  function Heard(order: Endian, types: Types, table: Table, ev: seq<Event>): seq<Packet>
    requires TableOf(types, table)
    decreases Size(ev)
  {
    var r := Listen(order, types, table, ev);
    ListeningShrinks(order, types, table, ev);
    if !GoesOn(r.status) then []
    else (if r.packet.Some? then [r.packet.value] else []) + Heard(order, types, table, r.rest)
  }

  datatype Stop = Stop(status: Status, rest: seq<Event>)

  /** With which status the listen task stops calling the listener, and what it leaves unread. */
  function Stopped(order: Endian, types: Types, table: Table, ev: seq<Event>): Stop
    requires TableOf(types, table)
    decreases Size(ev)
  {
    var r := Listen(order, types, table, ev);
    ListeningShrinks(order, types, table, ev);
    if !GoesOn(r.status) then Stop(r.status, r.rest) else Stopped(order, types, table, r.rest)
  }

  // ----- the stream theorem -----

  predicate AllSendable(types: Types, ps: seq<Packet>) {
    forall i :: 0 <= i < |ps| ==> Sendable(types, ps[i])
  }

  function Frames(order: Endian, types: Types, ps: seq<Packet>): seq<byte>
    requires AllSendable(types, ps)
  {
    if ps == [] then [] else
      assert Sendable(types, ps[0]);
      Frame(order, types, ps[0]) + Frames(order, types, ps[1..])
  }

  /** The stream offsets at which a frame begins or ends, when the first frame begins at `base`. */
  function FrameEnds(types: Types, ps: seq<Packet>, base: nat): (ends: set<nat>)
    ensures base in ends && forall b :: b in ends ==> b >= base
  {
    if ps == [] then {base} else {base} + FrameEnds(types, ps[1..], base + PacketSize(ps[0].ptype))
  }

  /**
   A registered message is handled. One that is not must have no payload, because the listener would take the
   payload for the next packet's id.
   */
  predicate Digestible(types: Types, table: Table, p: Packet)
    requires TableOf(types, table) && Sendable(types, p)
  {
    Registered(types, table, p.ptype) || MessageSize(p.ptype.schema) == 0
  }

  function OnlyRegistered(types: Types, table: Table, ps: seq<Packet>): seq<Packet>
    requires TableOf(types, table) && AllSendable(types, ps)
  {
    if ps == [] then [] else
      assert Sendable(types, ps[0]);
      (if Registered(types, table, ps[0].ptype) then [ps[0]] else []) + OnlyRegistered(types, table, ps[1..])
  }

  /** The connection neither fails nor closes. */
  predicate Alive(ev: seq<Event>) {
    forall i :: 0 <= i < |ev| ==> ev[i].TimedOut? || (ev[i].Chunk? && ev[i].data != [])
  }

  /** Every timeout happens at one of the given stream offsets, when the first event happens at `offset`. */
  predicate TimeoutsOnlyAt(ev: seq<Event>, offset: nat, ends: set<nat>) {
    ev != [] ==>
      if ev[0].Chunk? then TimeoutsOnlyAt(ev[1..], offset + |ev[0].data|, ends)
      else offset in ends && TimeoutsOnlyAt(ev[1..], offset, ends)
  }

  lemma {:induction false} TimeoutsWiden(ev: seq<Event>, offset: nat, ends: set<nat>, wider: set<nat>)
    requires TimeoutsOnlyAt(ev, offset, ends)
    requires forall b :: b in ends && b >= offset ==> b in wider
    ensures TimeoutsOnlyAt(ev, offset, wider)
    decreases |ev|
  {
    if ev != [] {
      TimeoutsWiden(ev[1..], offset + (if ev[0].Chunk? then |ev[0].data| else 0), ends, wider);
    }
  }

  /** A chunk of which the reader took the first `n` bytes: the rest is still there, in front of what follows. */
  lemma ChunkIsCut(d: seq<byte>, n: nat, later: seq<Event>)
    requires n <= |d|
    ensures var rest := [Chunk(d[n..])] + later;
            && rest[1..] == later && d[..n] + Stream(rest) == d + Stream(later)
            && (n < |d| && Alive(later) ==> Alive(rest))
  {
    var rest := [Chunk(d[n..])] + later;
    assert rest[1..] == later;
    assert Stream(rest) == d[n..] + Stream(later);
    assert d[..n] + d[n..] == d;
    Regroup(d[..n], d[n..], Stream(later));
  }

  lemma CutKeepsTimeouts(d: seq<byte>, n: nat, later: seq<Event>, offset: nat, ends: set<nat>)
    requires n <= |d| && TimeoutsOnlyAt(later, offset + |d|, ends)
    ensures TimeoutsOnlyAt([Chunk(d[n..])] + later, offset + n, ends)
  {
    var rest := [Chunk(d[n..])] + later;
    assert rest[1..] == later && offset + n + |d[n..]| == offset + |d|;
  }

  /** Bytes that no timeout interrupts are read whole, however they were chunked. */
  lemma {:induction false} TakesWhole(ev: seq<Event>, n: nat, offset: nat, ends: set<nat>)
    requires Alive(ev) && TimeoutsOnlyAt(ev, offset, ends) && n <= |Stream(ev)|
    requires forall b :: offset < b < offset + n ==> b !in ends
    requires n > 0 ==> ev != [] && ev[0].Chunk?
    ensures var r := TakeExact(ev, n);
            && r.status == Success && r.bytes + Stream(r.rest) == Stream(ev)
            && Alive(r.rest) && TimeoutsOnlyAt(r.rest, offset + n, ends)
    decreases |ev|
  {
    if n > 0 {
      var d, later := ev[0].data, ev[1..];
      if |d| <= n {
        if |d| < n {
          NextIsChunk(later, offset + |d|, ends);
        }
        TakesWhole(later, n - |d|, offset + |d|, ends);
        var r := TakeExact(later, n - |d|);
        Regroup(d, r.bytes, Stream(r.rest));
      } else {
        ChunkIsCut(d, n, later);
        CutKeepsTimeouts(d, n, later, offset, ends);
      }
    }
  }

  lemma TakesFront(ev: seq<Event>, front: seq<byte>, back: seq<byte>, offset: nat, next: nat, ends: set<nat>)
    requires next == offset + |front|
    requires Alive(ev) && TimeoutsOnlyAt(ev, offset, ends) && Stream(ev) == front + back
    requires forall b :: offset < b < next ==> b !in ends
    requires front != [] ==> ev != [] && ev[0].Chunk?
    ensures var r := TakeExact(ev, |front|);
            && r.status == Success && r.bytes == front && Stream(r.rest) == back
            && Alive(r.rest) && TimeoutsOnlyAt(r.rest, next, ends)
  {
    TakesWhole(ev, |front|, offset, ends);
    var r := TakeExact(ev, |front|);
    Split(front, back);
    Split(r.bytes, Stream(r.rest));
  }

  lemma IdIsUnderstood(order: Endian, types: Types, table: Table, p: Packet)
    requires Numbered(types) && TableOf(types, table) && Sendable(types, p)
    ensures var id := FromNativeBytes(order, IdBytes(order, Id(types, p.ptype)));
            id == TypeIndex(types, p.ptype) && id < |table|
  {
    var id := TypeIndex(types, p.ptype);
    assert Id(types, p.ptype) == id;
    IdSurvivesIff(order, order, id);
  }

  /** A digestible frame at the front of the stream is read whole and leaves the reader at the next frame. */
  lemma ListensToFrame(order: Endian, types: Types, table: Table, p: Packet, more: seq<byte>,
                       ev: seq<Event>, offset: nat, next: nat, ends: set<nat>)
    requires Numbered(types) && TableOf(types, table) && Sendable(types, p) && Digestible(types, table, p)
    requires Alive(ev) && TimeoutsOnlyAt(ev, offset, ends) && ev != [] && ev[0].Chunk?
    requires next == offset + PacketSize(p.ptype) && forall b :: offset < b < next ==> b !in ends
    requires Stream(ev) == Frame(order, types, p) + more
    ensures var r := Listen(order, types, table, ev);
            && r.packet == (if Registered(types, table, p.ptype) then Some(p) else None)
            && r.status == (if r.packet.Some? then Success else UnknownPacket)
            && Stream(r.rest) == more && Alive(r.rest)
            && TimeoutsOnlyAt(r.rest, next, ends)
  {
    var idBytes := IdBytes(order, Id(types, p.ptype));
    var payload := EncodeMessage(order, p.ptype.schema, p.message);
    Regroup(idBytes, payload, more);
    var middle := offset + ID_SIZE;
    TakesFront(ev, idBytes, payload + more, offset, middle, ends);
    IdIsUnderstood(order, types, table, p);
    var rest := TakeExact(ev, ID_SIZE).rest;
    if payload != [] {
      NextIsChunk(rest, middle, ends);
    }
    TakesFront(rest, payload, more, middle, next, ends);
    PayloadIsUnderstood(order, p);
  }

  lemma PayloadIsUnderstood(order: Endian, p: Packet)
    requires Fits(p.ptype.schema, p.message)
    ensures DecodeMessage(order, p.ptype.schema, EncodeMessage(order, p.ptype.schema, p.message)) == p.message
  {
    MessageRoundTrip(order, order, p.ptype.schema, p.message, []);
    assert EncodeMessage(order, p.ptype.schema, p.message) + [] == EncodeMessage(order, p.ptype.schema, p.message);
  }

  lemma NextIsChunk(ev: seq<Event>, offset: nat, ends: set<nat>)
    requires Alive(ev) && TimeoutsOnlyAt(ev, offset, ends) && offset !in ends && Stream(ev) != []
    ensures ev != [] && ev[0].Chunk?
  {
  }

  /** The same, seen from the listen task. */
  lemma FrameIsHeard(order: Endian, types: Types, table: Table, p: Packet, more: seq<byte>,
                     ev: seq<Event>, offset: nat, next: nat, ends: set<nat>)
    returns (rest: seq<Event>)
    requires Numbered(types) && TableOf(types, table) && Sendable(types, p) && Digestible(types, table, p)
    requires Alive(ev) && TimeoutsOnlyAt(ev, offset, ends) && ev != [] && ev[0].Chunk?
    requires next == offset + PacketSize(p.ptype) && forall b :: offset < b < next ==> b !in ends
    requires Stream(ev) == Frame(order, types, p) + more
    ensures Heard(order, types, table, ev) ==
            (if Registered(types, table, p.ptype) then [p] else []) + Heard(order, types, table, rest)
    ensures Stream(rest) == more && Alive(rest) && Size(rest) < Size(ev)
    ensures TimeoutsOnlyAt(rest, next, ends)
  {
    ListensToFrame(order, types, table, p, more, ev, offset, next, ends);
    ListeningShrinks(order, types, table, ev);
    rest := Listen(order, types, table, ev).rest;
  }

  /** What the stream theorem asks of a list of messages and of the way their bytes arrive. */
  predicate Arrives(order: Endian, types: Types, table: Table, ps: seq<Packet>, ev: seq<Event>, base: nat)
    requires TableOf(types, table)
  {
    && Alive(ev) && AllSendable(types, ps)
    && (forall i :: 0 <= i < |ps| ==> Sendable(types, ps[i]) && Digestible(types, table, ps[i]))
    && Stream(ev) == Frames(order, types, ps)
    && TimeoutsOnlyAt(ev, base, FrameEnds(types, ps, base))
  }

  /** Inside the first frame there is no frame's end. */
  lemma FirstFrameIsWhole(types: Types, ps: seq<Packet>, base: nat, b: nat)
    requires ps != [] && base < b < base + PacketSize(ps[0].ptype)
    ensures b !in FrameEnds(types, ps, base)
  {
  }

  /** Behind the first frame, only the ends of the others matter. */
  lemma LaterEndsMatter(types: Types, ps: seq<Packet>, base: nat, rest: seq<Event>, next: nat)
    requires ps != [] && next == base + PacketSize(ps[0].ptype)
    requires TimeoutsOnlyAt(rest, next, FrameEnds(types, ps, base))
    ensures TimeoutsOnlyAt(rest, next, FrameEnds(types, ps[1..], next))
  {
    TimeoutsWiden(rest, next, FrameEnds(types, ps, base), FrameEnds(types, ps[1..], next));
  }

  lemma RestArrives(order: Endian, types: Types, table: Table, ps: seq<Packet>, rest: seq<Event>, next: nat)
    requires TableOf(types, table) && ps != [] && Alive(rest)
    requires forall i :: 0 <= i < |ps| ==> Sendable(types, ps[i]) && Digestible(types, table, ps[i])
    requires AllSendable(types, ps[1..]) && Stream(rest) == Frames(order, types, ps[1..])
    requires TimeoutsOnlyAt(rest, next, FrameEnds(types, ps[1..], next))
    ensures Arrives(order, types, table, ps[1..], rest, next)
  {
    var later := ps[1..];
    forall i | 0 <= i < |later| ensures Sendable(types, later[i]) && Digestible(types, table, later[i]) {
      assert later[i] == ps[i + 1];
    }
  }

  lemma FirstFrameIsHeard(order: Endian, types: Types, table: Table, ps: seq<Packet>, ev: seq<Event>, base: nat)
    returns (rest: seq<Event>, next: nat)
    requires Numbered(types) && TableOf(types, table) && Arrives(order, types, table, ps, ev, base)
    requires ev != [] && ev[0].Chunk?
    ensures ps != [] && Sendable(types, ps[0]) && Size(rest) < Size(ev)
    ensures Heard(order, types, table, ev) ==
            (if Registered(types, table, ps[0].ptype) then [ps[0]] else []) + Heard(order, types, table, rest)
    ensures Arrives(order, types, table, ps[1..], rest, next)
  {
    assert ps != [] by { assert ev[0].data != []; }
    var ends := FrameEnds(types, ps, base);
    next := base + PacketSize(ps[0].ptype);
    forall b | base < b < next ensures b !in ends {
      FirstFrameIsWhole(types, ps, base, b);
    }
    rest := FrameIsHeard(order, types, table, ps[0], Frames(order, types, ps[1..]), ev, base, next, ends);
    LaterEndsMatter(types, ps, base, rest, next);
    RestArrives(order, types, table, ps, rest, next);
  }

  /**
   The stream theorem. However the bytes of a list of messages are chunked, and wherever between frames the reader
   times out, the callbacks are given exactly the registered messages, in order and unchanged.
   */
  lemma {:induction false} StreamIsHeard(order: Endian, types: Types, table: Table, ps: seq<Packet>,
                                         ev: seq<Event>, base: nat)
    requires Numbered(types) && TableOf(types, table) && Arrives(order, types, table, ps, ev, base)
    ensures Heard(order, types, table, ev) == OnlyRegistered(types, table, ps)
    decreases Size(ev)
  {
    if ev == [] {
      assert ps == [];
    } else if ev[0].TimedOut? {
      TimeoutIsSkipped(order, types, table, ev);
      StreamIsHeard(order, types, table, ps, ev[1..], base);
    } else {
      var rest, next := FirstFrameIsHeard(order, types, table, ps, ev, base);
      StreamIsHeard(order, types, table, ps[1..], rest, next);
    }
  }

  lemma TimeoutIsSkipped(order: Endian, types: Types, table: Table, ev: seq<Event>)
    requires TableOf(types, table) && ev != [] && ev[0].TimedOut?
    ensures Heard(order, types, table, ev) == Heard(order, types, table, ev[1..])
    ensures Stream(ev) == Stream(ev[1..])
  {
  }

  // ----- the end of a connection -----

  /** The status that the end of a connection gives: the peer closes it, or it fails. */
  predicate Ends(stop: Event, status: Status) {
    (stop == Chunk([]) && status == ConnectionClosed) || (stop == Failed && status == Failure)
  }

  /** Reading before the end of a connection is as without it, but what would wait for more bytes sees the end. */
  lemma {:induction false} TakesUpToEnd(ev: seq<Event>, n: nat, stop: Event, status: Status, later: seq<Event>)
    requires Alive(ev) && Ends(stop, status)
    ensures var before, all := TakeExact(ev, n), TakeExact(ev + ([stop] + later), n);
            if before.status == Blocked then all == Taken(status, before.bytes, later)
            else all == before.(rest := before.rest + ([stop] + later)) && Alive(before.rest)
    decreases |ev|
  {
    var all := ev + ([stop] + later);
    if n > 0 {
      if ev == [] {
        assert all == [stop] + later && all[1..] == later;
      } else {
        assert all[1..] == ev[1..] + ([stop] + later);
        if ev[0].Chunk? && |ev[0].data| <= n {
          TakesUpToEnd(ev[1..], n - |ev[0].data|, stop, status, later);
        } else if ev[0].Chunk? {
          var cut := [Chunk(ev[0].data[n..])];
          Regroup(cut, ev[1..], [stop] + later);
        }
      }
    }
  }

  /** A read of which the connection brings too little, and then ends, reports the end. */
  lemma EndsInside(front: seq<Event>, n: nat, stop: Event, status: Status, later: seq<Event>)
    requires Alive(front) && (forall i :: 0 <= i < |front| ==> front[i].Chunk?) && |Stream(front)| < n
    requires Ends(stop, status)
    ensures TakeExact(front + ([stop] + later), n) == Taken(status, Stream(front), later)
  {
    TooLittleWaits(front, n);
    TakesUpToEnd(front, n, stop, status, later);
  }

  lemma {:induction false} TooLittleWaits(front: seq<Event>, n: nat)
    requires Alive(front) && (forall i :: 0 <= i < |front| ==> front[i].Chunk?) && |Stream(front)| < n
    ensures TakeExact(front, n).status == Blocked && TakeExact(front, n).bytes == Stream(front)
    decreases |front|
  {
    if front != [] {
      TooLittleWaits(front[1..], n - |front[0].data|);
    }
  }

  lemma ListensUpToEnd(order: Endian, types: Types, table: Table, ev: seq<Event>,
                       stop: Event, status: Status, later: seq<Event>)
    requires TableOf(types, table) && Alive(ev) && Ends(stop, status)
    ensures var before := Listen(order, types, table, ev);
            var all := Listen(order, types, table, ev + ([stop] + later));
            if before.status == Blocked then all == Listened(status, None, later)
            else GoesOn(before.status) && all == before.(rest := before.rest + ([stop] + later)) && Alive(before.rest)
  {
    TakesUpToEnd(ev, ID_SIZE, stop, status, later);
    LiveStatus(ev, ID_SIZE);
    var head := TakeExact(ev, ID_SIZE);
    if head.status == Success {
      var expected := Expected(table, FromNativeBytes(order, head.bytes));
      if expected.Some? {
        TakesUpToEnd(head.rest, expected.value, stop, status, later);
        LiveStatus(head.rest, expected.value);
      }
    }
  }

  lemma {:induction false} LiveStatus(ev: seq<Event>, n: nat)
    requires Alive(ev)
    ensures TakeExact(ev, n).status in {Success, Timeout, Blocked}
    decreases |ev|
  {
    if n > 0 && ev != [] && ev[0].Chunk? && |ev[0].data| <= n {
      LiveStatus(ev[1..], n - |ev[0].data|);
    }
  }

  /**
   Whatever a live connection brought, registered or not, in whatever pieces: once it is closed or fails, the listen
   task has heard what it would have heard without that, stops with the status that says which, and reads nothing more.
   */
  lemma {:induction false} EndIsNoticed(order: Endian, types: Types, table: Table, ev: seq<Event>,
                                        stop: Event, status: Status, later: seq<Event>)
    requires TableOf(types, table) && Alive(ev) && Ends(stop, status)
    ensures Heard(order, types, table, ev + ([stop] + later)) == Heard(order, types, table, ev)
    ensures Stopped(order, types, table, ev + ([stop] + later)) == Stop(status, later)
    decreases Size(ev)
  {
    ListensUpToEnd(order, types, table, ev, stop, status, later);
    ListeningShrinks(order, types, table, ev);
    var r := Listen(order, types, table, ev);
    if r.status != Blocked {
      EndIsNoticed(order, types, table, r.rest, stop, status, later);
    }
  }

  /** So after the frames of any messages, the end of the connection is noticed, and exactly those were heard. */
  lemma StreamIsHeardToItsEnd(order: Endian, types: Types, table: Table, ps: seq<Packet>, ev: seq<Event>, base: nat,
                              stop: Event, status: Status, later: seq<Event>)
    requires Numbered(types) && TableOf(types, table) && Arrives(order, types, table, ps, ev, base)
    requires Ends(stop, status)
    ensures Heard(order, types, table, ev + ([stop] + later)) == OnlyRegistered(types, table, ps)
    ensures Stopped(order, types, table, ev + ([stop] + later)) == Stop(status, later)
  {
    EndIsNoticed(order, types, table, ev, stop, status, later);
    StreamIsHeard(order, types, table, ps, ev, base);
  }

  // ----- when one call of the listener keeps the reader aligned with the frames -----

  /** How many bytes come before the first timeout. */
  function FirstTimeout(ev: seq<Event>): Option<nat> {
    if ev == [] then None
    else match ev[0]
      case Chunk(d) =>
        var later := FirstTimeout(ev[1..]);
        if later.None? then None else Some(|d| + later.value)
      case _ => Some(0)
  }

  /** A timeout comes before the next `n` bytes are complete. */
  predicate Interrupted(ev: seq<Event>, n: nat) {
    FirstTimeout(ev).Some? && FirstTimeout(ev).value < n
  }

  /** A timeout makes `recv_exact` drop the bytes before it; without one, it takes exactly what it was asked for. */
  lemma {:induction false} TakesOrDrops(ev: seq<Event>, n: nat)
    requires Alive(ev) && n <= |Stream(ev)|
    ensures var r := TakeExact(ev, n);
            if Interrupted(ev, n)
            then r.status == Timeout && |Stream(r.rest)| + FirstTimeout(ev).value == |Stream(ev)|
            else && r.status == Success && r.bytes + Stream(r.rest) == Stream(ev) && Alive(r.rest)
                 && forall k: nat :: Interrupted(r.rest, k) <==> Interrupted(ev, n + k)
    decreases |ev|
  {
    if n > 0 {
      assert ev != [];
      if ev[0].Chunk? {
        var d := ev[0].data;
        if |d| <= n {
          TakesOrDrops(ev[1..], n - |d|);
          var r := TakeExact(ev[1..], n - |d|);
          Regroup(d, r.bytes, Stream(r.rest));
        } else {
          ChunkIsCut(d, n, ev[1..]);
        }
      }
    }
  }

  /** The id of a frame at the front is read whole unless a timeout falls inside it. */
  lemma IdIsTaken(order: Endian, types: Types, table: Table, p: Packet, more: seq<byte>, ev: seq<Event>)
    requires Numbered(types) && TableOf(types, table) && Sendable(types, p)
    requires Alive(ev) && Stream(ev) == Frame(order, types, p) + more && !Interrupted(ev, ID_SIZE)
    ensures var head := TakeExact(ev, ID_SIZE);
            && head.status == Success && Alive(head.rest) && |Stream(head.rest)| == |Stream(ev)| - ID_SIZE
            && FromNativeBytes(order, head.bytes) == TypeIndex(types, p.ptype) < |table|
            && forall k: nat :: Interrupted(head.rest, k) <==> Interrupted(ev, ID_SIZE + k)
  {
    var idBytes := IdBytes(order, Id(types, p.ptype));
    var payload := EncodeMessage(order, p.ptype.schema, p.message);
    Regroup(idBytes, payload, more);
    TakesOrDrops(ev, ID_SIZE);
    var head := TakeExact(ev, ID_SIZE);
    Split(idBytes, payload + more);
    Split(head.bytes, Stream(head.rest));
    IdIsUnderstood(order, types, table, p);
  }

  /**
   A call that finds a frame at the front of the stream leaves the reader at a frame boundary exactly when the message
   is digestible and no timeout falls inside its frame.
   */
  lemma StaysAlignedIff(order: Endian, types: Types, table: Table, p: Packet, more: seq<byte>, ev: seq<Event>)
    requires Numbered(types) && TableOf(types, table) && Sendable(types, p)
    requires Alive(ev) && ev != [] && ev[0].Chunk? && Stream(ev) == Frame(order, types, p) + more
    ensures var taken := |Stream(ev)| - |Stream(Listen(order, types, table, ev).rest)|;
            taken == 0 || taken == PacketSize(p.ptype) <==>
            Digestible(types, table, p) && !Interrupted(ev, PacketSize(p.ptype))
  {
    TakesOrDrops(ev, ID_SIZE);
    if !Interrupted(ev, ID_SIZE) {
      IdIsTaken(order, types, table, p, more, ev);
      var head, size := TakeExact(ev, ID_SIZE), table[TypeIndex(types, p.ptype)].size;
      TakesOrDrops(head.rest, size);
      assert Interrupted(head.rest, size) <==> Interrupted(ev, ID_SIZE + size);
    }
  }

  /** An id beyond the table costs the reader its two bytes, and nothing else. */
  lemma UnknownIdIsSkipped(order: Endian, types: Types, table: Table, id: nat, more: seq<byte>, ev: seq<Event>)
    requires TableOf(types, table) && |table| <= id < 0x10000
    requires Alive(ev) && Stream(ev) == IdBytes(order, id) + more && !Interrupted(ev, ID_SIZE)
    ensures var r := Listen(order, types, table, ev);
            r.status == UnknownPacket && r.packet.None? && Alive(r.rest) && Stream(r.rest) == more
  {
    TakesOrDrops(ev, ID_SIZE);
    var head := TakeExact(ev, ID_SIZE);
    Split(IdBytes(order, id), more);
    Split(head.bytes, Stream(head.rest));
    IdSurvivesIff(order, order, id);
  }

  // ----- what a reader between frames makes of the stream -----

  const BEAT := PacketType("heartbeat", [])
  const SPEED := PacketType("speed", [Field(Prim(Integral, 2), 1)])

  /** One call on a chunk that holds an id without a payload, and maybe more behind it. */
  lemma ListensToId(types: Types, table: Table, id: byte, more: seq<byte>)
    requires TableOf(types, table) && id as int < |table| && table[id].size == 0
    requires table[id].handler.None? || table[id].handler == Some(BEAT)
    ensures Listen(Little, types, table, [Chunk([id, 0] + more)]) ==
            Listened(if table[id].handler.Some? then Success else UnknownPacket,
                     if table[id].handler.Some? then Some(Packet(BEAT, [])) else None,
                     if more == [] then [] else [Chunk(more)])
  {
    var d := [id, 0] + more;
    var ev := [Chunk(d)];
    assert ev[1..] == [] && d[..2] == [id, 0] && d[2..] == more;
    if more == [] {
      assert TakeExact(ev[1..], 0) == Taken(Success, [], []);
      assert TakeExact(ev, ID_SIZE) == Taken(Success, [id, 0], []);
    } else {
      assert [Chunk(more)] + ev[1..] == [Chunk(more)];
      assert TakeExact(ev, ID_SIZE) == Taken(Success, [id, 0], [Chunk(more)]);
    }
    TwoBytes([id, 0]);
  }

  /** One byte is no id: the call waits. */
  lemma WaitsForId(types: Types, table: Table, b: byte)
    requires TableOf(types, table)
    ensures Heard(Little, types, table, [Chunk([b])]) == []
  {
    var ev := [Chunk([b])];
    assert ev[1..] == [];
    assert TakeExact(ev[1..], 1).status == Blocked;
    assert TakeExact(ev, ID_SIZE).status == Blocked;
  }

  /**
   Two registered heartbeats, with a timeout inside the first. The byte before the timeout is dropped, the others are
   taken for one heartbeat and the beginning of the next, and one of the two is never heard.
   */
  lemma TimeoutLosesAMessage()
    ensures var types, table, p := [BEAT], [Callback(Some(BEAT), 0)], Packet(BEAT, []);
            var ev := [Chunk([0]), TimedOut, Chunk([0, 0, 0])];
            && TableOf(types, table) && AllSendable(types, [p, p])
            && Stream(ev) == Frames(Little, types, [p, p])
            && Heard(Little, types, table, ev) == [p] && OnlyRegistered(types, table, [p, p]) == [p, p]
  {
    var types, table, p := [BEAT], [Callback(Some(BEAT), 0)], Packet(BEAT, []);
    var last := [Chunk([0, 0, 0])];
    IdIsInterrupted(types, table, last);
    assert [0, 0, 0] == [0, 0] + [0];
    ListensToId(types, table, 0, [0]);
    WaitsForId(types, table, 0);
    TwoHeartbeats(types, table, p);
  }

  lemma IdIsInterrupted(types: Types, table: Table, last: seq<Event>)
    requires TableOf(types, table) && last == [Chunk([0, 0, 0])]
    ensures var ev := [Chunk([0]), TimedOut, Chunk([0, 0, 0])];
            Stream(ev) == [0, 0, 0, 0] && Listen(Little, types, table, ev) == Listened(Timeout, None, last)
  {
    var rest := [TimedOut] + last;
    var ev := [Chunk([0])] + rest;
    assert ev == [Chunk([0]), TimedOut, Chunk([0, 0, 0])];
    assert rest[1..] == last && ev[1..] == rest && last[1..] == [];
    assert TakeExact(rest, 1) == Taken(Timeout, [], last);
    assert Stream(last) == [0, 0, 0] + Stream([]) && Stream(rest) == [] + Stream(last);
    assert Stream(ev) == [0] + Stream(rest);
  }

  lemma TwoHeartbeats(types: Types, table: Table, p: Packet)
    requires types == [BEAT] && table == [Callback(Some(BEAT), 0)] && p == Packet(BEAT, [])
    ensures AllSendable(types, [p, p])
    ensures Frames(Little, types, [p, p]) == [0, 0, 0, 0]
    ensures OnlyRegistered(types, table, [p, p]) == [p, p]
  {
    assert [p, p][1..] == [p] && [p][1..] == [];
    assert ToLE(2, 0) == [0] + ToLE(1, 0) && ToLE(1, 0) == [0] + ToLE(0, 0);
    assert Frame(Little, types, p) == [0, 0];
    assert Frames(Little, types, [p]) == [0, 0] + Frames(Little, types, []);
    assert OnlyRegistered(types, table, [p]) == [p] + OnlyRegistered(types, table, []);
  }

  /**
   One speed message that nobody handles. Its id is skipped, its value is taken for the id of a heartbeat, and a message
   that was never sent is heard.
   */
  lemma StrayMessageIsHeard()
    ensures var types, table, p := [SPEED, BEAT], [Callback(None, 0), Callback(Some(BEAT), 0)], Packet(SPEED, [[1]]);
            && TableOf(types, table) && AllSendable(types, [p])
            && Frames(Little, types, [p]) == [0, 0, 1, 0]
            && Heard(Little, types, table, [Chunk([0, 0, 1, 0])]) == [Packet(BEAT, [])]
            && OnlyRegistered(types, table, [p]) == []
  {
    var types, table, p := [SPEED, BEAT], [Callback(None, 0), Callback(Some(BEAT), 0)], Packet(SPEED, [[1]]);
    assert [0, 0, 1, 0] == [0, 0] + [1, 0] && [1, 0] == [1, 0] + [];
    ListensToId(types, table, 0, [1, 0]);
    ListensToId(types, table, 1, []);
    assert TakeExact([], ID_SIZE).status == Blocked;
    assert Heard(Little, types, table, []) == [];
    OneSpeed(types, table, p);
  }

  lemma OneSpeed(types: Types, table: Table, p: Packet)
    requires types == [SPEED, BEAT] && p == Packet(SPEED, [[1]])
    requires table == [Callback(None, 0), Callback(Some(BEAT), 0)]
    ensures AllSendable(types, [p])
    ensures Frames(Little, types, [p]) == [0, 0, 1, 0]
    ensures OnlyRegistered(types, table, [p]) == []
  {
    assert [p][1..] == [];
    assert Pow256(2) == 256 * Pow256(1) && FitsField(SPEED.schema[0], [1]);
    assert ToLE(2, 0) == [0] + ToLE(1, 0) && ToLE(1, 0) == [0] + ToLE(0, 0);
    assert ToLE(2, 1) == [1] + ToLE(1, 0);
    assert SPEED.schema[1..] == [] && p.message[1..] == [] && [1][1..] == [];
    assert EncodeElements(Little, Prim(Integral, 2), [1]) == [1, 0] + EncodeElements(Little, Prim(Integral, 2), []);
    assert EncodeMessage(Little, SPEED.schema, [[1]]) == [1, 0];
    assert Frame(Little, types, p) == [0, 0] + [1, 0];
    assert Frames(Little, types, [p]) == Frame(Little, types, p) + Frames(Little, types, []);
  }

  // ----- the code -----

  /** What one `send` does: it takes some bytes, fails, or takes none because the peer is gone. */
  datatype SendResult = Accepts(count: nat) | Refuses

  class Client {
    const registry: Registry
    /** What the socket has for `recv`. */
    var incoming: seq<Event>
    /** How the socket will answer `send`. */
    var answers: seq<SendResult>
    /** Everything `send` has taken on this connection. */
    var wire: seq<byte>

    constructor (registry: Registry, incoming: seq<Event>, answers: seq<SendResult>)
      ensures this.registry == registry && this.incoming == incoming && this.answers == answers && wire == []
    {
      this.registry, this.incoming, this.answers, this.wire := registry, incoming, answers, [];
    }

    /** `recv`: it stores what it got from index `at` on, and touches nothing else. */
    method Recv(dst: array<byte>, at: nat, max: nat) returns (r: RecvResult, ghost bytes: seq<byte>)
      requires at + max <= dst.Length
      modifies this`incoming, dst
      ensures Received(r, bytes, incoming) == TakeSome(old(incoming), max)
      ensures dst[..] == Overlay(old(dst[..]), at, bytes)
    {
      bytes := [];
      if incoming == [] {
        r := Pending;
        return;
      }
      match incoming[0]
      case TimedOut =>
        incoming, r := incoming[1..], WouldBlock;
      case Failed =>
        incoming, r := incoming[1..], Error;
      case Chunk(d) =>
        var n := if |d| <= max then |d| else max;
        forall i | 0 <= i < n {
          dst[at + i] := d[i];
        }
        bytes := d[..n];
        incoming := (if n < |d| then [Chunk(d[n..])] else []) + incoming[1..];
        r := Got(n);
    }

    /** One turn of the loop below: one `recv` behind the bytes `got` so far, of the `n` wanted. */
    method RecvMore(dst: array<byte>, at: nat, n: nat, bytesRead: nat, ghost base: seq<byte>, ghost got: seq<byte>)
      returns (r: RecvResult, ghost bytes: seq<byte>)
      requires bytesRead == |got| < n && at + n <= dst.Length == |base| && dst[..] == Overlay(base, at, got)
      modifies this`incoming, dst
      ensures |got + bytes| <= n && dst[..] == Overlay(base, at, got + bytes)
      ensures var all := Behind(got, TakeExact(old(incoming), n - bytesRead));
              if r.Got? && r.count > 0
              then r.count == |bytes| && all == Behind(got + bytes, TakeExact(incoming, n - bytesRead - r.count))
              else bytes == [] && all == Taken(StatusOf(r), got, incoming)
    {
      r, bytes := Recv(dst, at + bytesRead, n - bytesRead);
      TakesSomeThenRest(old(incoming), n - bytesRead, got, r, bytes, incoming);
      OverlaidTwice(base, at, got, bytes);
    }

    /** `recv_exact` into the `n` bytes of `dst` behind the first `at`. */
    method RecvExact(dst: array<byte>, at: nat, n: nat) returns (status: Status, bytesRead: nat)
      requires at + n <= dst.Length
      modifies this`incoming, dst
      ensures var r := TakeExact(old(incoming), n);
              && status == r.status && incoming == r.rest && bytesRead == |r.bytes|
              && dst[..] == Overlay(old(dst[..]), at, r.bytes)
    {
      status, bytesRead := Success, 0;
      ghost var base, whole, got := dst[..], TakeExact(incoming, n), [];
      assert whole == Behind(got, whole);
      while bytesRead < n
        invariant bytesRead == |got| <= n && dst[..] == Overlay(base, at, got)
        invariant whole == Behind(got, TakeExact(incoming, n - bytesRead))
        decreases n - bytesRead
      {
        var result, bytes := RecvMore(dst, at, n, bytesRead, base, got);
        if !result.Got? || result.count == 0 {
          status := StatusOf(result);
          break;
        }
        got := got + bytes;
        bytesRead := bytesRead + result.count;
      }
      assert whole == Taken(status, got, incoming);
    }

    /** `recv_payload_id`. */
    method RecvPayloadId(payload: array<byte>) returns (status: Status, id: nat)
      requires payload.Length >= ID_SIZE
      modifies this`incoming, payload
      ensures var r := TakeExact(old(incoming), ID_SIZE);
              && status == r.status && incoming == r.rest
              && (status == Success ==> id == FromNativeBytes(registry.order, r.bytes))
    {
      var got: nat;
      id := 0;
      status, got := RecvExact(payload, 0, ID_SIZE);
      if status == Success {
        OverlaidPart(old(payload[..]), 0, TakeExact(old(incoming), ID_SIZE).bytes);
        id := FromNativeBytes(registry.order, payload[..][0..ID_SIZE]);
      }
    }

    /** `recv_payload`: the bytes go behind the id. */
    method RecvPayload(payload: array<byte>, size: nat) returns (status: Status, got: nat)
      requires ID_SIZE + size <= payload.Length
      modifies this`incoming, payload
      ensures var r := TakeExact(old(incoming), size);
              && status == r.status && incoming == r.rest && got == |r.bytes|
              && payload[..][ID_SIZE..ID_SIZE + got] == r.bytes
    {
      status, got := RecvExact(payload, ID_SIZE, size);
      OverlaidPart(old(payload[..]), ID_SIZE, TakeExact(old(incoming), size).bytes);
    }

    /** The second half of `listen_to_server`, behind the id in the buffer. */
    method ListenToPayload(payload: array<byte>, id: nat) returns (status: Status)
      requires registry.Valid() && payload.Length == MaxPayload(registry.types)
      modifies this`incoming, registry`invoked, payload
      ensures var r := ListenBehind(registry.order, registry.types, registry.table, id, old(incoming));
              && status == r.status && incoming == r.rest
              && registry.invoked == old(registry.invoked) + (if r.packet.Some? then [r.packet.value] else [])
    {
      var expected := Expected(registry.table, id);
      if expected.None? {
        return UnknownPacket;
      }
      assert ID_SIZE + expected.value <= payload.Length;
      var got: nat;
      status, got := RecvPayload(payload, expected.value);
      if status != Success {
        return;
      }
      var called := registry.Dispatch(id, payload[..], ID_SIZE + got);
      if !called {
        return UnknownPacket;
      }
    }

    /** `listen_to_server` is `Listen`, and the callbacks are given what it finds. */
    method ListenToServer() returns (status: Status)
      requires registry.Valid()
      modifies this`incoming, registry`invoked
      ensures var r := Listen(registry.order, registry.types, registry.table, old(incoming));
              && status == r.status && incoming == r.rest
              && registry.invoked == old(registry.invoked) + (if r.packet.Some? then [r.packet.value] else [])
    {
      var payload := new byte[MaxPayload(registry.types)](_ => 0);
      var id: nat;
      status, id := RecvPayloadId(payload);
      if status == Success {
        status := ListenToPayload(payload, id);
      }
    }

    /** The listen task's loop: its callbacks are given what `Heard` says, and it stops as `Stopped` says. */
    method ListenUntilStopped() returns (status: Status)
      requires registry.Valid()
      modifies this`incoming, registry`invoked
      ensures registry.invoked ==
              old(registry.invoked) + Heard(registry.order, registry.types, registry.table, old(incoming))
      ensures Stop(status, incoming) == Stopped(registry.order, registry.types, registry.table, old(incoming))
      ensures !GoesOn(status)
    {
      status := Success;
      ghost var all := registry.invoked + Heard(registry.order, registry.types, registry.table, incoming);
      ghost var end := Stopped(registry.order, registry.types, registry.table, incoming);
      while GoesOn(status)
        invariant GoesOn(status) ==>
                    && registry.invoked + Heard(registry.order, registry.types, registry.table, incoming) == all
                    && Stopped(registry.order, registry.types, registry.table, incoming) == end
        invariant !GoesOn(status) ==> registry.invoked == all && Stop(status, incoming) == end
        decreases GoesOn(status), Size(incoming)
      {
        ghost var before, invoked := incoming, registry.invoked;
        ListeningShrinks(registry.order, registry.types, registry.table, incoming);
        status := ListenToServer();
        ghost var r := Listen(registry.order, registry.types, registry.table, before);
        Regroup(invoked, if r.packet.Some? then [r.packet.value] else [],
                Heard(registry.order, registry.types, registry.table, incoming));
      }
    }

    /**
     `send_to_server`: whatever the socket answers, a prefix of the frame goes out, all of it exactly on success, and a
     timeout is never reported. The answers decide which: the message goes out if and only if some first answers are all
     willing and add up to its size.
     */
    method SendToServer(p: Packet) returns (status: Status, sent: nat)
      requires registry.Valid() && Sendable(registry.types, p)
      modifies this`answers, this`wire
      ensures sent <= PacketSize(p.ptype)
      ensures wire == old(wire) + Frame(registry.order, registry.types, p)[..sent]
      ensures status == Success <==> sent == PacketSize(p.ptype)
      ensures Answered(old(answers), PacketSize(p.ptype), status, sent, answers)
      ensures status == Success <==> Suffices(old(answers), PacketSize(p.ptype))
    {
      var payload := registry.Create(p);
      status, sent := SendBytes(payload[..PacketSize(p.ptype)]);
    }

    /** One `send` that took the bytes from `from` on, `n` of them. */
    method PutOnWire(frame: seq<byte>, from: nat, n: nat, ghost before: seq<byte>)
      requires from + n <= |frame| && wire == before + frame[..from]
      modifies this`wire
      ensures wire == before + frame[..from + n]
    {
      Continues(before, frame, from, from + n);
      wire := wire + frame[from..from + n];
    }

    /** The loop over partial sends. */
    method SendBytes(frame: seq<byte>) returns (status: Status, sent: nat)
      modifies this`answers, this`wire
      ensures sent <= |frame| && wire == old(wire) + frame[..sent] && (status == Success <==> sent == |frame|)
      ensures Answered(old(answers), |frame|, status, sent, answers)
      ensures status == Success <==> Suffices(old(answers), |frame|)
    {
      sent := 0;
      ghost var all, used: nat := answers, 0;
      while sent < |frame|
        invariant sent <= |frame| && wire == old(wire) + frame[..sent]
        invariant used <= |all| && answers == all[used..] && Underway(all[..used], |frame|, sent)
        decreases |frame| - sent
      {
        if answers == [] {
          TakeAll(all);
          AnsweredWhen(all, used, |frame|, Blocked, sent);
          return Blocked, sent;
        }
        var answer := answers[0];
        answers := answers[1..];
        TakeNext(all, used);
        used := used + 1;
        if answer.Refuses? || answer.count == 0 {
          status := if answer.Refuses? then Failure else ConnectionClosed;
          AnsweredWhen(all, used, |frame|, status, sent);
          return;
        }
        OneMoreAnswer(all[..used - 1], answer, |frame|, sent);
        var n := if answer.count <= |frame| - sent then answer.count else |frame| - sent;
        PutOnWire(frame, sent, n, old(wire));
        sent := sent + n;
      }
      AnsweredWhen(all, used, |frame|, Success, sent);
      status := Success;
    }
  }

  // ----- what the answers of the socket decide -----

  /** Every answer takes something. */
  predicate Willing(answers: seq<SendResult>) {
    forall i :: 0 <= i < |answers| ==> answers[i].Accepts? && answers[i].count > 0
  }

  /** The bytes that the answers are ready to take. */
  function Total(answers: seq<SendResult>): nat {
    if answers == [] then 0
    else
      var last := answers[|answers| - 1];
      Total(answers[..|answers| - 1]) + (if last.Accepts? then last.count else 0)
  }

  /** Some first answers are all willing, and ready to take `size` bytes. */
  ghost predicate Suffices(answers: seq<SendResult>, size: nat) {
    exists k :: 0 <= k <= |answers| && Willing(answers[..k]) && Total(answers[..k]) >= size
  }

  /** Which of its answers a send of `size` bytes has used up, and how it ends. */
  ghost predicate Answered(answers: seq<SendResult>, size: nat, status: Status, sent: nat, left: seq<SendResult>) {
    |left| <= |answers| &&
    var used := |answers| - |left|;
    left == answers[used..] &&
    var taken, before := answers[..used], answers[..if used > 0 then used - 1 else 0];
    match status
    case Success => Willing(taken) && Total(taken) >= size == sent && (used > 0 ==> Total(before) < size)
    case Failure => used > 0 && Willing(before) && Total(before) == sent < size && taken[used - 1] == Refuses
    case ConnectionClosed =>
      used > 0 && Willing(before) && Total(before) == sent < size && taken[used - 1] == Accepts(0)
    case Blocked => left == [] && Willing(taken) && Total(taken) == sent < size
    case _ => false
  }

  /** A send that goes on: all answers were willing, and the last one may have been ready to take too much. */
  ghost predicate Underway(taken: seq<SendResult>, size: nat, sent: nat) {
    && Willing(taken) && (sent < size ==> Total(taken) == sent)
    && (sent >= size ==> Total(taken) >= size && (taken != [] ==> Total(taken[..|taken| - 1]) < size))
  }

  lemma OneMoreAnswer(taken: seq<SendResult>, answer: SendResult, size: nat, sent: nat)
    requires Underway(taken, size, sent) && sent < size && answer.Accepts? && answer.count > 0
    ensures Underway(taken + [answer], size, if answer.count <= size - sent then sent + answer.count else size)
  {
    assert (taken + [answer])[..|taken|] == taken;
  }

  lemma {:induction false} TotalGrows(answers: seq<SendResult>, i: nat, j: nat)
    requires i <= j <= |answers|
    ensures Total(answers[..i]) <= Total(answers[..j])
    decreases j
  {
    if i < j {
      assert answers[..j][..j - 1] == answers[..j - 1];
      TotalGrows(answers, i, j - 1);
    }
  }

  lemma UnwillingStays(answers: seq<SendResult>, i: nat, k: nat)
    requires i < k <= |answers| && (answers[i] == Refuses || answers[i] == Accepts(0))
    ensures !Willing(answers[..k])
  {
    assert answers[..k][i] == answers[i];
  }

  /** What is known when the loop ends is what the answers decide. */
  lemma AnsweredWhen(answers: seq<SendResult>, used: nat, size: nat, status: Status, sent: nat)
    requires used <= |answers| && sent <= size
    requires match status
             case Success => sent == size && Underway(answers[..used], size, sent)
             case Blocked => used == |answers| && sent < size && Underway(answers, size, sent)
             case Failure =>
               used > 0 && sent < size && Underway(answers[..used - 1], size, sent) && answers[used - 1] == Refuses
             case ConnectionClosed =>
               used > 0 && sent < size && Underway(answers[..used - 1], size, sent) && answers[used - 1] == Accepts(0)
             case _ => false
    ensures Answered(answers, size, status, sent, answers[used..])
    ensures status == Success <==> Suffices(answers, size)
  {
    TakeAll(answers);
    if status == Success {
      if used > 0 {
        assert answers[..used][..used - 1] == answers[..used - 1];
      }
      assert Willing(answers[..used]) && Total(answers[..used]) >= size;
    } else {
      var most := if status == Blocked then |answers| else used - 1;
      forall k | 0 <= k <= |answers| ensures !(Willing(answers[..k]) && Total(answers[..k]) >= size) {
        if k > most {
          UnwillingStays(answers, most, k);
        } else {
          TotalGrows(answers, k, most);
        }
      }
    }
  }

  /** The answers are enough for all messages in turn; what an answer was ready to take beyond a message is lost. */
  ghost predicate SufficesAll(answers: seq<SendResult>, ps: seq<Packet>)
    decreases |ps|
  {
    ps != [] ==> exists k :: 0 <= k <= |answers| && SufficesFrom(answers, ps, k)
  }

  ghost predicate SufficesFrom(answers: seq<SendResult>, ps: seq<Packet>, k: nat)
    requires ps != [] && k <= |answers|
    decreases |ps|, 0
  {
    && Willing(answers[..k]) && Total(answers[..k]) >= PacketSize(ps[0].ptype)
    && SufficesAll(answers[k..], ps[1..])
  }

  lemma {:induction false} TotalOfSum(a: seq<SendResult>, b: seq<SendResult>)
    ensures Total(a + b) == Total(a) + Total(b)
  {
    if b == [] {
      assert a + b == a;
    } else {
      assert (a + b)[..|a + b| - 1] == a + b[..|b| - 1];
      TotalOfSum(a, b[..|b| - 1]);
    }
  }

  /** More willing answers in front do no harm. */
  lemma MoreAnswersHelp(more: seq<SendResult>, answers: seq<SendResult>, ps: seq<Packet>)
    requires Willing(more) && SufficesAll(answers, ps)
    ensures SufficesAll(more + answers, ps)
  {
    if ps != [] {
      var k :| 0 <= k <= |answers| && SufficesFrom(answers, ps, k);
      var all := more + answers;
      assert all[..|more| + k] == more + answers[..k] && all[|more| + k..] == answers[k..];
      TotalOfSum(more, answers[..k]);
      assert SufficesFrom(all, ps, |more| + k);
    }
  }

  lemma ShortestIsFirst(answers: seq<SendResult>, size: nat, used: nat, k: nat)
    requires used <= |answers| && k <= |answers| && Total(answers[..k]) >= size
    requires used > 0 ==> Total(answers[..used - 1]) < size
    ensures used <= k
  {
    if k < used {
      TotalGrows(answers, k, used - 1);
    }
  }

  lemma EnoughBehind(answers: seq<SendResult>, used: nat, k: nat, ps: seq<Packet>)
    requires used <= k <= |answers| && Willing(answers[..k]) && SufficesAll(answers[k..], ps)
    ensures SufficesAll(answers[used..], ps)
  {
    var between := answers[used..k];
    assert forall i :: 0 <= i < |between| ==> between[i] == answers[..k][used + i];
    assert between + answers[k..] == answers[used..];
    MoreAnswersHelp(between, answers[k..], ps);
  }

  /** One message sent leaves enough answers for the others exactly if there were enough for all. */
  lemma SentLeavesEnough(answers: seq<SendResult>, ps: seq<Packet>, used: nat)
    requires ps != [] && used <= |answers|
    requires Answered(answers, PacketSize(ps[0].ptype), Success, PacketSize(ps[0].ptype), answers[used..])
    ensures SufficesAll(answers, ps) <==> SufficesAll(answers[used..], ps[1..])
  {
    if SufficesAll(answers[used..], ps[1..]) {
      assert SufficesFrom(answers, ps, used);
    } else {
      forall k | 0 <= k <= |answers| ensures !SufficesFrom(answers, ps, k) {
        if SufficesFrom(answers, ps, k) {
          ShortestIsFirst(answers, PacketSize(ps[0].ptype), used, k);
          EnoughBehind(answers, used, k, ps[1..]);
        }
      }
    }
  }

  /**
   The send task's messages, one after another. What is on the wire is whole frames and then the front of one more, and
   exactly the frames of all messages if every send succeeds: that is what `StreamIsHeard` asks of a stream. Every send
   succeeds if and only if the answers are enough.
   */
  method SendAll(client: Client, ps: seq<Packet>) returns (status: Status, whole: nat, sent: nat)
    requires client.registry.Valid() && AllSendable(client.registry.types, ps)
    modifies client`answers, client`wire
    ensures whole <= |ps| && (status == Success <==> whole == |ps|)
    ensures AllSendable(client.registry.types, ps[..whole])
    ensures var frames := Frames(client.registry.order, client.registry.types, ps[..whole]);
            if whole == |ps| then ps[..whole] == ps && client.wire == old(client.wire) + frames
            else var next := Frame(client.registry.order, client.registry.types, ps[whole]);
                 sent < |next| && client.wire == old(client.wire) + frames + next[..sent]
    ensures status == Success <==> SufficesAll(old(client.answers), ps)
  {
    whole, sent, status := 0, 0, Success;
    ghost var order, types, before := client.registry.order, client.registry.types, client.wire;
    ghost var enough := SufficesAll(client.answers, ps);
    while whole < |ps|
      invariant whole <= |ps| && AllSendable(types, ps[..whole]) && status == Success
      invariant client.wire == before + Frames(order, types, ps[..whole])
      invariant SufficesAll(client.answers, ps[whole..]) == enough
      decreases |ps| - whole
    {
      ghost var answers := client.answers;
      DropNext(ps, whole);
      status, sent := client.SendToServer(ps[whole]);
      if status != Success {
        NoMessageNoneAfter(answers, ps[whole..]);
        return;
      }
      SentLeavesEnough(answers, ps[whole..], |answers| - |client.answers|);
      OneMoreSent(order, types, ps, whole, before);
      whole := whole + 1;
    }
    TakeAll(ps);
  }

  lemma NoMessageNoneAfter(answers: seq<SendResult>, ps: seq<Packet>)
    requires ps != [] && !Suffices(answers, PacketSize(ps[0].ptype))
    ensures !SufficesAll(answers, ps)
  {
  }

  /** How many bytes the messages are together. */
  function SizeOfAll(ps: seq<Packet>): nat {
    if ps == [] then 0 else PacketSize(ps[0].ptype) + SizeOfAll(ps[1..])
  }

  lemma {:induction false} WillingTakesOneEach(answers: seq<SendResult>)
    requires Willing(answers)
    ensures Total(answers) >= |answers|
  {
    if answers != [] {
      WillingTakesOneEach(answers[..|answers| - 1]);
    }
  }

  /** A socket that always takes something gets every message, be it one byte at a time. */
  lemma {:induction false} WillingSocketTakesAll(answers: seq<SendResult>, ps: seq<Packet>)
    requires Willing(answers) && |answers| >= SizeOfAll(ps)
    ensures SufficesAll(answers, ps)
    decreases |ps|
  {
    if ps != [] {
      var k := PacketSize(ps[0].ptype);
      WillingTakesOneEach(answers[..k]);
      WillingSocketTakesAll(answers[k..], ps[1..]);
      assert SufficesFrom(answers, ps, k);
    }
  }

  lemma OneMoreSent(order: Endian, types: Types, ps: seq<Packet>, i: nat, before: seq<byte>)
    requires AllSendable(types, ps) && i < |ps|
    ensures AllSendable(types, ps[..i]) && AllSendable(types, ps[..i + 1]) && Sendable(types, ps[i])
    ensures var frame := Frame(order, types, ps[i]);
            before + Frames(order, types, ps[..i]) + frame[..|frame|] == before + Frames(order, types, ps[..i + 1])
  {
    OneMoreFrame(order, types, ps, i);
    TakeAll(Frame(order, types, ps[i]));
    Regroup(before, Frames(order, types, ps[..i]), Frame(order, types, ps[i]));
  }

  lemma OneMoreFrame(order: Endian, types: Types, ps: seq<Packet>, i: nat)
    requires AllSendable(types, ps) && i < |ps|
    ensures AllSendable(types, ps[..i]) && AllSendable(types, ps[..i + 1]) && Sendable(types, ps[i])
    ensures Frames(order, types, ps[..i + 1]) == Frames(order, types, ps[..i]) + Frame(order, types, ps[i])
  {
    TakeNext(ps, i);
    FramesAppend(order, types, ps[..i], ps[i]);
  }

  lemma {:induction false} FramesAppend(order: Endian, types: Types, ps: seq<Packet>, p: Packet)
    requires AllSendable(types, ps) && Sendable(types, p)
    ensures AllSendable(types, ps + [p])
    ensures Frames(order, types, ps + [p]) == Frames(order, types, ps) + Frame(order, types, p)
  {
    if ps == [] {
      assert [p][1..] == [] && ps + [p] == [p];
      assert Frames(order, types, [p]) == Frame(order, types, p) + Frames(order, types, []);
    } else {
      assert (ps + [p])[1..] == ps[1..] + [p];
      FramesAppend(order, types, ps[1..], p);
      Regroup(Frame(order, types, ps[0]), Frames(order, types, ps[1..]), Frame(order, types, p));
    }
  }

  lemma Continues(before: seq<byte>, frame: seq<byte>, i: nat, j: nat)
    requires i <= j <= |frame|
    ensures before + frame[..i] + frame[i..j] == before + frame[..j]
  {
  }

  /** The outcome of reading behind bytes that are already there. */
  function Behind(done: seq<byte>, t: Taken): Taken {
    t.(bytes := done + t.bytes)
  }

  /** Reading exactly `n` bytes behind `done` is one `recv` and then reading what is still missing. */
  lemma TakesSomeThenRest(ev: seq<Event>, n: nat, done: seq<byte>, r: RecvResult, bytes: seq<byte>, rest: seq<Event>)
    requires n > 0 && Received(r, bytes, rest) == TakeSome(ev, n)
    ensures r.Got? && r.count > 0 ==>
              && r.count == |bytes| <= n
              && Behind(done, TakeExact(ev, n)) == Behind(done + bytes, TakeExact(rest, n - r.count))
    ensures !r.Got? || r.count == 0 ==>
              bytes == [] && Behind(done, TakeExact(ev, n)) == Taken(StatusOf(r), done, rest)
  {
    if r.Got? && r.count > 0 {
      BytesThenRest(ev, n, bytes, rest);
      Regroup(done, bytes, TakeExact(rest, n - r.count).bytes);
    } else {
      assert TakeExact(ev, n) == Taken(StatusOf(r), [], rest);
      assert done + [] == done;
    }
  }

  lemma BytesThenRest(ev: seq<Event>, n: nat, bytes: seq<byte>, rest: seq<Event>)
    requires n > 0 && bytes != [] && Received(Got(|bytes|), bytes, rest) == TakeSome(ev, n)
    ensures TakeExact(ev, n) == Behind(bytes, TakeExact(rest, n - |bytes|))
  {
    if |ev[0].data| > n {
      assert TakeExact(rest, 0) == Taken(Success, [], rest);
      assert bytes + [] == bytes;
    }
  }
}
