/**
 The host's rail storage (host/src/host/rail_network/storage): tracks are runs of rails, every rail may
 carry a branch location, every track may be linked to another track, and a lookup finds a rail by id.

 `Network` is the value the storage holds at one moment. `Storage` is the object that updates it.
 */
module RailStorage {
  import opened Wrappers

  type RailId = n: int | 0 <= n < 0x1_0000_0000_0000_0000

  datatype RailType = NoType | Straight | LeftCurve | RightCurve | LeftJunction | RightJunction

  predicate IsJunction(t: RailType) {
    t == LeftJunction || t == RightJunction
  }

  datatype Endpoint = Endpoint(id: RailId, rtype: RailType)

  datatype Connection = Connection(current: Endpoint, previous: Endpoint, branch: Option<Endpoint>)

  datatype Location = Location(track: nat, position: nat)

  /** A rail whose branch was never set keeps the default location (0, 0). */
  datatype Rail = Rail(id: RailId, rtype: RailType, branch: Location)

  datatype Track = Track(rails: seq<Rail>, link: Option<nat>)

  datatype Status = Success | RailAlreadyExists | NoPreviousRail | InvalidConnection | InvalidLoop

  function NewRail(e: Endpoint): Rail {
    Rail(e.id, e.rtype, Location(0, 0))
  }

  datatype Network = Network(tracks: seq<Track>, lookup: map<RailId, Location>) {

    predicate Has(loc: Location) {
      loc.track < |tracks| && loc.position < |tracks[loc.track].rails|
    }

    function At(loc: Location): Rail
      requires Has(loc)
    {
      tracks[loc.track].rails[loc.position]
    }

    /**
     The storage invariant: the lookup and the rails on the tracks agree in both directions, no track is
     empty, and every branch and every link leads to something that is stored.
     */
    ghost predicate Valid() {
      Indexed() && Listed() && Branched() && Linked()
    }

    ghost predicate Indexed() {
      forall id :: id in lookup ==> Has(lookup[id]) && At(lookup[id]).id == id
    }

    ghost predicate Listed() {
      forall loc {:trigger At(loc)} :: Has(loc) ==> At(loc).id in lookup && lookup[At(loc).id] == loc
    }

    ghost predicate Branched() {
      forall loc {:trigger At(loc)} :: Has(loc) ==> Has(At(loc).branch)
    }

    ghost predicate Linked() {
      forall t :: 0 <= t < |tracks| ==>
        tracks[t].rails != [] && (tracks[t].link.Some? ==> tracks[t].link.value < |tracks|)
    }

    /** The rail at a location, if there is one. */
    function IdAt(loc: Location): Option<RailId> {
      if Has(loc) then Some(At(loc).id) else None
    }

    predicate Last(loc: Location)
      requires Has(loc)
    {
      loc.position + 1 == |tracks[loc.track].rails|
    }

    /** Whether a rail is the last one of its track. */
    predicate IsLast(id: RailId)
      requires Valid() && id in lookup
    {
      Last(lookup[id])
    }

    /** The rail ahead of a location: along the track, else through the track's link. */
    function Ahead(loc: Location): Option<RailId>
      requires Has(loc)
    {
      var track := tracks[loc.track];
      if !Last(loc) then Some(At(Location(loc.track, loc.position + 1)).id)
      else if track.link.None? then None
      else if track.link.value == loc.track then Some(At(Location(loc.track, 0)).id)
      else IdAt(Location(track.link.value, At(loc).branch.position))
    }

    /** `get_next_rail`. */
    function Next(id: RailId): (r: Option<RailId>)
      requires Valid()
      ensures r.Some? ==> r.value in lookup
    {
      if id !in lookup then None else Ahead(lookup[id])
    }

    /** `track_t::add` on track `t`, together with the new rail's lookup entry. */
    function WithRail(t: nat, e: Endpoint): Network
      requires t < |tracks|
    {
      Network(tracks[t := tracks[t].(rails := tracks[t].rails + [NewRail(e)])],
              lookup[e.id := Location(t, |tracks[t].rails|)])
    }

    /** A new track holding one rail, together with that rail's lookup entry. */
    function WithTrack(e: Endpoint): Network {
      Network(tracks + [Track([NewRail(e)], None)], lookup[e.id := Location(|tracks|, 0)])
    }

    /** `track_t::add_branch` at an existing position. */
    function WithBranch(at: Location, branch: Location): Network
      requires Has(at)
    {
      var track := tracks[at.track];
      var rails := track.rails[at.position := track.rails[at.position].(branch := branch)];
      this.(tracks := tracks[at.track := track.(rails := rails)])
    }

    /** `track_t::set_track_connection`. */
    function WithLink(t: nat, target: nat): Network
      requires t < |tracks|
    {
      this.(tracks := tracks[t := tracks[t].(link := Some(target))])
    }
  }

  const EMPTY := Network([], map[])

  // ----- what one append does, as a function of the network before it -----

  datatype Outcome = Outcome(net: Network, status: Status)

  function AfterCreate(net: Network, e: Endpoint): Outcome {
    if e.id in net.lookup then Outcome(net, RailAlreadyExists) else Outcome(net.WithTrack(e), Success)
  }

  function AfterAppend(net: Network, c: Connection): Outcome
    requires net.Valid() && c.previous.id in net.lookup
  {
    if c.current.id in net.lookup then Outcome(net, RailAlreadyExists) else
    var t := net.lookup[c.previous.id].track;
    var added := net.WithRail(t, c.current);
    if c.branch.None? then Outcome(added, Success)
    else if !IsJunction(c.current.rtype) then Outcome(added, InvalidConnection)
    else if c.branch.value.id in added.lookup then Outcome(added, RailAlreadyExists)
    else
      var at := Location(t, |net.tracks[t].rails|);
      Outcome(added.WithTrack(c.branch.value).WithBranch(at, Location(|net.tracks|, 0)), Success)
  }

  function AfterConnect(net: Network, c: Connection): Outcome
    requires net.Valid() && c.previous.id in net.lookup && c.current.id in net.lookup
  {
    var cur, prev := net.lookup[c.current.id], net.lookup[c.previous.id];
    if cur.track == prev.track then
      var first := if cur.position <= prev.position then cur.position else prev.position;
      var last := if cur.position <= prev.position then prev.position else cur.position;
      if first != 0 && last != |net.tracks[cur.track].rails| - 1 then Outcome(net, InvalidLoop)
      else Outcome(net.WithLink(cur.track, cur.track), Success)
    else
      Outcome(net.WithLink(prev.track, cur.track).WithBranch(prev, cur), Success)
  }

  function AfterAppendRail(net: Network, c: Connection): Outcome
    requires net.Valid()
  {
    if c.previous.rtype == NoType then AfterCreate(net, c.current)
    else if c.previous.id !in net.lookup then Outcome(net, NoPreviousRail)
    else if c.current.id in net.lookup then AfterConnect(net, c)
    else AfterAppend(net, c)
  }

  // ----- the invariant over every run -----

  /** `n` is `net` with one more rail, stored at `at`. */
  ghost predicate Grown(net: Network, n: Network, at: Location, e: Endpoint) {
    && n.lookup == net.lookup[e.id := at]
    && !net.Has(at) && n.Has(at) && n.At(at) == NewRail(e)
    && (forall loc {:trigger n.At(loc)} :: n.Has(loc) && loc != at ==> net.Has(loc) && n.At(loc) == net.At(loc))
    && (forall loc {:trigger net.Has(loc)} :: net.Has(loc) ==> n.Has(loc))
  }

  lemma GrownKeepsRails(net: Network, n: Network, at: Location, e: Endpoint)
    requires net.Valid() && e.id !in net.lookup && Grown(net, n, at, e) && n.Has(Location(0, 0))
    ensures n.Indexed() && n.Listed() && n.Branched()
  {
  }

  lemma WithRailGrown(net: Network, t: nat, e: Endpoint)
    requires t < |net.tracks|
    ensures Grown(net, net.WithRail(t, e), Location(t, |net.tracks[t].rails|), e)
  {
    var n, at := net.WithRail(t, e), Location(t, |net.tracks[t].rails|);
    forall loc: Location
      ensures n.Has(loc) && loc != at ==> net.Has(loc) && n.At(loc) == net.At(loc)
      ensures net.Has(loc) ==> n.Has(loc)
    {
      assert loc == Location(loc.track, loc.position);
    }
  }

  lemma WithRailValid(net: Network, t: nat, e: Endpoint)
    requires net.Valid() && t < |net.tracks| && e.id !in net.lookup
    ensures net.WithRail(t, e).Valid()
  {
    assert net.tracks[0].rails != [];
    WithRailGrown(net, t, e);
    GrownKeepsRails(net, net.WithRail(t, e), Location(t, |net.tracks[t].rails|), e);
  }

  lemma WithTrackGrown(net: Network, e: Endpoint)
    ensures Grown(net, net.WithTrack(e), Location(|net.tracks|, 0), e)
  {
    var n, at := net.WithTrack(e), Location(|net.tracks|, 0);
    forall loc: Location
      ensures n.Has(loc) && loc != at ==> net.Has(loc) && n.At(loc) == net.At(loc)
      ensures net.Has(loc) ==> n.Has(loc)
    {
      assert loc == Location(loc.track, loc.position);
    }
  }

  lemma WithTrackValid(net: Network, e: Endpoint)
    requires net.Valid() && e.id !in net.lookup
    ensures net.WithTrack(e).Valid()
  {
    assert net.tracks != [] ==> net.tracks[0].rails != [];
    WithTrackGrown(net, e);
    GrownKeepsRails(net, net.WithTrack(e), Location(|net.tracks|, 0), e);
  }

  lemma WithBranchValid(net: Network, at: Location, branch: Location)
    requires net.Valid() && net.Has(at) && net.Has(branch)
    ensures net.WithBranch(at, branch).Valid()
  {
    var n := net.WithBranch(at, branch);
    forall loc | n.Has(loc)
      ensures n.At(loc).id in n.lookup && n.lookup[n.At(loc).id] == loc && n.Has(n.At(loc).branch)
    {
      assert n.At(loc).id == net.At(loc).id;
    }
  }

  lemma WithLinkValid(net: Network, t: nat, target: nat)
    requires net.Valid() && t < |net.tracks| && target < |net.tracks|
    ensures net.WithLink(t, target).Valid()
  {
    var n := net.WithLink(t, target);
    forall loc | n.Has(loc)
      ensures n.At(loc).id in n.lookup && n.lookup[n.At(loc).id] == loc && n.Has(n.At(loc).branch)
    {
      assert n.At(loc) == net.At(loc);
    }
  }

  lemma AppendKeepsValid(net: Network, c: Connection)
    requires net.Valid()
    ensures AfterAppendRail(net, c).net.Valid()
  {
    if c.previous.rtype == NoType {
      if c.current.id !in net.lookup { WithTrackValid(net, c.current); }
    } else if c.previous.id in net.lookup && c.current.id in net.lookup {
      var cur, prev := net.lookup[c.current.id], net.lookup[c.previous.id];
      WithLinkValid(net, prev.track, cur.track);
      if cur.track != prev.track {
        WithBranchValid(net.WithLink(prev.track, cur.track), prev, cur);
      }
    } else if c.previous.id in net.lookup {
      AppendToTrackValid(net, c);
    }
  }

  lemma AppendToTrackValid(net: Network, c: Connection)
    requires net.Valid() && c.previous.id in net.lookup && c.current.id !in net.lookup
    ensures AfterAppend(net, c).net.Valid()
  {
    var t := net.lookup[c.previous.id].track;
    var added := net.WithRail(t, c.current);
    WithRailValid(net, t, c.current);
    if c.branch.Some? && c.branch.value.id !in added.lookup {
      WithTrackValid(added, c.branch.value);
      WithBranchValid(added.WithTrack(c.branch.value),
                      Location(t, |net.tracks[t].rails|), Location(|net.tracks|, 0));
    }
  }

  /** The network after a whole run of appends, whatever each one reported. */
  ghost function AppendAll(net: Network, cs: seq<Connection>): Network
    requires net.Valid()
    decreases |cs|
  {
    if cs == [] then net
    else
      AppendKeepsValid(net, cs[0]);
      AppendAll(AfterAppendRail(net, cs[0]).net, cs[1..])
  }

  lemma NoRailIsForgotten(net: Network, c: Connection)
    requires net.Valid()
    ensures net.lookup.Keys <= AfterAppendRail(net, c).net.lookup.Keys
  {
  }

  /** Every network built by any run of appends is valid, and no run ever forgets a rail. */
  lemma {:induction false} EveryRunIsValid(net: Network, cs: seq<Connection>)
    requires net.Valid()
    ensures AppendAll(net, cs).Valid()
    ensures net.lookup.Keys <= AppendAll(net, cs).lookup.Keys
    decreases |cs|
  {
    if cs != [] {
      AppendKeepsValid(net, cs[0]);
      NoRailIsForgotten(net, cs[0]);
      EveryRunIsValid(AfterAppendRail(net, cs[0]).net, cs[1..]);
    }
  }

  // ----- where the rails lead after one update -----

  lemma AheadWithRail(net: Network, t: nat, e: Endpoint, loc: Location)
    requires net.Has(loc) && t < |net.tracks|
    ensures var n := net.WithRail(t, e);
            && n.Has(loc) && n.At(loc) == net.At(loc)
            && n.Ahead(loc) ==
               if net.Last(loc) && (loc.track == t || (net.tracks[loc.track].link == Some(t) &&
                                                       net.At(loc).branch.position == |net.tracks[t].rails|))
               then Some(e.id) else net.Ahead(loc)
  {
  }

  lemma AheadWithTrack(net: Network, e: Endpoint, loc: Location)
    requires net.Has(loc) && net.Linked()
    ensures var n := net.WithTrack(e);
            n.Has(loc) && n.At(loc) == net.At(loc) && n.Ahead(loc) == net.Ahead(loc)
  {
    assert net.WithTrack(e).tracks[loc.track] == net.tracks[loc.track];
  }

  lemma AheadWithBranch(net: Network, at: Location, branch: Location, loc: Location)
    requires net.Has(at) && net.Has(loc)
    ensures var n, track := net.WithBranch(at, branch), net.tracks[loc.track];
            && n.Has(loc) && n.At(loc).id == net.At(loc).id
            && n.Ahead(loc) ==
               if loc == at && net.Last(loc) && track.link.Some? && track.link.value != loc.track
               then net.IdAt(Location(track.link.value, branch.position)) else net.Ahead(loc)
  {
    var n := net.WithBranch(at, branch);
    SameIds(net, n, at, branch);
  }

  /** Setting a branch keeps every rail's place and id. */
  lemma SameIds(net: Network, n: Network, at: Location, branch: Location)
    requires net.Has(at) && n == net.WithBranch(at, branch)
    ensures forall loc :: n.IdAt(loc) == net.IdAt(loc)
  {
  }

  lemma AheadWithLink(net: Network, t: nat, target: nat, loc: Location)
    requires net.Has(loc) && t < |net.tracks|
    ensures var n := net.WithLink(t, target);
            && n.Has(loc) && n.At(loc) == net.At(loc)
            && n.Ahead(loc) ==
               if loc.track != t || !net.Last(loc) then net.Ahead(loc)
               else if target == t then Some(net.tracks[t].rails[0].id)
               else net.IdAt(Location(target, net.At(loc).branch.position))
  {
    var n := net.WithLink(t, target);
    assert forall at :: n.IdAt(at) == net.IdAt(at);
  }

  /** Where a stored rail leads after a rail was added to the end of a track. */
  lemma AheadAfterAppend(net: Network, c: Connection, loc: Location)
    requires net.Valid() && c.previous.id in net.lookup && c.current.id !in net.lookup && net.Has(loc)
    ensures var n, t := AfterAppend(net, c).net, net.lookup[c.previous.id].track;
            && n.Has(loc)
            && n.Ahead(loc) ==
               if net.Last(loc) && (loc.track == t || (net.tracks[loc.track].link == Some(t) &&
                                                       net.At(loc).branch.position == |net.tracks[t].rails|))
               then Some(c.current.id) else net.Ahead(loc)
  {
    var t := net.lookup[c.previous.id].track;
    var added := net.WithRail(t, c.current);
    AheadWithRail(net, t, c.current, loc);
    if c.branch.Some? {
      AheadWithTrack(added, c.branch.value, loc);
      AheadWithBranch(added.WithTrack(c.branch.value),
                      Location(t, |net.tracks[t].rails|), Location(|net.tracks|, 0), loc);
    }
  }

  /** Where a stored rail leads after two stored rails were connected. */
  lemma AheadAfterConnect(net: Network, c: Connection, loc: Location)
    requires net.Valid() && c.previous.id in net.lookup && c.current.id in net.lookup && net.Has(loc)
    ensures var n, cur, prev := AfterConnect(net, c).net, net.lookup[c.current.id], net.lookup[c.previous.id];
            && n.Has(loc)
            && n.Ahead(loc) ==
               if loc.track != prev.track || !net.Last(loc) || AfterConnect(net, c).status == InvalidLoop
               then net.Ahead(loc)
               else if cur.track == prev.track then Some(net.tracks[loc.track].rails[0].id)
               else if loc == prev then Some(c.current.id)
               else net.IdAt(Location(cur.track, net.At(loc).branch.position))
  {
    var cur, prev := net.lookup[c.current.id], net.lookup[c.previous.id];
    AheadWithLink(net, prev.track, cur.track, loc);
    if cur.track != prev.track {
      var n := net.WithLink(prev.track, cur.track);
      AheadWithBranch(n, prev, cur, loc);
      assert n.IdAt(cur) == net.IdAt(cur);
    }
  }

  // ----- what an append promises, and when it keeps the promise -----

  /** Whether an append refuses its branch after the new rail has already been stored. */
  predicate BranchRefused(net: Network, c: Connection) {
    && c.previous.rtype != NoType && c.previous.id in net.lookup && c.current.id !in net.lookup
    && c.branch.Some?
    && (!IsJunction(c.current.rtype) || c.branch.value.id in net.lookup || c.branch.value.id == c.current.id)
  }

  /** An append that reports a failure leaves the network as it was, except exactly when a branch is refused. */
  lemma FailureIsAtomicIff(net: Network, c: Connection)
    requires net.Valid() && AfterAppendRail(net, c).status != Success
    ensures AfterAppendRail(net, c).net == net <==> !BranchRefused(net, c)
  {
    if BranchRefused(net, c) {
      assert c.current.id in AfterAppendRail(net, c).net.lookup;
    }
  }

  /**
   A new rail joins the end of its predecessor's track, so the predecessor leads to it exactly when the
   predecessor was the last rail of that track.
   */
  lemma AppendedFollowsIff(net: Network, c: Connection)
    requires net.Valid() && c.previous.rtype != NoType
    requires c.previous.id in net.lookup && c.current.id !in net.lookup
    ensures AfterAppendRail(net, c).net.Valid()
    ensures AfterAppendRail(net, c).net.Next(c.previous.id) == Some(c.current.id) <==> net.IsLast(c.previous.id)
  {
    AppendKeepsValid(net, c);
    RailsAreKept(net, c, c.previous.id);
    AheadAfterAppend(net, c, net.lookup[c.previous.id]);
    assert net.Next(c.previous.id) != Some(c.current.id);
  }

  /** After connecting two stored rails, accepted or not, the second follows the first exactly in these layouts. */
  lemma ConnectedFollowsIff(net: Network, c: Connection)
    requires net.Valid() && c.previous.rtype != NoType
    requires c.previous.id in net.lookup && c.current.id in net.lookup
    ensures AfterAppendRail(net, c).net.Valid()
    ensures AfterAppendRail(net, c).net.Next(c.previous.id) == Some(c.current.id) <==>
            var cur, prev := net.lookup[c.current.id], net.lookup[c.previous.id];
            if cur == Location(prev.track, prev.position + 1) then true
            else net.IsLast(c.previous.id) && (cur.track == prev.track ==> cur.position == 0)
  {
    AppendKeepsValid(net, c);
    RailsAreKept(net, c, c.previous.id);
    var cur, prev := net.lookup[c.current.id], net.lookup[c.previous.id];
    AheadAfterConnect(net, c, prev);
    assert net.At(cur).id == c.current.id;
    if !net.IsLast(c.previous.id) {
      SameIdSamePlace(net, Location(prev.track, prev.position + 1), cur);
    } else if cur.track == prev.track {
      SameIdSamePlace(net, Location(prev.track, 0), cur);
    }
  }

  lemma SameIdSamePlace(net: Network, a: Location, b: Location)
    requires net.Valid() && net.Has(a) && net.Has(b)
    ensures net.At(a).id == net.At(b).id <==> a == b
  {
  }

  /**
   A loop on one track is refused exactly when neither of the two rails is at an end of the track. Any other pair closes
   the whole track: its last rail then leads to its first, whichever two rails were named.
   */
  lemma LoopIsRefusedIff(net: Network, c: Connection, end: RailId)
    requires net.Valid() && c.previous.rtype != NoType
    requires c.previous.id in net.lookup && c.current.id in net.lookup
    requires net.lookup[c.current.id].track == net.lookup[c.previous.id].track
    requires end in net.lookup && net.lookup[end].track == net.lookup[c.previous.id].track && net.IsLast(end)
    ensures AfterAppendRail(net, c).net.Valid()
    ensures if net.lookup[c.current.id].position != 0 && !net.IsLast(c.current.id)
               && net.lookup[c.previous.id].position != 0 && !net.IsLast(c.previous.id)
            then AfterAppendRail(net, c) == Outcome(net, InvalidLoop)
            else && AfterAppendRail(net, c).status == Success
                 && AfterAppendRail(net, c).net.Next(end) == Some(net.tracks[net.lookup[end].track].rails[0].id)
  {
    AppendKeepsValid(net, c);
  }

  /** No append moves a stored rail or changes one, except for the branch that a connection between tracks sets. */
  lemma RailsAreKept(net: Network, c: Connection, id: RailId)
    requires net.Valid() && id in net.lookup
    ensures var n, loc := AfterAppendRail(net, c).net, net.lookup[id];
            && id in n.lookup && n.lookup[id] == loc && n.Has(loc)
            && (n.At(loc) == net.At(loc) ||
                (id == c.previous.id && c.current.id in net.lookup && c.previous.rtype != NoType &&
                 n.At(loc) == net.At(loc).(branch := net.lookup[c.current.id])))
  {
    var loc := net.lookup[id];
    if c.previous.rtype != NoType && c.previous.id in net.lookup {
      if c.current.id in net.lookup {
        ConnectedRailsAreKept(net, c, id);
      } else {
        AppendedRailsAreKept(net, c, loc);
      }
    }
  }

  lemma ConnectedRailsAreKept(net: Network, c: Connection, id: RailId)
    requires net.Valid() && id in net.lookup && c.previous.id in net.lookup && c.current.id in net.lookup
    ensures var n, loc := AfterConnect(net, c).net, net.lookup[id];
            && n.lookup == net.lookup && n.Has(loc)
            && (n.At(loc) == net.At(loc) ||
                (id == c.previous.id && n.At(loc) == net.At(loc).(branch := net.lookup[c.current.id])))
  {
    SameIdSamePlace(net, net.lookup[id], net.lookup[c.previous.id]);
  }

  lemma AppendedRailsAreKept(net: Network, c: Connection, loc: Location)
    requires net.Valid() && c.previous.id in net.lookup && c.current.id !in net.lookup && net.Has(loc)
    ensures var n := AfterAppend(net, c).net; n.Has(loc) && n.At(loc) == net.At(loc)
  {
    var t := net.lookup[c.previous.id].track;
    var added := net.WithRail(t, c.current);
    assert added.At(loc) == net.At(loc);
    if c.branch.Some? {
      assert added.WithTrack(c.branch.value).At(loc) == net.At(loc);
    }
  }

  // ----- where a stored rail leads after an append -----

  /**
   Whether an append changes where a stored rail leads. It takes the last rail of a track: a new rail behind it, a new
   rail just where its track's link pointed at nothing, a loop the track did not have, or a link to another track that
   leads elsewhere than before.
   */
  predicate Reroutes(net: Network, c: Connection, id: RailId)
    requires net.Valid() && id in net.lookup
  {
    net.IsLast(id) && c.previous.rtype != NoType && c.previous.id in net.lookup &&
    var mine, prev := net.lookup[id], net.lookup[c.previous.id];
    var link, branch := net.tracks[mine.track].link, net.At(mine).branch;
    if c.current.id !in net.lookup then
      || mine.track == prev.track
      || (link == Some(prev.track) && branch.position == |net.tracks[prev.track].rails|)
    else if mine.track != prev.track then false
    else
      var cur := net.lookup[c.current.id];
      if cur.track == prev.track then
        (cur.position == 0 || prev.position == 0 || net.IsLast(c.current.id) || net.IsLast(c.previous.id)) &&
        link != Some(mine.track)
      else
        net.Next(id) != net.IdAt(Location(cur.track, if id == c.previous.id then cur.position else branch.position))
  }

  /** An append leaves the successor of a stored rail as it was if and only if it does not reroute it. */
  lemma NextIsKeptIff(net: Network, c: Connection, id: RailId)
    requires net.Valid() && id in net.lookup
    ensures AfterAppendRail(net, c).net.Valid()
    ensures AfterAppendRail(net, c).net.Next(id) == net.Next(id) <==> !Reroutes(net, c, id)
  {
    AppendKeepsValid(net, c);
    RailsAreKept(net, c, id);
    if c.previous.rtype == NoType {
      AheadWithTrack(net, c.current, net.lookup[id]);
    } else if c.previous.id in net.lookup && c.current.id !in net.lookup {
      AheadAfterAppend(net, c, net.lookup[id]);
      assert net.Next(id) != Some(c.current.id);
    } else if c.previous.id in net.lookup {
      ConnectKeepsAheadIff(net, c, id);
    }
  }

  lemma ConnectKeepsAheadIff(net: Network, c: Connection, id: RailId)
    requires net.Valid() && id in net.lookup
    requires c.previous.rtype != NoType && c.previous.id in net.lookup && c.current.id in net.lookup
    ensures AfterConnect(net, c).net.Has(net.lookup[id])
    ensures AfterConnect(net, c).net.Ahead(net.lookup[id]) == net.Ahead(net.lookup[id]) <==> !Reroutes(net, c, id)
  {
    var loc, prev, cur := net.lookup[id], net.lookup[c.previous.id], net.lookup[c.current.id];
    AheadAfterConnect(net, c, loc);
    if net.Last(loc) && loc.track == prev.track {
      LoopIsNewIff(net, loc);
      assert loc == prev <==> id == c.previous.id by { SameIdSamePlace(net, loc, prev); }
      assert net.IdAt(cur) == Some(c.current.id);
    }
  }

  /** The last rail of a track leads to the first one exactly if the track is a loop. */
  lemma LoopIsNewIff(net: Network, loc: Location)
    requires net.Valid() && net.Has(loc) && net.Last(loc)
    ensures net.Ahead(loc) == Some(net.tracks[loc.track].rails[0].id) <==> net.tracks[loc.track].link == Some(loc.track)
  {
    var link := net.tracks[loc.track].link;
    if link.Some? && link.value != loc.track {
      var far := Location(link.value, net.At(loc).branch.position);
      assert net.Has(far) ==> net.lookup[net.At(far).id] == far;
      assert net.lookup[net.At(Location(loc.track, 0)).id] == Location(loc.track, 0);
    }
  }

  // ----- where a train can go from a rail -----

  /** `get_connections`: the next rail and, when that rail is a junction, the rail its branch leads to. */
  function Connections(net: Network, id: RailId): (r: (Option<RailId>, Option<RailId>))
    requires net.Valid()
    ensures r.0.Some? ==> r.0.value in net.lookup
    ensures r.1.Some? ==> r.1.value in net.lookup
  {
    var next := net.Next(id);
    if next.None? then (None, None)
    else
      var rail := net.At(net.lookup[next.value]);
      if IsJunction(rail.rtype) then (next, Some(net.At(rail.branch).id)) else (next, None)
  }

  /**
   A junction appended behind the last rail of a track opens two ways from that rail: to itself, and to its
   branch rail. A junction appended without a branch opens its second way to the first rail ever stored.
   */
  lemma JunctionOpensTwoWays(net: Network, c: Connection)
    requires net.Valid() && c.previous.rtype != NoType && IsJunction(c.current.rtype)
    requires c.previous.id in net.lookup && c.current.id !in net.lookup && net.IsLast(c.previous.id)
    requires AfterAppendRail(net, c).status == Success
    ensures AfterAppendRail(net, c).net.Valid()
    ensures Connections(AfterAppendRail(net, c).net, c.previous.id) ==
            (Some(c.current.id),
             Some(if c.branch.Some? then c.branch.value.id else net.tracks[0].rails[0].id))
  {
    AppendedFollowsIff(net, c);
    assert net.tracks[0].rails != [];
  }

  // ----- which status is reported -----

  /** The status of an append, for every one of them exactly when it is reported. */
  lemma StatusIff(net: Network, c: Connection)
    requires net.Valid()
    ensures var status, stored := AfterAppendRail(net, c).status, net.lookup.Keys;
            var starts, prev, cur := c.previous.rtype == NoType, c.previous.id in stored, c.current.id in stored;
            var junction := c.current.rtype == LeftJunction || c.current.rtype == RightJunction;
            && (status == RailAlreadyExists <==>
                  || (starts && cur)
                  || (!starts && prev && !cur && c.branch.Some? && junction &&
                      c.branch.value.id in stored + {c.current.id}))
            && (status == NoPreviousRail <==> !starts && !prev)
            && (status == InvalidConnection <==> !starts && prev && !cur && c.branch.Some? && !junction)
            && (status == InvalidLoop <==>
                  && !starts && prev && cur
                  && net.lookup[c.previous.id].track == net.lookup[c.current.id].track
                  && net.lookup[c.previous.id].position != 0 && net.lookup[c.current.id].position != 0
                  && !net.IsLast(c.previous.id) && !net.IsLast(c.current.id))
  {
  }

  // ----- rails appended in a row -----

  /** The connections that lay a row of rails on a new track, each behind the one before. */
  function Row(rails: seq<Endpoint>): (cs: seq<Connection>)
    ensures |cs| == |rails|
  {
    seq(|rails|, i requires 0 <= i < |rails| =>
      Connection(rails[i], if i == 0 then Endpoint(0, NoType) else rails[i - 1], None))
  }

  /** Rails that can be laid in a row on a network: new, different, and of any type but none. */
  predicate Layable(net: Network, rails: seq<Endpoint>) {
    && (forall i :: 0 <= i < |rails| ==> rails[i].id !in net.lookup && rails[i].rtype != NoType)
    && (forall i, j :: 0 <= i < j < |rails| ==> rails[i].id != rails[j].id)
  }

  function Ids(rails: seq<Endpoint>): set<RailId> {
    set i | 0 <= i < |rails| :: rails[i].id
  }

  function NewRails(rails: seq<Endpoint>): (stored: seq<Rail>)
    ensures |stored| == |rails| && forall i :: 0 <= i < |rails| ==> stored[i] == NewRail(rails[i])
  {
    seq(|rails|, i requires 0 <= i < |rails| => NewRail(rails[i]))
  }

  /** The new track holds exactly the rails of the row. */
  ghost predicate Laid(net: Network, n: Network, rails: seq<Endpoint>) {
    n.Valid() && Shaped(net, n, rails)
  }

  ghost predicate Shaped(net: Network, n: Network, rails: seq<Endpoint>) {
    && n.lookup.Keys == net.lookup.Keys + Ids(rails)
    && if rails == [] then n == net else n.tracks == net.tracks + [Track(NewRails(rails), None)]
  }

  lemma {:induction false} AppendAllLast(net: Network, cs: seq<Connection>, c: Connection)
    requires net.Valid()
    ensures AppendAll(net, cs).Valid()
    ensures AppendAll(net, cs + [c]) == AfterAppendRail(AppendAll(net, cs), c).net
    decreases |cs|
  {
    if cs == [] {
      AppendKeepsValid(net, c);
      assert cs + [c] == [c] && [c][1..] == [];
      assert AppendAll(net, [c]) == AppendAll(AfterAppendRail(net, c).net, []);
    } else {
      AppendKeepsValid(net, cs[0]);
      assert (cs + [c])[1..] == cs[1..] + [c];
      AppendAllLast(AfterAppendRail(net, cs[0]).net, cs[1..], c);
    }
  }

  lemma LayFirst(net: Network, e: Endpoint)
    ensures Shaped(net, net.WithTrack(e), [e])
  {
    OneMoreId([], e);
    assert [] + [e] == [e];
    assert NewRails([e]) == [NewRail(e)];
  }

  lemma LayNext(net: Network, n: Network, rails: seq<Endpoint>, e: Endpoint)
    requires Shaped(net, n, rails) && rails != []
    ensures Shaped(net, n.WithRail(|net.tracks|, e), rails + [e])
  {
    OneMoreId(rails, e);
    assert NewRails(rails + [e]) == NewRails(rails) + [NewRail(e)];
  }

  lemma AppendedBehind(n: Network, c: Connection)
    requires n.Valid() && c.previous.rtype != NoType && c.previous.id in n.lookup && c.current.id !in n.lookup
    requires c.branch.None?
    ensures AfterAppendRail(n, c) == Outcome(n.WithRail(n.lookup[c.previous.id].track, c.current), Success)
  {
  }

  lemma OneMoreId(rails: seq<Endpoint>, e: Endpoint)
    ensures Ids(rails + [e]) == Ids(rails) + {e.id}
  {
    var more := rails + [e];
    assert more[|rails|] == e && forall i :: 0 <= i < |rails| ==> more[i] == rails[i];
  }

  lemma LayBehind(net: Network, n: Network, rails: seq<Endpoint>, c: Connection)
    requires Laid(net, n, rails) && rails != [] && c.current.id !in n.lookup
    requires c.previous == rails[|rails| - 1] && c.previous.rtype != NoType && c.branch.None?
    ensures AfterAppendRail(n, c).net == n.WithRail(|net.tracks|, c.current)
  {
    RowIsFound(net, n, rails, |rails| - 1);
    AppendedBehind(n, c);
  }

  /** The next rail of a row is not stored yet. */
  lemma NextIsNew(net: Network, n: Network, rails: seq<Endpoint>, k: nat)
    requires Layable(net, rails) && k < |rails| && Laid(net, n, rails[..k])
    ensures rails[k].id !in n.lookup
  {
    var before := rails[..k];
    forall i | 0 <= i < |before| ensures before[i].id != rails[k].id {
      assert before[i] == rails[i];
    }
  }

  lemma RowIsFound(net: Network, n: Network, rails: seq<Endpoint>, i: nat)
    requires Laid(net, n, rails) && i < |rails|
    ensures rails[i].id in n.lookup && n.lookup[rails[i].id] == Location(|net.tracks|, i)
  {
    assert n.At(Location(|net.tracks|, i)).id == rails[i].id;
  }

  /** However long the row, it lies on one new track in the order in which it was appended. */
  lemma {:induction false} RowIsLaid(net: Network, rails: seq<Endpoint>)
    requires net.Valid() && Layable(net, rails)
    ensures Laid(net, AppendAll(net, Row(rails)), rails)
    decreases |rails|
  {
    if rails != [] {
      var k := |rails| - 1;
      var before, c := rails[..k], Row(rails)[k];
      RowSplits(rails, k);
      RowIsLaid(net, before);
      AppendAllLast(net, Row(before), c);
      EveryRunIsValid(net, Row(rails));
      RowGoesOn(net, AppendAll(net, Row(before)), rails, k, c);
    }
  }

  lemma RowSplits(rails: seq<Endpoint>, k: nat)
    requires |rails| == k + 1
    ensures rails == rails[..k] + [rails[k]] && Row(rails) == Row(rails[..k]) + [Row(rails)[k]]
  {
  }

  lemma RowGoesOn(net: Network, n: Network, rails: seq<Endpoint>, k: nat, c: Connection)
    requires net.Valid() && Layable(net, rails) && |rails| == k + 1 && Laid(net, n, rails[..k]) && c == Row(rails)[k]
    ensures Shaped(net, AfterAppendRail(n, c).net, rails)
  {
    NextIsNew(net, n, rails, k);
    RowSplits(rails, k);
    if k == 0 {
      LayFirst(net, rails[0]);
      assert [rails[0]] == rails;
    } else {
      LayBehind(net, n, rails[..k], c);
      LayNext(net, n, rails[..k], rails[k]);
    }
  }

  /** Along the row every rail leads to the one behind it, and the last one nowhere. */
  lemma RowLeadsOn(net: Network, n: Network, rails: seq<Endpoint>, i: nat)
    requires Laid(net, n, rails) && i < |rails|
    ensures n.Next(rails[i].id) == if i + 1 < |rails| then Some(rails[i + 1].id) else None
  {
    RowIsFound(net, n, rails, i);
  }

  // ----- all of that happens, on networks built from nothing -----

  function Create(id: RailId): Connection {
    Connection(Endpoint(id, Straight), Endpoint(0, NoType), None)
  }

  function Behind(id: RailId, previous: RailId): Connection {
    Connection(Endpoint(id, Straight), Endpoint(previous, Straight), None)
  }

  lemma AppendsInTurn(net: Network, c: Connection, rest: seq<Connection>)
    requires net.Valid()
    ensures AfterAppendRail(net, c).net.Valid()
    ensures AppendAll(net, [c] + rest) == AppendAll(AfterAppendRail(net, c).net, rest)
  {
    AppendKeepsValid(net, c);
    assert ([c] + rest)[1..] == rest;
  }

  lemma TwoAppends(a: Connection, b: Connection)
    ensures AfterAppendRail(EMPTY, a).net.Valid() && AppendAll(EMPTY, [a, b]).Valid()
    ensures AppendAll(EMPTY, [a, b]) == AfterAppendRail(AfterAppendRail(EMPTY, a).net, b).net
  {
    assert [a, b] == [a] + [b] && [b] == [b] + [];
    AppendsInTurn(EMPTY, a, [b]);
    AppendsInTurn(AfterAppendRail(EMPTY, a).net, b, []);
  }

  lemma ThreeAppends(a: Connection, b: Connection, c: Connection)
    ensures AppendAll(EMPTY, [a, b]).Valid() && AppendAll(EMPTY, [a, b, c]).Valid()
    ensures AppendAll(EMPTY, [a, b, c]) == AfterAppendRail(AppendAll(EMPTY, [a, b]), c).net
  {
    TwoAppends(a, b);
    assert [a, b, c] == [a] + [b, c] && [b, c] == [b] + [c] && [c] == [c] + [];
    AppendsInTurn(EMPTY, a, [b, c]);
    AppendsInTurn(AfterAppendRail(EMPTY, a).net, b, [c]);
    AppendsInTurn(AppendAll(EMPTY, [a, b]), c, []);
  }

  const PAIR := [Create(1), Behind(2, 1)]

  lemma PairIsStored()
    ensures AppendAll(EMPTY, PAIR).Valid()
    ensures AppendAll(EMPTY, PAIR) ==
            Network([Track([NewRail(Endpoint(1, Straight)), NewRail(Endpoint(2, Straight))], None)],
                    map[1 := Location(0, 0), 2 := Location(0, 1)])
  {
    TwoAppends(Create(1), Behind(2, 1));
    var one := FirstRail();
    var two := one.WithRail(0, Endpoint(2, Straight));
    assert two.tracks[0].rails == [NewRail(Endpoint(1, Straight)), NewRail(Endpoint(2, Straight))];
    assert two == AfterAppendRail(one, Behind(2, 1)).net;
  }

  lemma FirstRail() returns (one: Network)
    ensures one.Valid() && one == AfterAppendRail(EMPTY, Create(1)).net
    ensures one == Network([Track([NewRail(Endpoint(1, Straight))], None)], map[1 := Location(0, 0)])
  {
    AppendKeepsValid(EMPTY, Create(1));
    one := AfterAppendRail(EMPTY, Create(1)).net;
  }

  /** On two rails in a row: a third one put behind the first is accepted, and the first still leads to the second. */
  lemma AppendedElsewhere()
    ensures AppendAll(EMPTY, PAIR).Valid() && AfterAppendRail(AppendAll(EMPTY, PAIR), Behind(3, 1)).net.Valid()
    ensures AfterAppendRail(AppendAll(EMPTY, PAIR), Behind(3, 1)).status == Success
    ensures AfterAppendRail(AppendAll(EMPTY, PAIR), Behind(3, 1)).net.Next(1) == Some(2)
  {
    PairIsStored();
    var net := AppendAll(EMPTY, PAIR);
    AppendKeepsValid(net, Behind(3, 1));
    AheadAfterAppend(net, Behind(3, 1), Location(0, 0));
    RailsAreKept(net, Behind(3, 1), 1);
  }

  /** On the same two rails: a straight rail with a branch is refused, and stored. */
  lemma RefusedYetStored()
    ensures AppendAll(EMPTY, PAIR).Valid()
    ensures var refused := Behind(3, 2).(branch := Some(Endpoint(4, Straight)));
            var outcome := AfterAppendRail(AppendAll(EMPTY, PAIR), refused);
            && 3 !in AppendAll(EMPTY, PAIR).lookup && outcome.status == InvalidConnection
            && 3 in outcome.net.lookup && 4 !in outcome.net.lookup
  {
    PairIsStored();
  }

  /** On the same two rails and a third on its own: connecting the first to the third is accepted, and does not. */
  lemma ConnectedElsewhere()
    ensures var net := AppendAll(EMPTY, PAIR + [Create(3)]);
            && net.Valid() && AfterAppendRail(net, Behind(3, 1)).net.Valid()
            && AfterAppendRail(net, Behind(3, 1)).status == Success
            && AfterAppendRail(net, Behind(3, 1)).net.Next(1) == Some(2)
  {
    PairIsStored();
    assert PAIR + [Create(3)] == [Create(1), Behind(2, 1), Create(3)];
    ThreeAppends(Create(1), Behind(2, 1), Create(3));
    var pair := AppendAll(EMPTY, PAIR);
    AheadWithTrack(pair, Endpoint(3, Straight), Location(0, 0));
    ConnectsAnother(pair.WithTrack(Endpoint(3, Straight)));
  }

  lemma ConnectsAnother(net: Network)
    requires net.Valid() && net.lookup == map[1 := Location(0, 0), 2 := Location(0, 1), 3 := Location(1, 0)]
    requires net.Has(Location(0, 0)) && net.Ahead(Location(0, 0)) == Some(2)
    ensures AfterAppendRail(net, Behind(3, 1)).net.Valid()
    ensures AfterAppendRail(net, Behind(3, 1)).status == Success
    ensures AfterAppendRail(net, Behind(3, 1)).net.Next(1) == Some(2)
  {
    assert net.Has(net.lookup[2]);
    assert !net.IsLast(1);
    NextIsKeptIff(net, Behind(3, 1), 1);
  }

  const JOINED := Network([Track([Rail(1, Straight, Location(1, 0))], Some(1)),
                           Track([Rail(2, Straight, Location(0, 0))], None)],
                          map[1 := Location(0, 0), 2 := Location(1, 0)])

  lemma JoinedIsStored()
    ensures AppendAll(EMPTY, [Create(1), Create(2), Behind(2, 1)]) == JOINED && JOINED.Valid()
  {
    TwoAppends(Create(1), Create(2));
    ThreeAppends(Create(1), Create(2), Behind(2, 1));
    var one := FirstRail();
    var apart := AfterAppendRail(one, Create(2)).net;
    assert apart == Network([Track([NewRail(Endpoint(1, Straight))], None),
                             Track([NewRail(Endpoint(2, Straight))], None)],
                            map[1 := Location(0, 0), 2 := Location(1, 0)]);
    JoinTracks(apart);
  }

  lemma JoinTracks(apart: Network)
    requires apart.Valid() && apart.lookup == JOINED.lookup
    requires apart.tracks == [Track([NewRail(Endpoint(1, Straight))], None),
                              Track([NewRail(Endpoint(2, Straight))], None)]
    ensures AfterConnect(apart, Behind(2, 1)).net == JOINED
  {
    var joined := AfterConnect(apart, Behind(2, 1)).net;
    assert joined.tracks[0].rails == [Rail(1, Straight, Location(1, 0))];
    assert joined.tracks == JOINED.tracks;
  }

  /** Two tracks joined, and then a rail put behind the first one: the connection that held is lost to the new rail. */
  lemma ConnectionIsLost()
    ensures JOINED.Valid() && AppendAll(EMPTY, [Create(1), Create(2), Behind(2, 1)]) == JOINED
    ensures AfterAppendRail(JOINED, Behind(4, 1)).net.Valid()
    ensures JOINED.Next(1) == Some(2) && AfterAppendRail(JOINED, Behind(4, 1)).net.Next(1) == Some(4)
  {
    JoinedIsStored();
    AppendedFollowsIff(JOINED, Behind(4, 1));
  }

  /** A junction without a branch, behind the first rail stored: from that rail there is a way to that rail itself. */
  lemma JunctionLeadsBack()
    ensures var net := AppendAll(EMPTY, [Create(1), Behind(2, 1).(current := Endpoint(2, LeftJunction))]);
            net.Valid() && Connections(net, 1) == (Some(2), Some(1))
  {
    var junction := Behind(2, 1).(current := Endpoint(2, LeftJunction));
    TwoAppends(Create(1), junction);
    JunctionOpensTwoWays(AfterAppendRail(EMPTY, Create(1)).net, junction);
  }

  // ----- the object -----

  class Storage {
    var tracks: seq<Track>
    var lookup: map<RailId, Location>

    function Net(): Network
      reads this
    {
      Network(tracks, lookup)
    }

    constructor ()
      ensures Net() == EMPTY && Net().Valid()
    {
      tracks, lookup := [], map[];
    }

    method CreateTrack(e: Endpoint) returns (status: Status)
      requires Net().Valid()
      modifies this
      ensures Net().Valid()
      ensures Outcome(Net(), status) == AfterCreate(old(Net()), e)
    {
      if e.id in lookup {
        return RailAlreadyExists;
      }
      WithTrackValid(Net(), e);
      tracks := tracks + [Track([NewRail(e)], None)];
      lookup := lookup[e.id := Location(|tracks| - 1, 0)];
      status := Success;
    }

    /** Adds a rail to the end of a track and indexes it. */
    method AddRail(t: nat, e: Endpoint) returns (at: Location)
      requires Net().Valid() && t < |tracks| && e.id !in lookup
      modifies this
      ensures Net().Valid() && Net() == old(Net()).WithRail(t, e)
      ensures at == Location(t, |old(tracks)[t].rails|) && Net().Has(at)
    {
      WithRailValid(Net(), t, e);
      tracks := tracks[t := tracks[t].(rails := tracks[t].rails + [NewRail(e)])];
      at := Location(t, |tracks[t].rails| - 1);
      lookup := lookup[e.id := at];
    }

    method CreateBranch(at: Location, current: Endpoint, branch: Endpoint) returns (status: Status)
      requires Net().Valid() && Net().Has(at)
      modifies this
      ensures Net().Valid()
      ensures !IsJunction(current.rtype) ==> status == InvalidConnection && Net() == old(Net())
      ensures IsJunction(current.rtype) && branch.id in old(lookup) ==>
                status == RailAlreadyExists && Net() == old(Net())
      ensures IsJunction(current.rtype) && branch.id !in old(lookup) ==>
                && status == Success
                && old(Net()).WithTrack(branch).Has(at)
                && Net() == old(Net()).WithTrack(branch).WithBranch(at, Location(|old(tracks)|, 0))
    {
      if !IsJunction(current.rtype) {
        return InvalidConnection;
      }
      status := CreateTrack(branch);
      if status == Success {
        ghost var grown := Net();
        var first := Location(|tracks| - 1, 0);
        WithBranchValid(grown, at, first);
        AddBranch(at, first);
        assert Net() == grown.WithBranch(at, first);
      }
    }

    method AppendToTrack(c: Connection) returns (status: Status)
      requires Net().Valid() && c.previous.id in lookup
      modifies this
      ensures Net().Valid()
      ensures Outcome(Net(), status) == AfterAppend(old(Net()), c)
    {
      if c.current.id in lookup {
        return RailAlreadyExists;
      }
      var at := AddRail(lookup[c.previous.id].track, c.current);
      if c.branch.Some? {
        status := CreateBranch(at, c.current, c.branch.value);
      } else {
        status := Success;
      }
    }

    method AddBranch(at: Location, branch: Location)
      requires Net().Has(at)
      modifies this`tracks
      ensures Net() == old(Net()).WithBranch(at, branch)
    {
      var track := tracks[at.track];
      var rails := track.rails[at.position := track.rails[at.position].(branch := branch)];
      tracks := tracks[at.track := track.(rails := rails)];
    }

    method ConnectTracks(c: Connection) returns (status: Status)
      requires Net().Valid() && c.previous.id in lookup && c.current.id in lookup
      modifies this`tracks
      ensures Net().Valid()
      ensures Outcome(Net(), status) == AfterConnect(old(Net()), c)
    {
      var cur, prev := lookup[c.current.id], lookup[c.previous.id];
      WithLinkValid(Net(), prev.track, cur.track);
      if cur.track == prev.track {
        var first, last := cur.position, prev.position;
        if last < first {
          first, last := last, first;
        }
        if first != 0 && last != |tracks[cur.track].rails| - 1 {
          return InvalidLoop;
        }
        tracks := tracks[cur.track := tracks[cur.track].(link := Some(cur.track))];
        return Success;
      }
      tracks := tracks[prev.track := tracks[prev.track].(link := Some(cur.track))];
      WithBranchValid(Net(), prev, cur);
      AddBranch(prev, cur);
      status := Success;
    }

    /** `rail_network_t::append_rail`: total, and it keeps the invariant whatever it is given. */
    method AppendRail(c: Connection) returns (status: Status)
      requires Net().Valid()
      modifies this
      ensures Net().Valid()
      ensures Outcome(Net(), status) == AfterAppendRail(old(Net()), c)
    {
      if c.previous.rtype == NoType {
        status := CreateTrack(c.current);
      } else if c.previous.id !in lookup {
        status := NoPreviousRail;
      } else if c.current.id in lookup {
        status := ConnectTracks(c);
      } else {
        status := AppendToTrack(c);
      }
    }
  }
}
