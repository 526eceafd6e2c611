/**
 The packet registry (common/src/common/core/packet_registry.hpp): every message type listed in the registry gets
 its position as packet id, a packet is that id followed by the payload, and a table of callbacks handles what arrives.
 */
module PacketRegistry {
  import opened Wrappers
  import opened Bytes
  import opened Serialise

  /** A message type: the name stands for the identity of the C++ type. */
  datatype PacketType = PacketType(name: string, schema: Schema)

  /** The types a registry is instantiated with. */
  type Types = seq<PacketType>

  /** A message of some type. */
  datatype Packet = Packet(ptype: PacketType, message: Message)

  const ID_SIZE: nat := 2

  /** Ids are 16 bits wide, so that many types can be told apart. */
  predicate Numbered(types: Types) {
    |types| <= 0x10000
  }

  predicate Sendable(types: Types, p: Packet) {
    p.ptype in types && Fits(p.ptype.schema, p.message)
  }

  /** `type_index_impl`: the first position of a type. */
  function TypeIndex(types: Types, t: PacketType): (r: nat)
    requires t in types
    ensures r < |types| && types[r] == t && forall j :: 0 <= j < r ==> types[j] != t
  {
    if types[0] == t then 0 else 1 + TypeIndex(types[1..], t)
  }

  function Id(types: Types, t: PacketType): (r: nat)
    requires t in types
    ensures r < 0x10000
  {
    TypeIndex(types, t) % 0x10000
  }

  function LargestPayload(types: Types): (r: nat)
    ensures forall i :: 0 <= i < |types| ==> MessageSize(types[i].schema) <= r
    ensures r == 0 || exists i :: 0 <= i < |types| && r == MessageSize(types[i].schema)
  {
    if types == [] then 0
    else
      var first, rest := MessageSize(types[0].schema), LargestPayload(types[1..]);
      if first >= rest then first
      else
        assert forall i :: 0 <= i < |types[1..]| ==> types[1..][i] == types[i + 1];
        rest
  }

  /** `max_payload`: the size of every packet buffer. */
  function MaxPayload(types: Types): (r: nat)
    ensures forall i :: 0 <= i < |types| ==> PacketSize(types[i]) <= r
  {
    LargestPayload(types) + ID_SIZE
  }

  function PacketSize(t: PacketType): nat {
    ID_SIZE + MessageSize(t.schema)
  }

  /** The id is copied as it lies in memory, so it travels in the sender's own byte order. */
  function IdBytes(order: Endian, id: nat): (bs: seq<byte>)
    ensures |bs| == ID_SIZE
  {
    NativeBytes(order, ID_SIZE, id)
  }

  /** The bytes a packet puts on the wire. */
  function Frame(order: Endian, types: Types, p: Packet): (bs: seq<byte>)
    requires Sendable(types, p)
    ensures |bs| == PacketSize(p.ptype)
  {
    IdBytes(order, Id(types, p.ptype)) + EncodeMessage(order, p.ptype.schema, p.message)
  }

  /** A peer reads back the id sent exactly when both have one byte order or the id reads the same both ways. */
  lemma IdSurvivesIff(sender: Endian, receiver: Endian, id: nat)
    requires id < 0x10000
    ensures FromNativeBytes(receiver, IdBytes(sender, id)) == id <==> sender == receiver || id % 256 == id / 256
  {
    var bs := ToLE(2, id);
    assert ToLE(1, id / 256) == [id / 256] + ToLE(0, id / 256 / 256);
    TwoBytes(bs);
    TwoBytes(Reversed(bs));
    ReversedTwice(bs);
  }

  /** The second type of a registry is taken for the 257th by a peer of the other byte order. */
  lemma IdIsMisread()
    ensures FromNativeBytes(Big, IdBytes(Little, 1)) == FromNativeBytes(Little, IdBytes(Big, 1)) == 256
  {
    var bs := ToLE(2, 1);
    assert bs == [1] + ToLE(1, 0) && ToLE(1, 0) == [0] + ToLE(0, 0);
    TwoBytes(Reversed(bs));
  }

  lemma TwoBytes(bs: seq<byte>)
    requires |bs| == 2
    ensures FromLE(bs) == (bs[0] as int) + 256 * (bs[1] as int)
  {
    assert FromLE(bs[1..]) == bs[1..][0] + 256 * FromLE(bs[1..][1..]);
  }

  // ----- the callback table -----

  /** A callback slot; `size` stays zero until a handler is registered. */
  datatype Callback = Callback(handler: Option<PacketType>, size: nat)

  type Table = seq<Callback>

  /** A table built by registering some of the types. */
  predicate TableOf(types: Types, table: Table) {
    && |table| == |types|
    && forall i :: 0 <= i < |table| ==>
         match table[i].handler
         case None => table[i].size == 0
         case Some(t) => t == types[i] && table[i].size == MessageSize(t.schema)
  }

  predicate Registered(types: Types, table: Table, t: PacketType)
    requires TableOf(types, table) && t in types
  {
    table[TypeIndex(types, t)].handler.Some?
  }

  function Expected(table: Table, id: nat): Option<nat> {
    if id >= |table| then None else Some(table[id].size)
  }

  /** What `dispatch` hands to a callback: nothing, or the message the handler's type reads from the payload. */
  function Dispatched(order: Endian, types: Types, table: Table, id: nat, payload: seq<byte>, bytes: nat)
    : (r: Option<Packet>)
    requires TableOf(types, table) && |payload| == MaxPayload(types)
    ensures r.Some? <==> id < |table| && table[id].handler.Some? && bytes == ID_SIZE + table[id].size
  {
    if id >= |table| then None
    else if table[id].handler.None? then None
    else if bytes < ID_SIZE then None
    else if bytes - ID_SIZE != table[id].size then None
    else
      var t := table[id].handler.value;
      Some(Packet(t, DecodeMessage(order, t.schema, payload[ID_SIZE..ID_SIZE + table[id].size])))
  }

  class Registry {
    const order: Endian
    const types: Types
    var table: Table
    /** What the callbacks have been given so far, oldest first. */
    var invoked: seq<Packet>

    ghost predicate Valid()
      reads this
    {
      Numbered(types) && TableOf(types, table)
    }

    constructor (order: Endian, types: Types)
      requires Numbered(types)
      ensures Valid() && this.order == order && this.types == types && invoked == []
      ensures forall t :: t in types ==> !Registered(types, table, t)
    {
      this.order, this.types := order, types;
      table := seq(|types|, _ => Callback(None, 0));
      invoked := [];
    }

    method RegisterCallback(t: PacketType)
      requires Valid() && t in types
      modifies this`table
      ensures Valid() && Registered(types, table, t)
      ensures forall u :: u in types && u != t ==>
                (Registered(types, table, u) <==> Registered(types, old(table), u))
    {
      var i := TypeIndex(types, t);
      table := table[i := Callback(Some(t), MessageSize(t.schema))];
    }

    /** A packet buffer: the frame, then zeroes up to the common buffer size. The payload always fits. */
    method Create(p: Packet) returns (payload: array<byte>)
      requires Valid() && Sendable(types, p)
      ensures fresh(payload) && payload.Length == MaxPayload(types)
      ensures payload[..PacketSize(p.ptype)] == Frame(order, types, p)
      ensures forall b :: b in payload[PacketSize(p.ptype)..] ==> b == 0
    {
      payload := new byte[MaxPayload(types)](_ => 0);
      var id := Id(types, p.ptype);
      assert PacketSize(types[TypeIndex(types, p.ptype)]) <= payload.Length;
      ghost var zeroes := payload[..];
      assert forall b :: b in zeroes ==> b == 0;
      CopyInto(payload, 0, NativeBytes(order, ID_SIZE, id));
      var end := WriteMessage(order, payload, ID_SIZE, p.ptype.schema, p.message);
      OverlaidTwice(zeroes, 0, IdBytes(order, id), EncodeMessage(order, p.ptype.schema, p.message));
      assert payload[..] == Overlay(zeroes, 0, Frame(order, types, p));
      ZeroesBehind(zeroes, Frame(order, types, p));
    }

    method Dispatch(id: nat, payload: seq<byte>, bytes: nat) returns (called: bool)
      requires Valid() && |payload| == MaxPayload(types)
      modifies this`invoked
      ensures var r := Dispatched(order, types, table, id, payload, bytes);
              called == r.Some? && invoked == old(invoked) + (if r.Some? then [r.value] else [])
    {
      if id >= |table| || table[id].handler.None? || bytes < ID_SIZE || bytes - ID_SIZE != table[id].size {
        return false;
      }
      var t := table[id].handler.value;
      var m, _ := ReadMessage(order, payload[ID_SIZE..ID_SIZE + table[id].size], t.schema);
      invoked := invoked + [Packet(t, m)];
      called := true;
    }
  }
}
