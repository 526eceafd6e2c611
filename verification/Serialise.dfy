/**
 The message serialiser (common/src/common/core/serialise.hpp). A primitive is modelled by the bits of its
 object representation, so integers, enumerations and floating-point numbers are all treated alike; what differs
 between them is which ones `swap_bytes` turns around on a big-endian machine.
 */
module Serialise {
  import opened Bytes

  datatype Endian = Little | Big

  /** `Other` is what is neither an integer nor a floating-point number: enumerations and small structs. */
  datatype Kind = Integral | Floating | Other

  datatype PrimType = Prim(kind: Kind, size: nat)

  /** A scalar is a field of one element, a `std::array<T, N>` a field of `N`. */
  datatype Field = Field(prim: PrimType, count: nat)

  type Schema = seq<Field>

  /** C++ has no empty types, and leaves the size of an empty array open. */
  predicate Sized(schema: Schema) {
    forall i :: 0 <= i < |schema| ==> schema[i].prim.size > 0 && schema[i].count > 0
  }

  /** One sequence of element bits for each field. */
  type Message = seq<seq<nat>>

  predicate AllFit(p: PrimType, vs: seq<nat>) {
    forall i :: 0 <= i < |vs| ==> vs[i] < Pow256(p.size)
  }

  predicate FitsField(f: Field, vs: seq<nat>) {
    |vs| == f.count && AllFit(f.prim, vs)
  }

  predicate Fits(schema: Schema, m: Message) {
    |m| == |schema| && forall i :: 0 <= i < |m| ==> FitsField(schema[i], m[i])
  }

  // ----- one primitive -----

  /** The bytes `memcpy` sees in a machine of the given byte order. */
  function NativeBytes(e: Endian, size: nat, v: nat): (bs: seq<byte>)
    ensures |bs| == size
  {
    if e == Little then ToLE(size, v) else Reversed(ToLE(size, v))
  }

  function FromNativeBytes(e: Endian, bs: seq<byte>): (v: nat)
    ensures v < Pow256(|bs|)
  {
    if e == Little then FromLE(bs) else FromLE(Reversed(bs))
  }

  function ByteSwap(size: nat, v: nat): (r: nat)
    ensures r < Pow256(size)
  {
    FromLE(Reversed(ToLE(size, v)))
  }

  function SwapBytes(e: Endian, p: PrimType, v: nat): (r: nat)
    requires v < Pow256(p.size)
    ensures r < Pow256(p.size)
  {
    if e == Little || p.size == 1 then v
    else if p.kind == Other then v
    else ByteSwap(p.size, v)
  }

  function Encode(e: Endian, p: PrimType, v: nat): (bs: seq<byte>)
    requires v < Pow256(p.size)
    ensures |bs| == p.size
  {
    NativeBytes(e, p.size, SwapBytes(e, p, v))
  }

  function Decode(e: Endian, p: PrimType, bs: seq<byte>): (v: nat)
    requires |bs| == p.size
    ensures v < Pow256(p.size)
  {
    SwapBytes(e, p, FromNativeBytes(e, bs))
  }

  /** The types whose wire form does not depend on the machine. */
  predicate Portable(p: PrimType) {
    p.size == 1 || p.kind != Other
  }

  lemma SwappedBytes(size: nat, v: nat)
    ensures NativeBytes(Big, size, ByteSwap(size, v)) == ToLE(size, v)
  {
    var swapped := Reversed(ToLE(size, v));
    ToFromLE(swapped);
    ReversedTwice(ToLE(size, v));
  }

  lemma PortableIsLittleEndian(e: Endian, p: PrimType, v: nat)
    requires v < Pow256(p.size) && Portable(p)
    ensures Encode(e, p, v) == ToLE(p.size, v)
  {
    if e == Big && p.size != 1 {
      SwappedBytes(p.size, v);
    }
  }

  /** A type has one wire form on both kinds of machine, for all its values, exactly when it is portable. */
  lemma WireFormIsOrderFreeIff(p: PrimType)
    requires p.size > 0
    ensures (forall v: nat | v < Pow256(p.size) :: Encode(Big, p, v) == Encode(Little, p, v)) <==> Portable(p)
  {
    if Portable(p) {
      forall v: nat | v < Pow256(p.size) ensures Encode(Big, p, v) == Encode(Little, p, v) {
        PortableIsLittleEndian(Big, p, v);
      }
    } else {
      OneDiffers(p);
    }
  }

  lemma OneDiffers(p: PrimType)
    requires p.size > 0 && !Portable(p)
    ensures 1 < Pow256(p.size) && Encode(Big, p, 1)[0] != Encode(Little, p, 1)[0]
  {
    assert Pow256(p.size) == 256 * Pow256(p.size - 1);
    assert ToLE(p.size, 1)[1..] == ToLE(p.size - 1, 0);
    ZeroBytes(p.size - 1);
    assert Encode(Big, p, 1)[0] == ToLE(p.size, 1)[p.size - 1] == ToLE(p.size - 1, 0)[p.size - 2];
  }

  lemma {:induction false} ZeroBytes(size: nat)
    ensures forall i :: 0 <= i < size ==> ToLE(size, 0)[i] == 0
  {
    if size > 0 {
      ZeroBytes(size - 1);
    }
  }

  /** Reading undoes writing between two machines of one byte order, or of any two for a portable type. */
  lemma PrimRoundTrip(writer: Endian, reader: Endian, p: PrimType, v: nat)
    requires v < Pow256(p.size) && (writer == reader || Portable(p))
    ensures Decode(reader, p, Encode(writer, p, v)) == v
  {
    if Portable(p) {
      PortableIsLittleEndian(writer, p, v);
      PortableIsLittleEndian(reader, p, v);
    }
    UnswapBytes(reader, p, v);
  }

  lemma UnswapBytes(e: Endian, p: PrimType, v: nat)
    requires v < Pow256(p.size)
    ensures Decode(e, p, Encode(e, p, v)) == v
  {
    var s := SwapBytes(e, p, v);
    ReversedTwice(ToLE(p.size, s));
    FromToLE(p.size, s);
    if s != v || SwapBytes(e, p, s) != s {
      ToFromLE(Reversed(ToLE(p.size, v)));
      ReversedTwice(ToLE(p.size, v));
      FromToLE(p.size, v);
    }
  }

  // ----- arrays and whole messages -----

  /** The size of `n` elements, which is the size C++ gives an array of them. */
  function ArraySize(n: nat, size: nat): nat {
    if n == 0 then 0 else size + ArraySize(n - 1, size)
  }

  function EncodeElements(e: Endian, p: PrimType, vs: seq<nat>): (bs: seq<byte>)
    requires AllFit(p, vs)
    ensures |bs| == ArraySize(|vs|, p.size)
  {
    if vs == [] then [] else
      Encode(e, p, vs[0]) + EncodeElements(e, p, vs[1..])
  }

  function DecodeElements(e: Endian, p: PrimType, n: nat, bs: seq<byte>): (vs: seq<nat>)
    requires |bs| >= ArraySize(n, p.size)
    ensures |vs| == n && AllFit(p, vs)
  {
    if n == 0 then [] else
      [Decode(e, p, bs[..p.size])] + DecodeElements(e, p, n - 1, bs[p.size..])
  }

  function FieldSize(f: Field): nat {
    ArraySize(f.count, f.prim.size)
  }

  function MessageSize(schema: Schema): nat {
    if schema == [] then 0 else FieldSize(schema[0]) + MessageSize(schema[1..])
  }

  function EncodeMessage(e: Endian, schema: Schema, m: Message): (bs: seq<byte>)
    requires Fits(schema, m)
    ensures |bs| == MessageSize(schema)
  {
    if schema == [] then []
    else
      assert FitsField(schema[0], m[0]);
      EncodeElements(e, schema[0].prim, m[0]) + EncodeMessage(e, schema[1..], m[1..])
  }

  function DecodeMessage(e: Endian, schema: Schema, bs: seq<byte>): (m: Message)
    requires |bs| >= MessageSize(schema)
    ensures Fits(schema, m)
  {
    if schema == [] then []
    else
      var f := schema[0];
      [DecodeElements(e, f.prim, f.count, bs)] + DecodeMessage(e, schema[1..], bs[FieldSize(f)..])
  }

  predicate PortableSchema(schema: Schema) {
    forall i :: 0 <= i < |schema| ==> Portable(schema[i].prim)
  }

  lemma {:induction false} ElementsRoundTrip(writer: Endian, reader: Endian, p: PrimType, vs: seq<nat>,
                                             rest: seq<byte>)
    requires AllFit(p, vs)
    requires writer == reader || Portable(p)
    ensures DecodeElements(reader, p, |vs|, EncodeElements(writer, p, vs) + rest) == vs
  {
    if vs != [] {
      var head, tail := Encode(writer, p, vs[0]), EncodeElements(writer, p, vs[1..]);
      PrimRoundTrip(writer, reader, p, vs[0]);
      ElementsRoundTrip(writer, reader, p, vs[1..], rest);
      DecodeFirst(reader, p, |vs| - 1, head, tail + rest);
      Regroup(head, tail, rest);
    }
  }

  lemma DecodeFirst(e: Endian, p: PrimType, n: nat, head: seq<byte>, tail: seq<byte>)
    requires |head| == p.size && |tail| >= ArraySize(n, p.size)
    ensures DecodeElements(e, p, n + 1, head + tail) == [Decode(e, p, head)] + DecodeElements(e, p, n, tail)
  {
    Split(head, tail);
  }

  /**
   Every message comes back from its payload, whatever follows the payload, for every schema and between any two
   machines that agree on it.
   */
  lemma {:induction false} MessageRoundTrip(writer: Endian, reader: Endian, schema: Schema, m: Message,
                                            rest: seq<byte>)
    requires Fits(schema, m) && (writer == reader || PortableSchema(schema))
    ensures DecodeMessage(reader, schema, EncodeMessage(writer, schema, m) + rest) == m
    decreases |schema|
  {
    if schema != [] {
      var f := schema[0];
      assert FitsField(f, m[0]);
      var head, tail := EncodeElements(writer, f.prim, m[0]), EncodeMessage(writer, schema[1..], m[1..]);
      ElementsRoundTrip(writer, reader, f.prim, m[0], tail + rest);
      MessageRoundTrip(writer, reader, schema[1..], m[1..], rest);
      DecodeFirstField(reader, schema, head, tail + rest);
      Regroup(head, tail, rest);
    }
  }

  lemma DecodeFirstField(e: Endian, schema: Schema, head: seq<byte>, tail: seq<byte>)
    requires schema != [] && |head| == FieldSize(schema[0]) && |tail| >= MessageSize(schema[1..])
    ensures DecodeMessage(e, schema, head + tail) ==
            [DecodeElements(e, schema[0].prim, schema[0].count, head + tail)] + DecodeMessage(e, schema[1..], tail)
  {
    Split(head, tail);
  }

  /** The message whose every element is one. */
  function Ones(schema: Schema): (m: Message)
    requires Sized(schema)
    ensures Fits(schema, m)
  {
    seq(|schema|, i requires 0 <= i < |schema| =>
      assert Pow256(schema[i].prim.size) == 256 * Pow256(schema[i].prim.size - 1);
      seq(schema[i].count, _ => 1))
  }

  lemma {:induction false} ElementsAreOrderFree(p: PrimType, vs: seq<nat>)
    requires Portable(p) && AllFit(p, vs)
    ensures EncodeElements(Big, p, vs) == EncodeElements(Little, p, vs)
  {
    if vs != [] {
      PortableIsLittleEndian(Big, p, vs[0]);
      ElementsAreOrderFree(p, vs[1..]);
    }
  }

  lemma {:induction false} PayloadIsOrderFree(schema: Schema, m: Message)
    requires Fits(schema, m) && PortableSchema(schema)
    ensures EncodeMessage(Big, schema, m) == EncodeMessage(Little, schema, m)
    decreases |schema|
  {
    if schema != [] {
      assert FitsField(schema[0], m[0]);
      ElementsAreOrderFree(schema[0].prim, m[0]);
      PayloadIsOrderFree(schema[1..], m[1..]);
    }
  }

  lemma {:induction false} OnesTellOrdersApart(schema: Schema)
    requires Sized(schema)
    requires EncodeMessage(Big, schema, Ones(schema)) == EncodeMessage(Little, schema, Ones(schema))
    ensures PortableSchema(schema)
    decreases |schema|
  {
    if schema != [] {
      var f, m := schema[0], Ones(schema);
      var big, little := EncodeMessage(Big, schema, m), EncodeMessage(Little, schema, m);
      assert FitsField(f, m[0]);
      assert m[1..] == Ones(schema[1..]);
      assert big[FieldSize(f)..] == EncodeMessage(Big, schema[1..], m[1..]);
      assert little[FieldSize(f)..] == EncodeMessage(Little, schema[1..], m[1..]);
      OnesTellOrdersApart(schema[1..]);
      assert big[0] == Encode(Big, f.prim, m[0][0])[0];
      assert little[0] == Encode(Little, f.prim, m[0][0])[0];
      if !Portable(f.prim) {
        OneDiffers(f.prim);
      }
    }
  }

  /** A message type has one payload on every machine, for all its messages, exactly when its schema is portable. */
  lemma PayloadIsOrderFreeIff(schema: Schema)
    requires Sized(schema)
    ensures (forall m | Fits(schema, m) :: EncodeMessage(Big, schema, m) == EncodeMessage(Little, schema, m))
            <==> PortableSchema(schema)
  {
    if PortableSchema(schema) {
      forall m | Fits(schema, m) ensures EncodeMessage(Big, schema, m) == EncodeMessage(Little, schema, m) {
        PayloadIsOrderFree(schema, m);
      }
    } else if EncodeMessage(Big, schema, Ones(schema)) == EncodeMessage(Little, schema, Ones(schema)) {
      OnesTellOrdersApart(schema);
    }
  }

  // ----- the code: a span is a buffer and a cursor that each call moves on -----

  /** `memcpy` into a buffer. */
  method CopyInto(buf: array<byte>, at: nat, bytes: seq<byte>)
    requires at + |bytes| <= buf.Length
    modifies buf
    ensures buf[..] == Overlay(old(buf[..]), at, bytes)
  {
    forall i | 0 <= i < |bytes| {
      buf[at + i] := bytes[i];
    }
  }

  /** `write` of a primitive. The size assertion of the source is the second precondition. */
  method Write(e: Endian, buf: array<byte>, at: nat, p: PrimType, v: nat) returns (next: nat)
    requires v < Pow256(p.size)
    requires at + p.size <= buf.Length
    modifies buf
    ensures next == at + p.size
    ensures buf[..] == Overlay(old(buf[..]), at, Encode(e, p, v))
  {
    CopyInto(buf, at, NativeBytes(e, p.size, SwapBytes(e, p, v)));
    next := at + p.size;
  }

  lemma {:induction false} EncodeLast(e: Endian, p: PrimType, vs: seq<nat>, v: nat)
    requires AllFit(p, vs) && v < Pow256(p.size)
    ensures EncodeElements(e, p, vs + [v]) == EncodeElements(e, p, vs) + Encode(e, p, v)
    ensures ArraySize(|vs| + 1, p.size) == ArraySize(|vs|, p.size) + p.size
  {
    if vs == [] {
      assert [v][1..] == [];
      assert EncodeElements(e, p, [v]) == Encode(e, p, v) + EncodeElements(e, p, []);
    } else {
      assert (vs + [v])[1..] == vs[1..] + [v];
      EncodeLast(e, p, vs[1..], v);
      Regroup(Encode(e, p, vs[0]), EncodeElements(e, p, vs[1..]), Encode(e, p, v));
    }
  }

  lemma {:induction false} ShorterIsSmaller(i: nat, n: nat, size: nat)
    requires i <= n
    ensures ArraySize(i, size) <= ArraySize(n, size)
  {
    if i > 0 {
      ShorterIsSmaller(i - 1, n - 1, size);
    }
  }

  /** One turn of the loop below: one more value behind those written from `at` on. */
  method WriteNext(e: Endian, buf: array<byte>, here: nat, p: PrimType, v: nat,
                   ghost base: seq<byte>, ghost at: nat, ghost vs: seq<nat>)
    returns (next: nat)
    requires AllFit(p, vs) && v < Pow256(p.size) && here == at + ArraySize(|vs|, p.size)
    requires at + ArraySize(|vs| + 1, p.size) <= buf.Length == |base|
    requires here <= |base| && buf[..] == Overlay(base, at, EncodeElements(e, p, vs))
    modifies buf
    ensures AllFit(p, vs + [v]) && next == at + ArraySize(|vs + [v]|, p.size) <= buf.Length
    ensures buf[..] == Overlay(base, at, EncodeElements(e, p, vs + [v]))
  {
    EncodeLast(e, p, vs, v);
    OverlaidTwice(base, at, EncodeElements(e, p, vs), Encode(e, p, v));
    next := Write(e, buf, here, p, v);
  }

  /** `write` of an array. */
  method WriteArray(e: Endian, buf: array<byte>, at: nat, p: PrimType, vs: seq<nat>) returns (next: nat)
    requires AllFit(p, vs)
    requires at + ArraySize(|vs|, p.size) <= buf.Length
    modifies buf
    ensures next == at + ArraySize(|vs|, p.size)
    ensures buf[..] == Overlay(old(buf[..]), at, EncodeElements(e, p, vs))
  {
    next := at;
    ghost var base := buf[..];
    for i := 0 to |vs|
      invariant AllFit(p, vs[..i]) && next == at + ArraySize(i, p.size) <= buf.Length
      invariant buf[..] == Overlay(base, at, EncodeElements(e, p, vs[..i]))
    {
      ShorterIsSmaller(i + 1, |vs|, p.size);
      TakeNext(vs, i);
      next := WriteNext(e, buf, next, p, vs[i], base, at, vs[..i]);
    }
    TakeAll(vs);
  }

  lemma {:induction false} EncodeLastField(e: Endian, schema: Schema, m: Message, f: Field, vs: seq<nat>)
    requires Fits(schema, m) && FitsField(f, vs)
    ensures Fits(schema + [f], m + [vs])
    ensures EncodeMessage(e, schema + [f], m + [vs]) == EncodeMessage(e, schema, m) + EncodeElements(e, f.prim, vs)
    ensures MessageSize(schema + [f]) == MessageSize(schema) + FieldSize(f)
    decreases |schema|
  {
    if schema == [] {
      assert [f][1..] == [] && [vs][1..] == [];
      assert schema + [f] == [f] && m + [vs] == [vs];
      assert EncodeMessage(e, [f], [vs]) == EncodeElements(e, f.prim, vs) + EncodeMessage(e, [], []);
    } else {
      assert FitsField(schema[0], m[0]);
      assert (schema + [f])[1..] == schema[1..] + [f] && (m + [vs])[1..] == m[1..] + [vs];
      EncodeLastField(e, schema[1..], m[1..], f, vs);
      Regroup(EncodeElements(e, schema[0].prim, m[0]), EncodeMessage(e, schema[1..], m[1..]),
              EncodeElements(e, f.prim, vs));
    }
  }

  lemma {:induction false} ShorterMessageIsSmaller(schema: Schema, i: nat)
    requires i <= |schema|
    ensures MessageSize(schema[..i]) <= MessageSize(schema)
    decreases i
  {
    if i > 0 {
      assert schema[..i][1..] == schema[1..][..i - 1];
      ShorterMessageIsSmaller(schema[1..], i - 1);
    }
  }

  /** One turn of the loop below: one more field behind those written from `at` on. */
  method WriteNextField(e: Endian, buf: array<byte>, here: nat, f: Field, vs: seq<nat>,
                        ghost base: seq<byte>, ghost at: nat, ghost schema: Schema, ghost m: Message)
    returns (next: nat)
    requires Fits(schema, m) && FitsField(f, vs) && here == at + MessageSize(schema) <= |base|
    requires at + MessageSize(schema + [f]) <= buf.Length == |base|
    requires buf[..] == Overlay(base, at, EncodeMessage(e, schema, m))
    modifies buf
    ensures Fits(schema + [f], m + [vs]) && next == at + MessageSize(schema + [f])
    ensures buf[..] == Overlay(base, at, EncodeMessage(e, schema + [f], m + [vs]))
  {
    EncodeLastField(e, schema, m, f, vs);
    OverlaidTwice(base, at, EncodeMessage(e, schema, m), EncodeElements(e, f.prim, vs));
    next := WriteArray(e, buf, here, f.prim, vs);
  }

  /** A message's `serialise`: its fields in order, which fit in any buffer of at least `message_size` bytes. */
  method WriteMessage(e: Endian, buf: array<byte>, at: nat, schema: Schema, m: Message) returns (next: nat)
    requires Fits(schema, m)
    requires at + MessageSize(schema) <= buf.Length
    modifies buf
    ensures next == at + MessageSize(schema)
    ensures buf[..] == Overlay(old(buf[..]), at, EncodeMessage(e, schema, m))
  {
    next := at;
    ghost var base := buf[..];
    for i := 0 to |schema|
      invariant Fits(schema[..i], m[..i]) && next == at + MessageSize(schema[..i]) <= buf.Length
      invariant buf[..] == Overlay(base, at, EncodeMessage(e, schema[..i], m[..i]))
    {
      ShorterMessageIsSmaller(schema, i + 1);
      TakeNext(schema, i);
      TakeNext(m, i);
      next := WriteNextField(e, buf, next, schema[i], m[i], base, at, schema[..i], m[..i]);
    }
    TakeAll(schema);
    TakeAll(m);
  }

  /** `read` of a primitive. The size assertion of the source is the precondition. */
  method Read(e: Endian, payload: seq<byte>, p: PrimType) returns (v: nat, rest: seq<byte>)
    requires p.size <= |payload|
    ensures v == Decode(e, p, payload[..p.size])
    ensures rest == payload[p.size..]
  {
    v := SwapBytes(e, p, FromNativeBytes(e, payload[..p.size]));
    rest := payload[p.size..];
  }

  lemma {:induction false} DecodeLast(e: Endian, p: PrimType, n: nat, bs: seq<byte>, rest: seq<byte>)
    requires ArraySize(n, p.size) <= |bs| && rest == bs[ArraySize(n, p.size)..] && p.size <= |rest|
    ensures ArraySize(n + 1, p.size) == ArraySize(n, p.size) + p.size
    ensures DecodeElements(e, p, n + 1, bs) == DecodeElements(e, p, n, bs) + [Decode(e, p, rest[..p.size])]
  {
    if n > 0 {
      SkipMore(bs, p.size, ArraySize(n - 1, p.size));
      DecodeLast(e, p, n - 1, bs[p.size..], rest);
      Regroup([Decode(e, p, bs[..p.size])], DecodeElements(e, p, n - 1, bs[p.size..]), [Decode(e, p, rest[..p.size])]);
    } else {
      assert rest == bs;
    }
  }

  lemma {:induction false} NextSize(n: nat, size: nat)
    ensures ArraySize(n + 1, size) == ArraySize(n, size) + size
  {
    if n > 0 {
      NextSize(n - 1, size);
    }
  }

  lemma SkipMore(payload: seq<byte>, i: nat, j: nat)
    requires i + j <= |payload|
    ensures payload[i..][j..] == payload[i + j..]
  {
  }

  /** One turn of the loop below: one more value behind the first `n`. */
  method ReadNext(e: Endian, from: seq<byte>, p: PrimType, ghost payload: seq<byte>, ghost n: nat)
    returns (v: nat, rest: seq<byte>)
    requires ArraySize(n, p.size) + p.size <= |payload| && from == payload[ArraySize(n, p.size)..]
    requires ArraySize(n + 1, p.size) == ArraySize(n, p.size) + p.size
    ensures rest == payload[ArraySize(n + 1, p.size)..]
    ensures DecodeElements(e, p, n, payload) + [v] == DecodeElements(e, p, n + 1, payload)
  {
    DecodeLast(e, p, n, payload, from);
    SkipMore(payload, ArraySize(n, p.size), p.size);
    v, rest := Read(e, from, p);
  }

  /** `read` of an array. */
  method ReadArray(e: Endian, payload: seq<byte>, p: PrimType, n: nat) returns (vs: seq<nat>, rest: seq<byte>)
    requires ArraySize(n, p.size) <= |payload|
    ensures vs == DecodeElements(e, p, n, payload)
    ensures rest == payload[ArraySize(n, p.size)..]
  {
    vs, rest := [], payload;
    for i := 0 to n
      invariant ArraySize(i, p.size) <= |payload| && rest == payload[ArraySize(i, p.size)..]
      invariant vs == DecodeElements(e, p, i, payload)
    {
      NextSize(i, p.size);
      ShorterIsSmaller(i + 1, n, p.size);
      var v: nat;
      v, rest := ReadNext(e, rest, p, payload, i);
      vs := vs + [v];
    }
  }

  lemma {:induction false} DecodeLastField(e: Endian, schema: Schema, f: Field, bs: seq<byte>)
    requires MessageSize(schema + [f]) <= |bs|
    ensures MessageSize(schema + [f]) == MessageSize(schema) + FieldSize(f)
    ensures DecodeMessage(e, schema + [f], bs) ==
            DecodeMessage(e, schema, bs) + [DecodeElements(e, f.prim, f.count, bs[MessageSize(schema)..])]
    decreases |schema|
  {
    if schema == [] {
      assert [f][1..] == [] && schema + [f] == [f];
      assert DecodeMessage(e, [f], bs) ==
             [DecodeElements(e, f.prim, f.count, bs)] + DecodeMessage(e, [], bs[FieldSize(f)..]);
    } else {
      var first, rest := schema[0], bs[FieldSize(schema[0])..];
      assert (schema + [f])[1..] == schema[1..] + [f];
      DecodeLastField(e, schema[1..], f, rest);
      SkipMore(bs, FieldSize(first), MessageSize(schema[1..]));
      Regroup([DecodeElements(e, first.prim, first.count, bs)], DecodeMessage(e, schema[1..], rest),
              [DecodeElements(e, f.prim, f.count, rest[MessageSize(schema[1..])..])]);
    }
  }

  /** One turn of the loop below: one more field behind those of `schema`. */
  method ReadNextField(e: Endian, from: seq<byte>, f: Field, ghost payload: seq<byte>, ghost schema: Schema)
    returns (vs: seq<nat>, rest: seq<byte>)
    requires MessageSize(schema) <= |payload| && from == payload[MessageSize(schema)..]
    requires MessageSize(schema + [f]) <= |payload|
    ensures rest == payload[MessageSize(schema + [f])..]
    ensures DecodeMessage(e, schema, payload) + [vs] == DecodeMessage(e, schema + [f], payload)
  {
    DecodeLastField(e, schema, f, payload);
    SkipMore(payload, MessageSize(schema), FieldSize(f));
    vs, rest := ReadArray(e, from, f.prim, f.count);
  }

  /** A message's `deserialise`: it takes exactly `message_size` bytes off the payload. */
  method ReadMessage(e: Endian, payload: seq<byte>, schema: Schema) returns (m: Message, rest: seq<byte>)
    requires MessageSize(schema) <= |payload|
    ensures m == DecodeMessage(e, schema, payload)
    ensures rest == payload[MessageSize(schema)..]
  {
    m, rest := [], payload;
    for i := 0 to |schema|
      invariant MessageSize(schema[..i]) <= |payload| && rest == payload[MessageSize(schema[..i])..]
      invariant m == DecodeMessage(e, schema[..i], payload)
    {
      ShorterMessageIsSmaller(schema, i + 1);
      TakeNext(schema, i);
      var vs: seq<nat>;
      vs, rest := ReadNextField(e, rest, schema[i], payload, schema[..i]);
      m := m + [vs];
    }
    TakeAll(schema);
  }
}
