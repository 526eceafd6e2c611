/**
 The NDEF parser of the NFC reader (client/main/nfc/parser/ndef_parser.cpp): it finds the record inside the leading TLV
 block (section 2.3 of the NFC Forum Type 2 Tag Operation Specification) and the type and payload inside the record
 (section 3.2 of the NFC Forum NDEF Technical Specification).

 The parser's cursor is an 8-bit number and wraps. Its results are views: a position in the captured data and a length.
 */
module NdefParser {
  import opened Bytes

  datatype View = View(offset: nat, length: nat)

  /** `Fault` stands for an access outside the bytes a span covers. */
  datatype Lookup = Fault | Absent | Found(view: View)

  /** `Nothing` is the empty record that the parser returns when it gives up. */
  datatype Parsed = Faulted | Nothing | Record(rtype: View, payload: View)

  const NDEF_MESSAGE: byte := 0x03
  const LONG_LENGTH: byte := 0xFF

  predicate IsShortRecord(header: byte) { header / 16 % 2 == 1 }

  predicate HasIdLength(header: byte) { header / 8 % 2 == 1 }

  /** A number written with its most significant byte first. */
  function FromBE(bs: seq<byte>): (v: nat) {
    if bs == [] then 0 else 256 * FromBE(bs[..|bs| - 1]) + bs[|bs| - 1]
  }

  // ----- what the parser finds, in closed form -----

  /** Where the TLV block says the record is. */
  function RecordView(data: seq<byte>): Lookup {
    if |data| == 0 then Fault
    else if data[0] != NDEF_MESSAGE then Absent
    else if |data| == 1 then Fault
    else if data[1] != LONG_LENGTH then
      if 2 + data[1] as int > |data| then Absent else Found(View(2, data[1]))
    else if 4 > |data| then Absent
    else
      var length := 256 * (data[2] as int) + data[3];
      if 4 + length > |data| then Absent else Found(View(4, length))
  }

  /** The type and the payload of a record, as positions in the record. */
  function RecordParts(rec: seq<byte>): Parsed {
    if |rec| < 2 then Faulted else
    var header, typeLength := rec[0], rec[1];
    var short := IsShortRecord(header);
    if !short && |rec| < 6 then Faulted else
    var payloadLength: nat := if !short then FromBE(rec[2..6]) else if |rec| > 2 then rec[2] else 0;
    var at: nat := if !short then 6 else if |rec| > 2 then 3 else 2;
    if !HasIdLength(header) then Record(View(at, typeLength), View((at + typeLength as int) % 256, payloadLength))
    else if |rec| <= at then Faulted
    else Record(View(at + 1, typeLength),
                View((at + 1 + typeLength as int + rec[at] as int) % 256, payloadLength))
  }

  function Shifted(v: View, start: nat): View { View(start + v.offset, v.length) }

  function Parsing(data: seq<byte>): Parsed {
    match RecordView(data)
    case Fault => Faulted
    case Absent => Nothing
    case Found(view) =>
      if view.length == 0 then Nothing
      else
        match RecordParts(data[view.offset..view.offset + view.length])
        case Record(t, p) => Record(Shifted(t, view.offset), Shifted(p, view.offset))
        case other => other
  }

  // ----- the code -----

  method TryGetRecordView(data: seq<byte>) returns (r: Lookup)
    ensures r == RecordView(data)
    ensures r.Found? ==> r.view.offset + r.view.length <= |data|
  {
    var index: nat := 0;
    if index >= |data| {
      return Fault;
    }
    var tag := data[index];
    index := index + 1;
    if tag != NDEF_MESSAGE {
      return Absent;
    }
    if index >= |data| {
      return Fault;
    }
    var recordLength: nat := 0;
    var lenByte := data[index];
    index := index + 1;
    if lenByte == LONG_LENGTH {
      if index + 2 > |data| {
        return Absent;
      }
      recordLength := 256 * (data[index] as int) + data[index + 1];
      index := index + 2;
    } else {
      recordLength := lenByte;
    }
    if index + recordLength > |data| {
      return Absent;
    }
    r := Found(View(index, recordLength));
  }

  /** The cursor after `n` more bytes. */
  function Advance(index: byte, n: nat): byte {
    (index as int + n) % 256
  }

  lemma OneMoreDigit(rec: seq<byte>, i: nat, j: nat)
    requires i <= j < |rec|
    ensures FromBE(rec[i..j + 1]) == 256 * FromBE(rec[i..j]) + rec[j]
  {
    var digits := rec[i..j + 1];
    assert digits[..j - i] == rec[i..j];
  }

  method GetPayloadLength(header: byte, rec: seq<byte>, from: byte) returns (ok: bool, length: nat, index: byte)
    requires from == 2 && |rec| >= 2
    ensures ok <==> IsShortRecord(header) || |rec| >= 6
    ensures ok ==> length == if !IsShortRecord(header) then FromBE(rec[2..6]) else if |rec| > 2 then rec[2] else 0
    ensures ok ==> index == if !IsShortRecord(header) then 6 else if |rec| > 2 then 3 else 2
  {
    index, ok, length := from, true, 0;
    if IsShortRecord(header) {
      if index as int >= |rec| {
        return;
      }
      length := rec[index];
      index := Advance(index, 1);
      return;
    }
    for i := 0 to 4
      invariant index as int == 2 + i <= |rec|
      invariant length == FromBE(rec[2..2 + i])
    {
      if index as int >= |rec| {
        ok := false;
        return;
      }
      OneMoreDigit(rec, 2, 2 + i);
      length := 256 * length + rec[index];
      index := Advance(index, 1);
    }
  }

  method GetIdLength(header: byte, rec: seq<byte>, from: byte) returns (ok: bool, length: byte, index: byte)
    requires from <= 6
    ensures ok <==> !HasIdLength(header) || |rec| > from as int
    ensures ok && HasIdLength(header) ==> length == rec[from] && index as int == from as int + 1
    ensures !HasIdLength(header) ==> length == 0 && index == from
  {
    index, ok, length := from, true, 0;
    if HasIdLength(header) {
      if index as int >= |rec| {
        ok := false;
        return;
      }
      length := rec[index];
      index := Advance(index, 1);
    }
  }

  lemma AdvanceTwice(index: byte, a: nat, b: nat)
    ensures Advance(Advance(index, a), b) == (index as int + a + b) % 256
  {
  }

  /** The part of `parse` behind the TLV block. */
  method ParseRecord(rec: seq<byte>) returns (r: Parsed)
    requires rec != []
    ensures r == RecordParts(rec)
  {
    var index: byte := 0;
    var header := rec[index];
    index := Advance(index, 1);
    if index as int >= |rec| {
      return Faulted;
    }
    var typeLength := rec[index];
    index := Advance(index, 1);
    var ok: bool, payloadLength: nat, idLength: byte;
    ok, payloadLength, index := GetPayloadLength(header, rec, index);
    if !ok {
      return Faulted;
    }
    ok, idLength, index := GetIdLength(header, rec, index);
    if !ok {
      return Faulted;
    }
    var rtype := View(index, typeLength);
    AdvanceTwice(index, typeLength, idLength);
    index := Advance(index, typeLength);
    index := Advance(index, idLength);
    r := Record(rtype, View(index, payloadLength));
  }

  method Parse(data: seq<byte>) returns (r: Parsed)
    ensures r == Parsing(data)
  {
    var found := TryGetRecordView(data);
    if found.Fault? {
      return Faulted;
    }
    if found.Absent? || found.view.length == 0 {
      return Nothing;
    }
    var start := found.view.offset;
    r := ParseRecord(data[start..start + found.view.length]);
    if r.Record? {
      r := Record(Shifted(r.rtype, start), Shifted(r.payload, start));
    }
  }

  // ----- well-formed records -----

  function ToBE32(v: nat): (bs: seq<byte>)
    ensures |bs| == 4
  {
    [v / 0x100_0000 % 256, v / 0x1_0000 % 256, v / 0x100 % 256, v % 256]
  }

  lemma BigEndianDigits(v: nat)
    requires v < 0x1_0000_0000
    ensures ((v / 0x100_0000 % 256 * 256 + v / 0x1_0000 % 256) * 256 + v / 0x100 % 256) * 256 + v % 256 == v
  {
    assert v / 0x1_0000 == v / 0x100 / 0x100 && v / 0x100_0000 == v / 0x1_0000 / 0x100;
  }

  lemma BigEndianRoundTrip(v: nat)
    requires v < 0x1_0000_0000
    ensures FromBE(ToBE32(v)) == v
  {
    var bs := ToBE32(v);
    BigEndianDigits(v);
    assert bs[..3][..2] == bs[..2] && bs[..2][..1] == bs[..1];
    assert FromBE(bs[..1]) == bs[0] as int;
    assert FromBE(bs[..2]) == 256 * FromBE(bs[..1]) + bs[1];
    assert FromBE(bs[..3]) == 256 * FromBE(bs[..2]) + bs[2];
  }

  /** A record as the specification lays it out; all header bits but two are free. */
  datatype Ndef = Ndef(header: byte, rtype: seq<byte>, id: seq<byte>, payload: seq<byte>) {
    predicate Valid() {
      && |rtype| < 256 && |id| < 256
      && (if IsShortRecord(header) then |payload| < 256 else |payload| < 0x1_0000_0000)
      && (!HasIdLength(header) ==> id == [])
    }

    /** Where the type starts. */
    function HeaderSize(): nat {
      (if IsShortRecord(header) then 3 else 6) + (if HasIdLength(header) then 1 else 0)
    }

    /** Where the payload starts. */
    function PayloadStart(): nat { HeaderSize() + |rtype| + |id| }

    function Head(): (bs: seq<byte>)
      requires Valid()
      ensures |bs| == HeaderSize()
    {
      [header, |rtype|] + (if IsShortRecord(header) then [|payload|] else ToBE32(|payload|)) +
      (if HasIdLength(header) then [|id|] else [])
    }

    function Encoded(): (bs: seq<byte>)
      requires Valid()
      ensures |bs| == PayloadStart() + |payload|
    {
      Head() + rtype + id + payload
    }
  }

  /** A TLV block around a record, with a length of one byte or of three. */
  function Tlv(long: bool, rec: seq<byte>): (bs: seq<byte>)
    requires |rec| < (if long then 0x1_0000 else 0xFF)
    ensures |bs| == TlvHeader(long) + |rec|
  {
    (if long then [NDEF_MESSAGE, LONG_LENGTH, |rec| / 256, |rec| % 256] else [NDEF_MESSAGE, |rec|]) + rec
  }

  function TlvHeader(long: bool): nat { if long then 4 else 2 }

  lemma TlvIsFound(long: bool, rec: seq<byte>, trailing: seq<byte>)
    requires |rec| < (if long then 0x1_0000 else 0xFF)
    ensures var data := Tlv(long, rec) + trailing;
            && RecordView(data) == Found(View(TlvHeader(long), |rec|))
            && data[TlvHeader(long)..TlvHeader(long) + |rec|] == rec
  {
  }

  lemma PartsAreFound(n: Ndef)
    requires n.Valid()
    ensures RecordParts(n.Encoded()) ==
            Record(View(n.HeaderSize(), |n.rtype|), View(n.PayloadStart() % 256, |n.payload|))
  {
    var rec := n.Encoded();
    assert rec[..n.HeaderSize()] == n.Head();
    assert rec[0] == n.header && rec[1] as int == |n.rtype|;
    if !IsShortRecord(n.header) {
      assert rec[2..6] == n.Head()[2..6] == ToBE32(|n.payload|);
      BigEndianRoundTrip(|n.payload|);
    } else {
      assert rec[2] == n.Head()[2];
    }
    if HasIdLength(n.header) {
      var at := n.HeaderSize() - 1;
      assert rec[at] == n.Head()[at];
    }
  }

  /**
   Every well-formed record is found, in either TLV form and with anything behind it: the type exactly where it is,
   and the payload with its length, exactly where it is if and only if its position fits the 8-bit cursor.
   */
  lemma RecordIsFoundIff(long: bool, n: Ndef, trailing: seq<byte>)
    requires n.Valid() && |n.Encoded()| < (if long then 0x1_0000 else 0xFF)
    ensures var r, start := Parsing(Tlv(long, n.Encoded()) + trailing), TlvHeader(long);
            && r.Record?
            && r.rtype == View(start + n.HeaderSize(), |n.rtype|)
            && r.payload.length == |n.payload|
            && (r.payload.offset == start + n.PayloadStart() <==> n.PayloadStart() <= 255)
  {
    TagIsParsed(long, n, trailing);
    FitsCursorIff(n.PayloadStart());
  }

  lemma FitsCursorIff(position: nat)
    ensures position % 256 == position <==> position <= 255
  {
  }

  /** Where the parser sees a well-formed record: the payload is where the wrapped cursor puts it. */
  lemma TagIsParsed(long: bool, n: Ndef, trailing: seq<byte>)
    requires n.Valid() && |n.Encoded()| < (if long then 0x1_0000 else 0xFF)
    ensures var start := TlvHeader(long);
            Parsing(Tlv(long, n.Encoded()) + trailing) ==
            Record(View(start + n.HeaderSize(), |n.rtype|), View(start + n.PayloadStart() % 256, |n.payload|))
  {
    PartsAreFound(n);
    TlvIsParsed(long, n.Encoded(), trailing);
  }

  lemma TlvIsParsed(long: bool, rec: seq<byte>, trailing: seq<byte>)
    requires rec != [] && |rec| < (if long then 0x1_0000 else 0xFF) && RecordParts(rec).Record?
    ensures var parts, start := RecordParts(rec), TlvHeader(long);
            Parsing(Tlv(long, rec) + trailing) == Record(Shifted(parts.rtype, start), Shifted(parts.payload, start))
  {
    TlvIsFound(long, rec, trailing);
  }

  predicate Inside(v: View, data: seq<byte>) { v.offset + v.length <= |data| }

  function Contents(v: View, data: seq<byte>): seq<byte>
    requires Inside(v, data)
  {
    data[v.offset..v.offset + v.length]
  }

  /** The round trip: what the views show is the type and the payload that were encoded. */
  lemma RecordRoundTrip(long: bool, n: Ndef, trailing: seq<byte>)
    requires n.Valid() && |n.Encoded()| < (if long then 0x1_0000 else 0xFF) && n.PayloadStart() <= 255
    ensures var data := Tlv(long, n.Encoded()) + trailing;
            var r := Parsing(data);
            && r.Record? && Inside(r.rtype, data) && Inside(r.payload, data)
            && Contents(r.rtype, data) == n.rtype && Contents(r.payload, data) == n.payload
  {
    RecordIsFoundIff(long, n, trailing);
    var data := Tlv(long, n.Encoded()) + trailing;
    TlvIsFound(long, n.Encoded(), trailing);
    var start, h := TlvHeader(long), n.HeaderSize();
    EncodedParts(n);
    SliceOfSlice(data, start, |n.Encoded()|, h, |n.rtype|);
    SliceOfSlice(data, start, |n.Encoded()|, n.PayloadStart(), |n.payload|);
  }

  lemma EncodedParts(n: Ndef)
    requires n.Valid()
    ensures n.Encoded()[n.HeaderSize()..n.HeaderSize() + |n.rtype|] == n.rtype
    ensures n.Encoded()[n.PayloadStart()..n.PayloadStart() + |n.payload|] == n.payload
  {
    var head := n.Head();
    Middle(head, n.rtype, n.id + n.payload);
    Regroup(head + n.rtype, n.id, n.payload);
    Middle(head + n.rtype + n.id, n.payload, []);
    assert n.Encoded() + [] == n.Encoded();
  }

  lemma Middle(a: seq<byte>, b: seq<byte>, c: seq<byte>)
    ensures (a + b + c)[|a|..|a| + |b|] == b
  {
  }

  lemma SliceOfSlice(data: seq<byte>, start: nat, size: nat, i: nat, n: nat)
    requires i + n <= size && start + size <= |data|
    ensures data[start..start + size][i..i + n] == data[start + i..start + i + n]
  {
    var part := data[start..start + size];
    var a, b := part[i..i + n], data[start + i..start + i + n];
    forall k | 0 <= k < n ensures a[k] == b[k] {
      assert a[k] == part[i + k];
    }
  }

  /** Captured data that does not start with an NDEF message block is no record, whatever else it holds. */
  lemma OtherBlockIsNothing(data: seq<byte>)
    requires data != [] && data[0] != 0x03
    ensures Parsing(data) == Nothing
  {
  }

  // ----- partial data -----

  /** Any captured prefix of two bytes or more parses to nothing or to what the whole data parses to. */
  lemma PrefixParsesAlike(data: seq<byte>, n: nat)
    requires 2 <= n <= |data|
    ensures Parsing(data[..n]) == Nothing || Parsing(data[..n]) == Parsing(data)
  {
    var part := data[..n];
    match RecordView(part)
    case Found(view) =>
      assert part[view.offset..view.offset + view.length] == data[view.offset..view.offset + view.length];
    case _ =>
  }
}
