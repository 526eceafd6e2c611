/**
 From a tag to a rail report: the page reader (client/main/nfc/modules/nfc_reader.cpp), the rail payload
 (client/main/nfc/parser/rail_nfc.hpp) and the tag task (client/main/nfc/tasks/nfc_task.cpp).
 */
module NfcReader {
  import opened Bytes
  import opened Serialise
  import opened NdefParser

  datatype Model = Ntag213 | Ntag215 | Ntag216 | Unknown

  datatype ReadState = ReadFails | PartialRead | FullRead

  const USER_START_PAGE: int := 4
  const PAGE_SIZE: int := 4
  const MAX_USER_MEMORY: nat := 888

  function UserPageEnd(m: Model): int {
    match m
    case Ntag213 => 39
    case Ntag215 => 129
    case Ntag216 => 225
    case Unknown => -1
  }

  /** How many four-page reads cover the user pages. */
  function Groups(m: Model): nat {
    if m == Unknown then 0 else (UserPageEnd(m) - USER_START_PAGE) / 4 + 1
  }

  /** A whole read covers the 144 bytes of an NTAG213, the 504 of an NTAG215 and the group they end in. */
  lemma WholeReadIsCaptured(m: Model, good: nat)
    requires good >= 56
    ensures Captured(m, good) == match m
                                 case Ntag213 => 144
                                 case Ntag215 => 512
                                 case Ntag216 => 896
                                 case Unknown => 0
  {
    assert Groups(Ntag213) == 9 && Groups(Ntag215) == 32 && Groups(Ntag216) == 56;
  }

  /** How many bytes a read of the user pages gets when its first `good` groups succeed. */
  function Captured(m: Model, good: nat): nat {
    16 * if good < Groups(m) then good else Groups(m)
  }

  /** The data buffer holds a read, whole or not, of every model; only a whole read of an NTAG216 overruns it. */
  lemma BufferSufficesIff(m: Model, good: nat)
    ensures Captured(m, good) <= MAX_USER_MEMORY <==> !(m == Ntag216 && good >= 56)
  {
    assert Groups(Ntag213) == 9 && Groups(Ntag215) == 32 && Groups(Ntag216) == 56;
  }

  /**
   `read_page` on a tag whose memory from the first user page on is `image`, when the first `good` reads succeed. The
   copies do not look where the buffer ends: `beyond` is what they write behind it.
   */
  method ReadPage(m: Model, image: seq<byte>, good: nat)
    returns (state: ReadState, data: array<byte>, bytesRead: nat, beyond: seq<byte>)
    requires |image| >= 16 * Groups(m)
    ensures fresh(data) && data.Length == MAX_USER_MEMORY
    ensures state == if m == Unknown then ReadFails else if good < Groups(m) then PartialRead else FullRead
    ensures bytesRead == Captured(m, good) <= |image|
    ensures if m == Ntag216 && good >= 56
            then bytesRead == 896 && data[..] == image[..888] && beyond == image[888..896]
            else bytesRead <= data.Length && data[..bytesRead] == image[..bytesRead] && beyond == []
  {
    data := new byte[MAX_USER_MEMORY];
    bytesRead, beyond := 0, [];
    BufferSufficesIff(m, good);
    var endPage := UserPageEnd(m);
    if endPage < 0 {
      return ReadFails, data, 0, [];
    }
    state := FullRead;
    var page := USER_START_PAGE;
    ghost var done: nat := 0;
    while page <= endPage
      invariant page == USER_START_PAGE + 4 * done && done <= Groups(m) && done <= good && bytesRead == 16 * done
      invariant if bytesRead <= MAX_USER_MEMORY then data[..bytesRead] == image[..bytesRead] && beyond == []
                else done == 56 && data[..] == image[..888] && beyond == image[888..896]
      decreases endPage - page
    {
      var at := (page - USER_START_PAGE) * PAGE_SIZE;
      assert at == 16 * done && done < Groups(m) <= 56;
      if at / 16 >= good {
        state := PartialRead;
        break;
      }
      var inside := if at + 16 <= MAX_USER_MEMORY then 16 else MAX_USER_MEMORY - at;
      forall i | 0 <= i < inside {
        data[at + i] := image[at + i];
      }
      beyond := beyond + image[at + inside..at + 16];
      bytesRead := bytesRead + 16;
      page := page + 4;
      done := done + 1;
    }
  }

  // ----- what the tag task reports -----

  /** `Aborts` is a failed size assertion of the serialiser, `Faults` an access outside the captured bytes. */
  datatype Report = NoReport | Rail(id: nat, rtype: nat) | Aborts | Faults

  const RAIL: seq<byte> := [0x72, 0x61, 0x69, 0x6C] // "rail"

  const RAIL_ID := Prim(Integral, 8)
  const RAIL_TYPE := Prim(Other, 1)

  /** `rail_nfc_t::deserialise` of a payload of the given length, whose bytes are the first of `span`. */
  function RailOf(e: Endian, span: seq<byte>, length: nat): Report {
    if length < 8 then Aborts
    else if |span| < 8 then Faults
    else if length < 9 then Aborts
    else if |span| < 9 then Faults
    else Rail(Decode(e, RAIL_ID, span[..8]), Decode(e, RAIL_TYPE, span[8..][..1]))
  }

  method DeserialiseRail(e: Endian, span: seq<byte>, length: nat) returns (r: Report)
    ensures r == RailOf(e, span, length)
  {
    if length < 8 {
      return Aborts;
    }
    if |span| < 8 {
      return Faults;
    }
    var id, rest := Read(e, span, RAIL_ID);
    if length < 9 {
      return Aborts;
    }
    if |span| < 9 {
      return Faults;
    }
    var rtype, _ := Read(e, rest, RAIL_TYPE);
    r := Rail(id, rtype);
  }

  /** What a record is reported as, given the views of its type and payload. */
  function RecordReport(e: Endian, data: seq<byte>, t: View, p: View): Report {
    if t.length != |RAIL| then NoReport
    else if !Inside(t, data) then Faults
    else if Contents(t, data) != RAIL then NoReport
    else RailOf(e, if p.offset <= |data| then data[p.offset..] else [], p.length)
  }

  /** `process_tag`, as a function of the bytes captured from the tag. */
  function Reported(e: Endian, data: seq<byte>): Report {
    match Parsing(data)
    case Faulted => Faults
    case Nothing => NoReport
    case Record(t, p) => RecordReport(e, data, t, p)
  }

  method ProcessTag(e: Endian, data: seq<byte>) returns (r: Report)
    ensures r == Reported(e, data)
  {
    var record := Parse(data);
    match record
    case Faulted => r := Faults;
    case Nothing => r := NoReport;
    case Record(t, p) =>
      if t.length != |RAIL| {
        r := NoReport;
      } else if !Inside(t, data) {
        r := Faults;
      } else if Contents(t, data) != RAIL {
        r := NoReport;
      } else {
        r := DeserialiseRail(e, if p.offset <= |data| then data[p.offset..] else [], p.length);
      }
  }

  // ----- what a tag reports -----

  /** A well-formed record of any type in a TLV block, with anything behind it. */
  ghost predicate TagOf(image: seq<byte>, long: bool, n: Ndef, trailing: seq<byte>) {
    && n.Valid() && |n.Encoded()| < (if long then 0x1_0000 else 0xFF)
    && image == Tlv(long, n.Encoded()) + trailing
  }

  /** The rail in the nine bytes from `at` on. */
  function RailAt(bs: seq<byte>, at: nat): Report
    requires at + 9 <= |bs|
  {
    Rail(FromLE(bs[at..at + 8]), bs[at + 8])
  }

  /**
   What the tag task makes of a record captured whole. A record of another type is no report, a payload without room for
   a rail trips the serialiser, and otherwise the rail is read where the 8-bit cursor puts the payload.
   */
  function TagReport(n: Ndef): Report
    requires n.Valid()
  {
    RailReport(n.Encoded(), n.rtype, n.PayloadStart() % 256, |n.payload|)
  }

  function RailReport(rec: seq<byte>, rtype: seq<byte>, at: nat, length: nat): Report
    requires at + length <= |rec|
  {
    if rtype != RAIL then NoReport else if length < 9 then Aborts else RailAt(rec, at)
  }

  /** A read that captured the whole TLV block of any well-formed tag reports exactly that. */
  lemma WholeBlockReports(e: Endian, image: seq<byte>, long: bool, n: Ndef, trailing: seq<byte>)
    requires TagOf(image, long, n, trailing)
    ensures Reported(e, image) == TagReport(n)
  {
    var rec, start := n.Encoded(), TlvHeader(long);
    TagIsParsed(long, n, trailing);
    TlvIsFound(long, rec, trailing);
    EncodedParts(n);
    RecordIsReported(e, image, start, rec, n.HeaderSize(), n.rtype, n.PayloadStart() % 256, |n.payload|);
  }

  /** The same for a record at `start` in the captured bytes, with its type at `head` and its payload view at `at`. */
  lemma RecordIsReported(e: Endian, data: seq<byte>, start: nat, rec: seq<byte>,
                         head: nat, rtype: seq<byte>, at: nat, length: nat)
    requires start + |rec| <= |data| && data[start..start + |rec|] == rec && at + length <= |rec|
    requires head + |rtype| <= |rec| && rec[head..head + |rtype|] == rtype
    ensures RecordReport(e, data, View(start + head, |rtype|), View(start + at, length)) ==
            RailReport(rec, rtype, at, length)
  {
    SliceOfSlice(data, start, |rec|, head, |rtype|);
    assert Contents(View(start + head, |rtype|), data) == rtype;
    if rtype == RAIL && length >= 9 {
      RailIsRead(e, data, start, at, length, rec);
    } else if rtype == RAIL {
      RailIsRefused(e, data[start + at..], length);
    }
  }

  lemma RailIsRefused(e: Endian, span: seq<byte>, length: nat)
    requires length < 9 && length <= |span|
    ensures RailOf(e, span, length) == Aborts
  {
  }

  lemma RailIsRead(e: Endian, data: seq<byte>, start: nat, at: nat, length: nat, rec: seq<byte>)
    requires at + 9 <= |rec| && length >= 9
    requires start + |rec| <= |data| && data[start..start + |rec|] == rec
    ensures RailOf(e, data[start + at..], length) == RailAt(rec, at)
  {
    var span := data[start + at..];
    var id, rtype := span[..8], span[8..][..1];
    SliceOfSlice(data, start, |rec|, at, 8);
    assert id == data[start + at..start + at + 8] == rec[at..at + 8];
    assert rtype == [data[start + at + 8]] && data[start..start + |rec|][at + 8] == rec[at + 8];
    LittleEndianIsRead(e, RAIL_ID, id);
    LittleEndianIsRead(e, RAIL_TYPE, rtype);
    assert FromLE(rtype) == rec[at + 8] as int + 256 * FromLE(rtype[1..]);
  }

  lemma LittleEndianIsRead(e: Endian, p: PrimType, bs: seq<byte>)
    requires |bs| == p.size && Portable(p)
    ensures Decode(e, p, bs) == FromLE(bs)
  {
    var v := FromLE(bs);
    ToFromLE(bs);
    PortableIsLittleEndian(e, p, v);
    UnswapBytes(e, p, v);
  }

  /** Two places hold the same rail exactly if they hold the same bytes. */
  lemma SameRailIff(a: seq<byte>, i: nat, b: seq<byte>, j: nat)
    requires i + 9 <= |a| && j + 9 <= |b|
    ensures RailAt(a, i) == RailAt(b, j) <==> a[i..i + 9] == b[j..j + 9]
  {
    var x, y := a[i..i + 9], b[j..j + 9];
    assert x == a[i..i + 8] + [a[i + 8]] && y == b[j..j + 8] + [b[j + 8]];
    ToFromLE(a[i..i + 8]);
    ToFromLE(b[j..j + 8]);
    if x == y {
      assert x[..8] == y[..8] && x[8] == y[8];
    }
  }

  /**
   A rail tag whose payload holds a rail reports that rail if and only if the cursor reaches the payload, or the bytes
   it reaches instead happen to be the same.
   */
  lemma OwnRailIsReportedIff(n: Ndef)
    requires n.Valid() && n.rtype == RAIL && |n.payload| >= 9
    ensures TagReport(n) == RailAt(n.payload, 0) <==>
            n.PayloadStart() <= 255 ||
            n.Encoded()[n.PayloadStart() - 256..n.PayloadStart() - 247] == n.payload[0..9]
  {
    EncodedParts(n);
    OwnBytesIff(n.Encoded(), n.PayloadStart(), n.payload);
  }

  lemma OwnBytesIff(rec: seq<byte>, start: nat, payload: seq<byte>)
    requires start < 512 && 9 <= |payload| && start + |payload| == |rec| && rec[start..start + |payload|] == payload
    ensures RailAt(rec, start % 256) == RailAt(payload, 0) <==>
            start <= 255 || rec[start - 256..start - 247] == payload[0..9]
  {
    SliceOfSlice(rec, start, |payload|, 0, 9);
    SameRailIff(rec, start % 256, payload, 0);
  }

  /** A rail record whose id pushes the payload to position 256. */
  function FarRail(id: seq<byte>, payload: seq<byte>): (n: Ndef)
    requires |id| == 248 && |payload| == 9
    ensures n.Valid() && n.PayloadStart() == 256
  {
    Ndef(0x18, RAIL, id, payload)
  }

  lemma FarRailBytes(id: seq<byte>, payload: seq<byte>)
    requires |id| == 248 && |payload| == 9
    ensures FarRail(id, payload).Encoded() == [0x18, 4, 9, 248] + [0x72, 0x61, 0x69, 0x6C] + id + payload
  {
    assert FarRail(id, payload).Head() == [0x18, 4, 9, 248];
  }

  /** It fits an NTAG215, and makes the device report a rail put together from the record's own header, type and id. */
  lemma WrongRailIsReported(e: Endian, id: seq<byte>, payload: seq<byte>, trailing: seq<byte>)
    requires |id| == 248 && |payload| == 9
    ensures |FarRail(id, payload).Encoded()| == 265
    ensures Reported(e, Tlv(true, FarRail(id, payload).Encoded()) + trailing) ==
            RailAt([0x18, 4, 9, 248] + [0x72, 0x61, 0x69, 0x6C] + id, 0)
  {
    var n := FarRail(id, payload);
    WholeBlockReports(e, Tlv(true, n.Encoded()) + trailing, true, n, trailing);
    FarRailBytes(id, payload);
    SameFront(n.Encoded(), [0x18, 4, 9, 248] + [0x72, 0x61, 0x69, 0x6C] + id, payload);
  }

  lemma SameFront(rec: seq<byte>, front: seq<byte>, payload: seq<byte>)
    requires rec == front + payload && |front| >= 9
    ensures RailAt(rec, 0) == RailAt(front, 0)
  {
    FrontOfSum(front, payload, 9);
    SameRailIff(rec, 0, front, 0);
  }

  lemma FrontOfSum(a: seq<byte>, b: seq<byte>, n: nat)
    requires n <= |a|
    ensures (a + b)[0..n] == a[0..n]
  {
  }

  /** A rail tag without a payload, which stops the device. */
  lemma ShortRailAborts(e: Endian, trailing: seq<byte>)
    ensures var n := Ndef(0x10, RAIL, [], []);
            n.Valid() && Reported(e, Tlv(false, n.Encoded()) + trailing) == Aborts
  {
    var n := Ndef(0x10, RAIL, [], []);
    WholeBlockReports(e, Tlv(false, n.Encoded()) + trailing, false, n, trailing);
  }

  // ----- partial reads -----

  /** A read cut off inside the block reports nothing. */
  lemma CutBlockReportsNothing(e: Endian, image: seq<byte>, long: bool, n: Ndef, trailing: seq<byte>, captured: nat)
    requires TagOf(image, long, n, trailing) && 2 <= captured < TlvHeader(long) + |n.Encoded()|
    ensures Reported(e, image[..captured]) == NoReport
  {
    TlvIsFound(long, n.Encoded(), trailing);
    assert RecordView(image[..captured]) == Absent;
  }

  /**
   For any well-formed tag and any read of it, the report is the one of a full read exactly when the captured bytes hold
   the whole block, and otherwise there is none; only a read of less than two bytes makes the parser leave its data.
   */
  lemma PartialReadIsSafe(e: Endian, image: seq<byte>, long: bool, n: Ndef, trailing: seq<byte>, captured: nat)
    requires TagOf(image, long, n, trailing) && captured <= |image|
    ensures Reported(e, image) == TagReport(n)
    ensures Reported(e, image[..captured]) ==
            if captured < 2 then Faults
            else if TlvHeader(long) + |n.Encoded()| <= captured then TagReport(n) else NoReport
  {
    WholeBlockReports(e, image, long, n, trailing);
    var block := Tlv(long, n.Encoded());
    if |block| <= captured {
      assert image[..captured] == block + trailing[..captured - |block|];
      WholeBlockReports(e, image[..captured], long, n, trailing[..captured - |block|]);
    } else if captured >= 2 {
      CutBlockReportsNothing(e, image, long, n, trailing, captured);
    }
  }

  /**
   Reading and processing one tag, as `wait_for_tag` and `process_tag` do in turn. A read whose very first group fails
   still counts as partial, and the parser then looks at a byte that was never captured; a whole read of an NTAG216
   writes outside the buffer.
   */
  method ScanTag(e: Endian, m: Model, image: seq<byte>, good: nat,
                 ghost long: bool, ghost n: Ndef, ghost trailing: seq<byte>)
    returns (r: Report)
    requires |image| >= 16 * Groups(m) && TagOf(image, long, n, trailing)
    ensures r == if m == Unknown then NoReport
                 else if good == 0 || (m == Ntag216 && good >= 56) then Faults
                 else if TlvHeader(long) + |n.Encoded()| <= Captured(m, good) then TagReport(n) else NoReport
    ensures good >= 56 && (m == Ntag213 || m == Ntag215) ==>
              var size := TlvHeader(long) + |n.Encoded()|;
              r == if size <= (if m == Ntag213 then 144 else 512) then TagReport(n) else NoReport
  {
    if good >= 56 {
      WholeReadIsCaptured(m, good);
    }
    var state, data, bytesRead, beyond := ReadPage(m, image, good);
    if state == ReadFails {
      return NoReport;
    }
    if beyond != [] {
      return Faults;
    }
    PartialReadIsSafe(e, image, long, n, trailing, Captured(m, good));
    r := ProcessTag(e, data[..bytesRead]);
  }
}
