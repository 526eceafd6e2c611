/**
 Asio's stream buffer (vendors/asio-1.36.0/include/asio/basic_streambuf.hpp): one resizable character array with a get
 area and a put area, moved by four pointers, that behaves as a byte queue of bounded size.

 Pointers are offsets into the array. A thrown `length_error` is reported as a result, and ends the use of the buffer.
 */
module StreamBuf {
  import opened Wrappers
  import opened Bytes

  const BUFFER_DELTA: nat := 128
  const INT_MAX: nat := 0x7FFF_FFFF

  function Max(a: nat, b: nat): nat { if a >= b then a else b }
  function Min(a: nat, b: nat): nat { if a <= b then a else b }

  /** `static_cast<int>` of a `size_t`. */
  function AsInt(n: nat): int {
    var low := n % 0x1_0000_0000;
    if low <= INT_MAX then low else low - 0x1_0000_0000
  }

  /** `pbump` and `gbump` move by what they were told exactly when it fits an `int`. */
  lemma AsIntExactIff(n: nat)
    ensures AsInt(n) == n <==> n <= INT_MAX
  {
  }

  /** `memmove` of `buf[from..from + n]` to the front. */
  function MovedToFront(buf: seq<byte>, from: nat, n: nat): (r: seq<byte>)
    requires from + n <= |buf|
    ensures |r| == |buf| && r[..n] == buf[from..from + n]
  {
    buf[from..from + n] + buf[n..]
  }

  /** `vector::resize`, which keeps the elements that still fit and appends zeroes. */
  function Resized(buf: seq<byte>, n: nat): (r: seq<byte>)
    ensures |r| == n && forall i :: 0 <= i < Min(n, |buf|) ==> r[i] == buf[i]
  {
    if n <= |buf| then buf[..n] else buf + seq(n - |buf|, _ => 0)
  }

  class StreamBuf {
    const maxSize: nat
    var buffer: seq<byte>
    var gptr: int
    var egptr: int
    var pptr: int
    var epptr: int

    ghost predicate Valid()
      reads this
    {
      && 0 <= gptr <= egptr <= pptr <= epptr <= maxSize
      && |buffer| == Max(epptr, 1)
    }

    /** The queue: the characters from `gptr` to `pptr`. */
    ghost function Contents(): seq<byte>
      requires Valid()
      reads this
    {
      buffer[gptr..pptr]
    }

    /** The space already allocated behind the queue. */
    ghost function PutArea(): seq<byte>
      requires Valid()
      reads this
    {
      buffer[pptr..epptr]
    }

    constructor (maximumSize: nat)
      ensures Valid() && maxSize == maximumSize && Contents() == []
    {
      maxSize := maximumSize;
      var pend := Min(maximumSize, BUFFER_DELTA);
      buffer := seq(Max(pend, 1), _ => 0);
      gptr, egptr, pptr, epptr := 0, 0, 0, pend;
    }

    method Size() returns (n: nat)
      requires Valid()
      ensures n == |Contents()| <= maxSize
    {
      n := pptr - gptr;
    }

    method Data() returns (bytes: seq<byte>)
      requires Valid()
      ensures bytes == Contents()
    {
      bytes := buffer[gptr..pptr];
    }

    /** Makes room for `n` more characters, or reports that they can never fit. */
    method Reserve(n: nat) returns (threw: bool)
      requires Valid()
      modifies this
      ensures threw <==> |old(Contents())| + n > maxSize
      ensures !threw ==> Valid() && Contents() == old(Contents()) && |PutArea()| >= n
    {
      var gnext, pnext, pend := gptr, pptr, epptr;
      if n <= pend - pnext {
        return false;
      }
      if gnext > 0 {
        pnext := pnext - gnext;
        buffer := MovedToFront(buffer, gnext, pnext);
      }
      assert buffer[..pnext] == old(Contents());
      if n > pend - pnext {
        if n <= maxSize && pnext <= maxSize - n {
          pend := pnext + n;
          ghost var before := buffer;
          buffer := Resized(buffer, Max(pend, 1));
          assert buffer[..pnext] == before[..pnext];
        } else {
          return true;
        }
      }
      gptr, egptr := 0, pnext;
      pptr, epptr := pnext, pend;
      threw := false;
    }

    method Prepare(n: nat) returns (threw: bool)
      requires Valid()
      modifies this
      ensures threw <==> |old(Contents())| + n > maxSize
      ensures !threw ==> Valid() && Contents() == old(Contents()) && |PutArea()| >= n
    {
      threw := Reserve(n);
    }

    /** What the caller does with the space that `Prepare` returned. */
    method Fill(bytes: seq<byte>)
      requires Valid() && |bytes| <= |PutArea()|
      modifies this`buffer
      ensures Valid() && Contents() == old(Contents())
      ensures PutArea() == bytes + old(PutArea())[|bytes|..]
    {
      buffer := buffer[..pptr] + bytes + buffer[pptr + |bytes|..];
    }

    /** The pointer moves by the count that was asked for, and the queue grows by it, exactly when it fits an `int`. */
    method Commit(n: nat)
      requires Valid()
      modifies this`pptr, this`egptr
      ensures var k := Min(n, |old(PutArea())|);
              && (pptr == old(pptr) + k <==> k <= INT_MAX)
              && (k <= INT_MAX ==> Valid() && Contents() == old(Contents()) + old(PutArea())[..k]
                                   && PutArea() == old(PutArea())[k..])
    {
      var k := Min(n, epptr - pptr);
      AsIntExactIff(k);
      pptr := pptr + AsInt(k);
      egptr := pptr;
    }

    /** Likewise. */
    method Consume(n: nat)
      requires Valid()
      modifies this`gptr, this`egptr
      ensures var k := Min(n, |old(Contents())|);
              && (gptr == old(gptr) + k <==> k <= INT_MAX)
              && (k <= INT_MAX ==> Valid() && Contents() == old(Contents())[k..] && PutArea() == old(PutArea()))
    {
      if egptr < pptr {
        egptr := pptr;
      }
      var k := n;
      if gptr + k > pptr {
        k := pptr - gptr;
      }
      AsIntExactIff(k);
      gptr := gptr + AsInt(k);
    }

    /** The next character without taking it, or end of file when the queue is empty. */
    method Underflow() returns (c: Option<byte>)
      requires Valid()
      modifies this`egptr
      ensures Valid() && Contents() == old(Contents()) && PutArea() == old(PutArea())
      ensures c == if Contents() == [] then None else Some(Contents()[0])
      ensures c.Some? ==> egptr == pptr
    {
      if gptr < pptr {
        egptr := pptr;
        return Some(buffer[gptr]);
      }
      c := None;
    }

    /** Appends a character; end of file is no character and changes nothing. */
    method Overflow(c: Option<byte>) returns (threw: bool)
      requires Valid()
      modifies this
      ensures threw <==> c.Some? && |old(Contents())| == maxSize
      ensures !threw ==> Valid() && Contents() == old(Contents()) + (if c.Some? then [c.value] else [])
      ensures c.None? ==> PutArea() == old(PutArea())
    {
      if c.None? {
        return false;
      }
      if pptr == epptr {
        var size := pptr - gptr;
        if size < maxSize && maxSize - size < BUFFER_DELTA {
          threw := Reserve(maxSize - size);
        } else {
          threw := Reserve(BUFFER_DELTA);
        }
        if threw {
          return true;
        }
      }
      assert Contents() == old(Contents());
      OneMoreCharacter(buffer, gptr, pptr, c.value);
      buffer := buffer[pptr := c.value];
      pptr := pptr + 1;
      threw := false;
    }
  }

  lemma OneMoreCharacter(buf: seq<byte>, from: nat, to: nat, c: byte)
    requires from <= to < |buf|
    ensures buf[to := c][from..to + 1] == buf[from..to] + [c]
  {
  }

  // ----- whole runs -----

  /**
   What a user does with a buffer: ask for space, write into the space, commit some of what was written, put a character
   or end of file, peek at the next character, look at all of them, or drop some.
   */
  datatype Op =
    | Prepare(n: nat) | Fill(bytes: seq<byte>) | Commit(n: nat)
    | Put(c: Option<byte>)
    | Peek | Look | Drop(n: nat)

  /** A plain queue, with the space its user may still write to and what has been written there. */
  datatype Queue = Queue(contents: seq<byte>, room: nat, written: seq<byte>)

  /**
   The same operations on the plain queue, and what each of them shows its user; `None` is a queue that would have
   outgrown its cap.
   */
  function QueueStep(max: nat, q: Queue, op: Op): Option<(Queue, seq<byte>)> {
    match op
    case Prepare(n) => if |q.contents| + n <= max then Some((Queue(q.contents, n, []), [])) else None
    case Fill(bytes) => Some((q.(written := bytes + q.written[Min(|bytes|, |q.written|)..]), []))
    case Commit(n) =>
      var k := Min(n, |q.written|);
      Some((Queue(q.contents + q.written[..k], if k <= q.room then q.room - k else 0, q.written[k..]), []))
    case Put(None) => Some((q, []))
    case Put(Some(c)) => if |q.contents| < max then Some((Queue(q.contents + [c], 0, []), [])) else None
    case Peek => Some((q, q.contents[..Min(1, |q.contents|)]))
    case Look => Some((q, q.contents))
    case Drop(n) => Some((q.(contents := q.contents[Min(n, |q.contents|)..]), []))
  }

  datatype Outcome = Outcome(end: Option<Queue>, shown: seq<seq<byte>>)

  /** A whole run, up to the operation that throws, and all it showed. */
  function QueueRun(max: nat, q: Queue, ops: seq<Op>): Outcome
    decreases |ops|
  {
    if ops == [] then Outcome(Some(q), [])
    else
      var next := QueueStep(max, q, ops[0]);
      if next.None? then Outcome(None, [])
      else
        var rest := QueueRun(max, next.value.0, ops[1..]);
        rest.(shown := [next.value.1] + rest.shown)
  }

  /**
   What the buffer demands of its user: to write only where space was prepared, to commit no more than was written, and
   not to move a pointer by more than an `int` holds.
   */
  predicate Allowed(q: Queue, op: Op) {
    match op
    case Fill(bytes) => |bytes| <= q.room
    case Commit(n) => n <= |q.written| && n <= INT_MAX
    case Drop(n) => Min(n, |q.contents|) <= INT_MAX
    case _ => true
  }

  predicate AllAllowed(max: nat, q: Queue, ops: seq<Op>)
    decreases |ops|
  {
    ops != [] ==>
      && Allowed(q, ops[0])
      && var next := QueueStep(max, q, ops[0]);
         (next.Some? ==> AllAllowed(max, next.value.0, ops[1..]))
  }

  /** A buffer that holds a queue, with at least the space and the written bytes its user knows of. */
  ghost predicate Holds(sb: StreamBuf, q: Queue)
    reads sb
  {
    sb.Valid() && sb.Contents() == q.contents && |q.written| <= q.room <= |sb.PutArea()| && q.written <= sb.PutArea()
  }

  lemma WritingKeepsPrefix(written: seq<byte>, put: seq<byte>, bytes: seq<byte>)
    requires written <= put && |bytes| <= |put|
    ensures bytes + written[Min(|bytes|, |written|)..] <= bytes + put[|bytes|..]
  {
    if |bytes| < |written| {
      assert put[|bytes|..][..|written| - |bytes|] == written[|bytes|..];
    }
  }

  lemma CommittingKeepsPrefix(written: seq<byte>, put: seq<byte>, n: nat)
    requires written <= put && n <= |written|
    ensures written[..n] == put[..n] && written[n..] <= put[n..]
  {
  }

  /** One operation on a stream buffer is the same operation on a plain queue. */
  method Perform(sb: StreamBuf, op: Op, ghost q: Queue) returns (threw: bool, shown: seq<byte>)
    requires Holds(sb, q) && Allowed(q, op)
    modifies sb
    ensures threw <==> QueueStep(sb.maxSize, q, op).None?
    ensures !threw ==> QueueStep(sb.maxSize, q, op).value.1 == shown && Holds(sb, QueueStep(sb.maxSize, q, op).value.0)
  {
    threw, shown := false, [];
    match op
    case Prepare(n) => threw := sb.Prepare(n);
    case Fill(bytes) =>
      WritingKeepsPrefix(q.written, sb.PutArea(), bytes);
      sb.Fill(bytes);
    case Commit(n) =>
      CommittingKeepsPrefix(q.written, sb.PutArea(), n);
      sb.Commit(n);
    case Put(c) => threw := sb.Overflow(c);
    case Peek =>
      var c := sb.Underflow();
      shown := if c.Some? then [c.value] else [];
    case Look => shown := sb.Data();
    case Drop(n) => sb.Consume(n);
  }

  /**
   Every allowed run of operations on a stream buffer shows its user what the same run shows on a bounded byte queue,
   and throws exactly with it.
   */
  method BehavesAsQueue(sb: StreamBuf, ops: seq<Op>, ghost q: Queue) returns (threw: bool, shown: seq<seq<byte>>)
    requires Holds(sb, q) && AllAllowed(sb.maxSize, q, ops)
    modifies sb
    ensures var outcome := QueueRun(sb.maxSize, q, ops);
            && shown == outcome.shown && (threw <==> outcome.end.None?)
            && (!threw ==> Holds(sb, outcome.end.value))
  {
    ghost var outcome, now := QueueRun(sb.maxSize, q, ops), q;
    shown := [];
    for i := 0 to |ops|
      invariant Holds(sb, now) && AllAllowed(sb.maxSize, now, ops[i..])
      invariant var rest := QueueRun(sb.maxSize, now, ops[i..]);
                outcome == rest.(shown := shown + rest.shown)
    {
      assert ops[i..][0] == ops[i] && ops[i..][1..] == ops[i + 1..];
      var one: seq<byte>;
      threw, one := Perform(sb, ops[i], now);
      if threw {
        return;
      }
      ghost var next := QueueStep(sb.maxSize, now, ops[i]).value.0;
      Regroup(shown, [one], QueueRun(sb.maxSize, next, ops[i + 1..]).shown);
      shown, now := shown + [one], next;
    }
    threw := false;
  }
}
