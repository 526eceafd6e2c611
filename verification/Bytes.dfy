/** Bytes, and numbers written as little-endian byte sequences. */
module Bytes {
  type byte = n: int | 0 <= n < 256

  function Pow256(n: nat): (r: nat)
    ensures r >= 1
  {
    if n == 0 then 1 else 256 * Pow256(n - 1)
  }

  function ToLE(size: nat, v: nat): (bs: seq<byte>)
    ensures |bs| == size
  {
    if size == 0 then [] else [v % 256] + ToLE(size - 1, v / 256)
  }

  function FromLE(bs: seq<byte>): (v: nat)
    ensures v < Pow256(|bs|)
  {
    if bs == [] then 0 else bs[0] + 256 * FromLE(bs[1..])
  }

  lemma {:induction false} FromToLE(size: nat, v: nat)
    requires v < Pow256(size)
    ensures FromLE(ToLE(size, v)) == v
  {
    if size > 0 {
      FromToLE(size - 1, v / 256);
      assert ToLE(size, v)[1..] == ToLE(size - 1, v / 256);
    }
  }

  lemma {:induction false} ToFromLE(bs: seq<byte>)
    ensures ToLE(|bs|, FromLE(bs)) == bs
  {
    if bs != [] {
      ToFromLE(bs[1..]);
      assert FromLE(bs) % 256 == bs[0] && FromLE(bs) / 256 == FromLE(bs[1..]);
    }
  }

  function Reversed(bs: seq<byte>): (r: seq<byte>)
    ensures |r| == |bs|
    ensures forall i :: 0 <= i < |bs| ==> r[i] == bs[|bs| - 1 - i]
  {
    if bs == [] then [] else Reversed(bs[1..]) + [bs[0]]
  }

  lemma ReversedTwice(bs: seq<byte>)
    ensures Reversed(Reversed(bs)) == bs
  {
  }

  lemma Regroup<T>(a: seq<T>, b: seq<T>, c: seq<T>)
    ensures a + b + c == a + (b + c)
  {
  }

  lemma TakeNext<T>(s: seq<T>, i: nat)
    requires i < |s|
    ensures s[..i] + [s[i]] == s[..i + 1]
  {
  }

  lemma DropNext<T>(s: seq<T>, i: nat)
    requires i < |s|
    ensures s[i..][0] == s[i] && s[i..][1..] == s[i + 1..]
  {
  }

  lemma TakeAll<T>(s: seq<T>)
    ensures s[..|s|] == s
  {
  }

  lemma Split<T>(a: seq<T>, b: seq<T>)
    ensures (a + b)[..|a|] == a && (a + b)[|a|..] == b
  {
  }

  /** A buffer with some bytes written over it from `at` on. */
  function Overlay(s: seq<byte>, at: nat, bytes: seq<byte>): (r: seq<byte>)
    requires at + |bytes| <= |s|
    ensures |r| == |s| && (bytes == [] ==> r == s)
  {
    s[..at] + bytes + s[at + |bytes|..]
  }

  lemma OverlaidTwice(s: seq<byte>, at: nat, first: seq<byte>, second: seq<byte>)
    requires at + |first| + |second| <= |s|
    ensures Overlay(Overlay(s, at, first), at + |first|, second) == Overlay(s, at, first + second)
  {
  }

  lemma OverlaidPart(s: seq<byte>, at: nat, bytes: seq<byte>)
    requires at + |bytes| <= |s|
    ensures Overlay(s, at, bytes)[at..at + |bytes|] == bytes
  {
  }

  lemma ZeroesBehind(zeroes: seq<byte>, bytes: seq<byte>)
    requires |bytes| <= |zeroes| && forall b :: b in zeroes ==> b == 0
    ensures var s := Overlay(zeroes, 0, bytes); s[..|bytes|] == bytes && forall b :: b in s[|bytes|..] ==> b == 0
  {
    var s := Overlay(zeroes, 0, bytes);
    assert s[..|bytes|] == bytes && s[|bytes|..] == zeroes[|bytes|..];
    forall b | b in s[|bytes|..] ensures b == 0 {
      assert b in zeroes;
    }
  }
}
