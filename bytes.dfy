/** Little-endian integer fields inside byte strings, as Python's `struct`
    module reads them in native layout on a little-endian machine. */
module Bytes {

  type Byte = x: int | 0 <= x < 256

  const Two63: int := 0x8000_0000_0000_0000
  const Two64: int := 0x1_0000_0000_0000_0000

  function Pow256(n: nat): nat {
    if n == 0 then 1 else 256 * Pow256(n - 1)
  }

  /** The unsigned value of a little-endian byte string. */
  function LE(s: seq<Byte>): (v: nat)
    ensures v < Pow256(|s|)
  {
    if s == [] then 0 else s[0] + 256 * LE(s[1..])
  }

  /** The `n` little-endian bytes of `v` (taken modulo 256^n). */
  function ToLE(v: nat, n: nat): (s: seq<Byte>)
    ensures |s| == n
  {
    if n == 0 then [] else [v % 256] + ToLE(v / 256, n - 1)
  }

  function Zeros(n: nat): (s: seq<Byte>)
    ensures |s| == n && forall i :: 0 <= i < n ==> s[i] == 0
  {
    seq(n, _ => 0)
  }

  /** Encoding a value that fits and decoding it again gives the value back. */
  lemma {:induction false} LEOfToLE(v: nat, n: nat)
    requires v < Pow256(n)
    ensures LE(ToLE(v, n)) == v
  {
    if n > 0 {
      LEOfToLE(v / 256, n - 1);
      assert ToLE(v, n)[1..] == ToLE(v / 256, n - 1);
    }
  }

  /** Decoding bytes and encoding the value again gives the bytes back. */
  lemma {:induction false} ToLEOfLE(s: seq<Byte>)
    ensures ToLE(LE(s), |s|) == s
  {
    if s != [] {
      ToLEOfLE(s[1..]);
      assert LE(s) % 256 == s[0];
      assert LE(s) / 256 == LE(s[1..]);
    }
  }

  /** Unsigned 32-bit field at byte offset `off` ("I"). */
  function U32At(buf: seq<Byte>, off: nat): nat
    requires off + 4 <= |buf|
  {
    buf[off] as int + 0x100 * (buf[off + 1] as int) + 0x1_0000 * (buf[off + 2] as int)
    + 0x100_0000 * (buf[off + 3] as int)
  }

  /** Unsigned 64-bit field at byte offset `off` ("Q"). */
  function U64At(buf: seq<Byte>, off: nat): nat
    requires off + 8 <= |buf|
  {
    U32At(buf, off) + 0x1_0000_0000 * U32At(buf, off + 4)
  }

  /** The fixed-width reads are the little-endian value of their bytes. */
  lemma U32AtIsLE(buf: seq<Byte>, off: nat)
    requires off + 4 <= |buf|
    ensures U32At(buf, off) == LE(buf[off..off + 4])
  {
    var s := buf[off..off + 4];
    assert s[1..][1..][1..][1..] == [];
    assert LE(s[1..][1..][1..]) == s[3];
    assert LE(s[1..][1..]) == s[2] as int + 256 * (s[3] as int);
    assert LE(s[1..]) == s[1] as int + 256 * (s[2] as int) + 0x1_0000 * (s[3] as int);
  }

  /** The arithmetic step of `LEAppend`, on plain numbers. */
  lemma Distribute(a0: int, x: int, p: int, y: int, whole: int, front: int, q: int)
    requires whole == a0 + 256 * (x + p * y) && front == a0 + 256 * x && q == 256 * p
    ensures whole == front + q * y
  {
  }

  /** The value of a concatenation: the second part counts |a| bytes higher. */
  lemma {:induction false} LEAppend(a: seq<Byte>, b: seq<Byte>)
    ensures LE(a + b) == LE(a) + Pow256(|a|) * LE(b)
  {
    if a == [] {
      assert a + b == b;
    } else {
      assert (a + b)[1..] == a[1..] + b;
      LEAppend(a[1..], b);
      assert (a + b)[0] == a[0];
      Distribute(a[0] as int, LE(a[1..]), Pow256(|a| - 1), LE(b), LE(a + b), LE(a), Pow256(|a|));
    }
  }

  lemma U64AtIsLE(buf: seq<Byte>, off: nat)
    requires off + 8 <= |buf|
    ensures U64At(buf, off) == LE(buf[off..off + 8])
  {
    U32AtIsLE(buf, off);
    U32AtIsLE(buf, off + 4);
    assert buf[off..off + 8] == buf[off..off + 4] + buf[off + 4..off + 8];
    LEAppend(buf[off..off + 4], buf[off + 4..off + 8]);
    assert Pow256(4) == 0x1_0000_0000;
  }

  /** Signed two's-complement 64-bit field at byte offset `off` ("q"). */
  function I64At(buf: seq<Byte>, off: nat): (v: int)
    requires off + 8 <= |buf|
    ensures -Two63 <= v < Two63
    ensures v >= 0 <==> U64At(buf, off) < Two63
  {
    var u := U64At(buf, off);
    U64AtIsLE(buf, off);
    assert Pow256(8) == Two64;
    if u < Two63 then u else u - Two64
  }

  /** The eight bytes that hold a signed 64-bit value. */
  function ToLESigned64(v: int): (s: seq<Byte>)
    requires -Two63 <= v < Two63
    ensures |s| == 8
  {
    if v >= 0 then ToLE(v, 8) else ToLE(v + Two64, 8)
  }

  lemma SignedRoundTrip(v: int, pre: seq<Byte>, post: seq<Byte>)
    requires -Two63 <= v < Two63
    ensures I64At(pre + ToLESigned64(v) + post, |pre|) == v
  {
    var buf := pre + ToLESigned64(v) + post;
    assert buf[|pre|..|pre| + 8] == ToLESigned64(v);
    U64AtIsLE(buf, |pre|);
    assert Pow256(8) == Two64;
    if v >= 0 { LEOfToLE(v, 8); } else { LEOfToLE(v + Two64, 8); }
  }

  /** A 32-bit field written at offset |pre| is read back from that offset. */
  lemma Field32At(pre: seq<Byte>, v: nat, post: seq<Byte>)
    requires v < Pow256(4)
    ensures U32At(pre + ToLE(v, 4) + post, |pre|) == v
  {
    var buf := pre + ToLE(v, 4) + post;
    assert buf[|pre|..|pre| + 4] == ToLE(v, 4);
    U32AtIsLE(buf, |pre|);
    LEOfToLE(v, 4);
  }

  /** A 64-bit field written at offset |pre| is read back from that offset. */
  lemma Field64At(pre: seq<Byte>, v: nat, post: seq<Byte>)
    requires v < Pow256(8)
    ensures U64At(pre + ToLE(v, 8) + post, |pre|) == v
  {
    var buf := pre + ToLE(v, 8) + post;
    assert buf[|pre|..|pre| + 8] == ToLE(v, 8);
    U64AtIsLE(buf, |pre|);
    LEOfToLE(v, 8);
  }

  /** Regrouping a concatenation around a middle part. */
  lemma Regroup(pre: seq<Byte>, a: seq<Byte>, f: seq<Byte>, b: seq<Byte>, post: seq<Byte>)
    ensures pre + (a + f + b) + post == (pre + a) + f + (b + post)
  {
  }

  /** A 32-bit field written after `a` inside a record is read back there. */
  lemma Field32Mid(pre: seq<Byte>, a: seq<Byte>, v: nat, b: seq<Byte>, post: seq<Byte>)
    requires v < Pow256(4)
    ensures |pre| + |a| + 4 <= |pre + (a + ToLE(v, 4) + b) + post|
    ensures U32At(pre + (a + ToLE(v, 4) + b) + post, |pre| + |a|) == v
  {
    Regroup(pre, a, ToLE(v, 4), b, post);
    Field32At(pre + a, v, b + post);
  }

  /** A 64-bit field written after `a` inside a record is read back there. */
  lemma Field64Mid(pre: seq<Byte>, a: seq<Byte>, v: nat, b: seq<Byte>, post: seq<Byte>)
    requires v < Pow256(8)
    ensures |pre| + |a| + 8 <= |pre + (a + ToLE(v, 8) + b) + post|
    ensures U64At(pre + (a + ToLE(v, 8) + b) + post, |pre| + |a|) == v
  {
    Regroup(pre, a, ToLE(v, 8), b, post);
    Field64At(pre + a, v, b + post);
  }

  /** A signed 64-bit field written after `a` inside a record is read back there. */
  lemma SignedMid(pre: seq<Byte>, a: seq<Byte>, v: int, b: seq<Byte>, post: seq<Byte>)
    requires -Two63 <= v < Two63
    ensures |pre| + |a| + 8 <= |pre + (a + ToLESigned64(v) + b) + post|
    ensures I64At(pre + (a + ToLESigned64(v) + b) + post, |pre| + |a|) == v
  {
    Regroup(pre, a, ToLESigned64(v), b, post);
    SignedRoundTrip(v, pre + a, b + post);
  }
}
