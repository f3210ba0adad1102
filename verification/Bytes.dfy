/** Bytes, the machine constants the components share, and the flat byte file that
    the page cache must look like from outside. */
module Bytes {

  newtype byte = x: int | 0 <= x < 256

  const PAGE_SIZE: nat := 4096
  const USIZE_MAX: nat := 0xFFFF_FFFF_FFFF_FFFF

  function Min(a: nat, b: nat): nat {
    if a <= b then a else b
  }

  function Max(a: nat, b: nat): nat {
    if a <= b then b else a
  }

  /** Number of pages needed to hold `n` bytes. */
  function PagesFor(n: nat): nat {
    (n + PAGE_SIZE - 1) / PAGE_SIZE
  }

  function Zeros(n: nat): seq<byte> {
    seq(n, _ => 0)
  }

  /** The byte at `i`, reading zero past the end. */
  function At(s: seq<byte>, i: nat): byte {
    if i < |s| then s[i] else 0
  }

  /** `s` with the bytes from `off` on replaced by `data`. */
  function Overlay(s: seq<byte>, off: nat, data: seq<byte>): (r: seq<byte>)
    requires off + |data| <= |s|
    ensures |r| == |s|
    ensures forall j | 0 <= j < |s| :: r[j] == if off <= j < off + |data| then data[j - off] else s[j]
  {
    s[..off] + data + s[off + |data|..]
  }

  // ---- The flat byte file: the reference every cached file is compared with ----

  /** Writing at `off` zero-fills any gap and never shortens the file. */
  function FlatWrite(f: seq<byte>, off: nat, data: seq<byte>): seq<byte> {
    seq(Max(|f|, off + |data|), (i: nat) => if off <= i < off + |data| then data[i - off] else At(f, i))
  }

  /** Cuts the file or extends it with zeros. */
  function FlatTruncate(f: seq<byte>, n: nat): seq<byte> {
    seq(n, (i: nat) => At(f, i))
  }

  /** Zeroes `[off, off + len)` without changing the length. */
  function FlatPunch(f: seq<byte>, off: nat, len: nat): seq<byte> {
    seq(|f|, i requires 0 <= i < |f| => if off <= i < off + len then 0 else f[i])
  }

  /** What a read of `len` bytes at `off` returns: clipped at the end of the file. */
  function FlatRead(f: seq<byte>, off: nat, len: nat): seq<byte> {
    if off >= |f| then [] else f[off..Min(|f|, off + len)]
  }

  /** A write that stopped after `m` bytes: the length was raised first, then a prefix landed. */
  function FlatPartial(f: seq<byte>, off: nat, data: seq<byte>, m: nat): seq<byte>
    requires m <= |data|
  {
    FlatWrite(FlatTruncate(f, Max(|f|, off + |data|)), off, data[..m])
  }

  /** What was written is read back. Other bytes are what they were, and a gap before the data reads as
      zeros. */
  lemma WriteThenRead(f: seq<byte>, off: nat, data: seq<byte>, i: nat)
    ensures var g := FlatWrite(f, off, data);
      && FlatRead(g, off, |data|) == data && |f| <= |g|
      && (i < |f| && !(off <= i < off + |data|) ==> FlatRead(g, i, 1) == FlatRead(f, i, 1) == [f[i]])
      && (|f| <= i < off ==> FlatRead(g, i, 1) == [0])
  {
    var g := FlatWrite(f, off, data);
    if data != [] {
      assert FlatRead(g, off, |data|) == g[off..off + |data|];
      forall j | 0 <= j < |data| ensures g[off..off + |data|][j] == data[j] { assert g[off + j] == data[j]; }
    }
    OneByte(g, i);
    OneByte(f, i);
  }

  lemma OneByte(f: seq<byte>, i: nat)
    ensures i < |f| ==> FlatRead(f, i, 1) == [f[i]]
  {
  }

  /** Cutting and growing keep what is before both ends, and what comes back is zero. */
  lemma TruncateThenRead(f: seq<byte>, n: nat, m: nat, i: nat)
    ensures var g := FlatTruncate(FlatTruncate(f, n), m);
      |g| == m && (i < m ==> FlatRead(g, i, 1) == [if i < n && i < |f| then f[i] else 0])
  {
  }

  /** A hole reads as zeros and nothing else changes. */
  lemma PunchThenRead(f: seq<byte>, off: nat, len: nat, i: nat)
    ensures var g := FlatPunch(f, off, len);
      |g| == |f| && (i < |f| ==> FlatRead(g, i, 1) == [if off <= i < off + len then 0 else f[i]])
  {
  }

  /** A write of nothing changes a file exactly if it is past the end. */
  lemma EmptyWrite(f: seq<byte>, off: nat)
    ensures FlatPartial(f, off, [], 0) == f <==> off <= |f|
  {
  }

  lemma FullPartialIsWrite(f: seq<byte>, off: nat, data: seq<byte>)
    ensures FlatPartial(f, off, data, |data|) == FlatWrite(f, off, data)
  {
  }
}
