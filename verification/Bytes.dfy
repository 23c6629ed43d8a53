/** Little-endian numbers in byte blocks: how the kernel's structures lie on the disk. */
module Bytes {

  type Byte = b: nat | b < 256

  const BLOCK_SIZE: nat := 512

  datatype Raw = Raw(bytes: seq<Byte>)

  type Block = b: Raw | |b.bytes| == BLOCK_SIZE witness Raw(Fill(0, BLOCK_SIZE))

  function Fill(v: Byte, n: nat): (r: seq<Byte>)
    ensures |r| == n && forall i :: 0 <= i < n ==> r[i] == v
  {
    seq(n, _ => v)
  }

  function Zeroes(): Block {
    Raw(Fill(0, BLOCK_SIZE))
  }

  function Pow256(k: nat): nat {
    if k == 0 then 1 else 256 * Pow256(k - 1)
  }

  function ToBytes(v: nat, k: nat): (r: seq<Byte>)
    ensures |r| == k
  {
    if k == 0 then [] else [v % 256] + ToBytes(v / 256, k - 1)
  }

  function FromBytes(b: seq<Byte>): nat {
    if b == [] then 0 else b[0] + 256 * FromBytes(b[1..])
  }

  lemma {:induction false} FromToBytes(v: nat, k: nat)
    requires v < Pow256(k)
    ensures FromBytes(ToBytes(v, k)) == v
    decreases k
  {
    if k > 0 {
      FromToBytes(v / 256, k - 1);
      assert ToBytes(v, k)[1..] == ToBytes(v / 256, k - 1);
    }
  }

  lemma {:induction false} ToFromBytes(b: seq<Byte>)
    ensures FromBytes(b) < Pow256(|b|) && ToBytes(FromBytes(b), |b|) == b
    decreases |b|
  {
    if b != [] {
      ToFromBytes(b[1..]);
      var r, v := FromBytes(b[1..]), FromBytes(b);
      Digits(b[0], r);
      assert ToBytes(v, |b|) == [b[0]] + ToBytes(r, |b| - 1);
    }
  }

  lemma Digits(d: Byte, r: nat)
    ensures (d + 256 * r) % 256 == d && (d + 256 * r) / 256 == r
  {
  }

  // ----- part of a block

  /** `memcpy` of `x` to offset `off`. */
  function Splice(b: seq<Byte>, off: nat, x: seq<Byte>): (r: seq<Byte>)
    requires off + |x| <= |b|
    ensures |r| == |b|
    ensures forall i :: 0 <= i < |b| ==> r[i] == if off <= i < off + |x| then x[i - off] else b[i]
  {
    b[..off] + x + b[off + |x|..]
  }

  function WordAt(b: seq<Byte>, off: nat, k: nat): nat
    requires off + k <= |b|
  {
    FromBytes(b[off..off + k])
  }

  /** Reading back what was written, and the parts beside it. */
  lemma {:induction false} SliceSpliced(b: seq<Byte>, off: nat, x: seq<Byte>, off': nat)
    requires off + |x| <= |b| && off' + |x| <= |b|
    requires off == off' || off + |x| <= off' || off' + |x| <= off
    ensures Splice(b, off, x)[off'..off' + |x|] == if off == off' then x else b[off'..off' + |x|]
  {
  }

  lemma {:induction false} WordSpliced(b: seq<Byte>, off: nat, k: nat, v: nat, off': nat)
    requires off + k <= |b| && off' + k <= |b| && v < Pow256(k)
    requires off == off' || off + k <= off' || off' + k <= off
    ensures WordAt(Splice(b, off, ToBytes(v, k)), off', k) == if off == off' then v else WordAt(b, off', k)
  {
    FromToBytes(v, k);
    SliceSpliced(b, off, ToBytes(v, k), off');
  }

  // ----- a sequence of numbers of `k` bytes each

  function Pack(ws: seq<nat>, k: nat): (r: seq<Byte>)
    ensures |r| == k * |ws|
  {
    if ws == [] then [] else ToBytes(ws[0], k) + Pack(ws[1..], k)
  }

  function Unpack(b: seq<Byte>, k: nat, n: nat): (ws: seq<nat>)
    requires |b| == k * n
    ensures |ws| == n
    decreases n
  {
    if n == 0 then [] else [FromBytes(b[..k])] + Unpack(b[k..], k, n - 1)
  }

  lemma {:induction false} UnpackPack(ws: seq<nat>, k: nat)
    requires forall i :: 0 <= i < |ws| ==> ws[i] < Pow256(k)
    ensures Unpack(Pack(ws, k), k, |ws|) == ws
    decreases |ws|
  {
    if ws != [] {
      FromToBytes(ws[0], k);
      UnpackPack(ws[1..], k);
      var b := Pack(ws, k);
      assert b[..k] == ToBytes(ws[0], k) && b[k..] == Pack(ws[1..], k);
    }
  }

  lemma {:induction false} UnpackedFit(b: seq<Byte>, k: nat, n: nat)
    requires |b| == k * n
    ensures forall i :: 0 <= i < n ==> Unpack(b, k, n)[i] < Pow256(k)
    decreases n
  {
    if n > 0 {
      ToFromBytes(b[..k]);
      UnpackedFit(b[k..], k, n - 1);
    }
  }

  lemma {:induction false} Within(k: nat, i: nat, n: nat)
    requires i < n
    ensures k * i + k <= k * n && (i > 0 ==> k * i == k * (i - 1) + k)
  {
    assert k * n == k * i + k * (n - i);
    assert k * (n - i) == k + k * (n - i - 1);
  }

  /** Number `i` starts at byte `k * i`. */
  lemma {:induction false} UnpackedWord(b: seq<Byte>, k: nat, n: nat, i: nat)
    requires |b| == k * n && i < n
    ensures k * i + k <= |b| && Unpack(b, k, n)[i] == WordAt(b, k * i, k)
    decreases n
  {
    Within(k, i, n);
    if i > 0 {
      Within(k, 0, n);
      UnpackedWord(b[k..], k, n - 1, i - 1);
      assert b[k..][k * (i - 1)..k * (i - 1) + k] == b[k * i..k * i + k];
    }
  }

  lemma {:induction false} PackedWord(ws: seq<nat>, k: nat, i: nat)
    requires i < |ws| && forall j :: 0 <= j < |ws| ==> ws[j] < Pow256(k)
    ensures k * i + k <= |Pack(ws, k)| && WordAt(Pack(ws, k), k * i, k) == ws[i]
  {
    UnpackPack(ws, k);
    UnpackedWord(Pack(ws, k), k, |ws|, i);
  }

  // ----- what these numbers are

  /** The sum of the first `n` bytes, each times its power of 256. */
  function Weighted(b: seq<Byte>, n: nat): nat
    requires n <= |b|
  {
    if n == 0 then 0 else Weighted(b, n - 1) + b[n - 1] * Pow256(n - 1)
  }

  lemma {:induction false} WeightedTail(b: seq<Byte>, n: nat)
    requires n < |b|
    ensures Weighted(b, n + 1) == b[0] + 256 * Weighted(b[1..], n)
    decreases n
  {
    if n > 0 {
      WeightedTail(b, n - 1);
      assert b[n] * Pow256(n) == 256 * (b[1..][n - 1] * Pow256(n - 1));
    }
  }

  /** The first byte is the lowest. */
  lemma {:induction false} LittleEndian(b: seq<Byte>)
    ensures FromBytes(b) == Weighted(b, |b|)
    decreases |b|
  {
    if b != [] {
      LittleEndian(b[1..]);
      WeightedTail(b, |b| - 1);
    }
  }
}
