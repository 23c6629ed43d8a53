/**
The write-ahead log of `src/fs/cache.c` as it lies on the disk: the header block, the log
slots behind it, what a recovery makes of a disk, and how each single block write of a
commit changes that.
*/
module LogDisk {
  import opened Bytes

  /** `LOG_MAX_SIZE` */
  const LOG_MAX: nat := 63

  /** `OP_MAX_NUM_BLOCKS` */
  const OP_MAX: nat := 10

  type Disk = map<nat, Block>

  /** The content of a block. */
  function Rd(d: Disk, b: nat): Block {
    if b in d then d[b] else Zeroes()
  }

  lemma {:induction false} RdWritten(d: Disk, x: nat, v: Block, b: nat)
    ensures Rd(d[x := v], b) == if b == x then v else Rd(d, b)
  {
  }

  /** `LogHeader` */
  datatype Header = Header(n: nat, nos: seq<nat>)

  ghost predicate Wide(ws: seq<nat>) {
    forall i :: 0 <= i < |ws| ==> ws[i] < Pow256(8)
  }

  predicate FullSize(h: Header) {
    |h.nos| == LOG_MAX
  }

  function Encode(h: Header): Block
    requires FullSize(h)
  {
    Raw(Pack([h.n] + h.nos, 8))
  }

  function Decode(b: Block): (h: Header)
    ensures FullSize(h)
  {
    var ws := Unpack(b.bytes, 8, LOG_MAX + 1);
    Header(ws[0], ws[1..])
  }

  lemma {:induction false} HeaderRoundTrip(h: Header)
    requires FullSize(h) && h.n < Pow256(8) && Wide(h.nos)
    ensures Decode(Encode(h)) == h
  {
    UnpackPack([h.n] + h.nos, 8);
  }

  /** `num_blocks` is in the first eight bytes of the header block, and block number `i` eight bytes further
      for each one before it. */
  lemma {:induction false} HeaderFields(b: Block, i: nat)
    requires i < 63
    ensures Decode(b).n == WordAt(b.bytes, 0, 8) && Decode(b).nos[i] == WordAt(b.bytes, 8 + 8 * i, 8)
  {
    hide Unpack, FromBytes;
    UnpackedWord(b.bytes, 8, 64, 0);
    UnpackedWord(b.bytes, 8, 64, i + 1);
  }

  lemma {:induction false} EncodedHeader(h: Header, i: nat)
    requires FullSize(h) && h.n < Pow256(8) && Wide(h.nos) && i < 63
    ensures WordAt(Encode(h).bytes, 0, 8) == h.n && WordAt(Encode(h).bytes, 8 + 8 * i, 8) == h.nos[i]
  {
    hide Encode, Decode, WordAt;
    HeaderRoundTrip(h);
    HeaderFields(Encode(h), i);
  }

  lemma {:induction false} DecodedWide(b: Block)
    ensures Wide(Decode(b).nos) && Wide(Wiped(Decode(b)).nos)
  {
    UnpackedFit(b.bytes, 8, LOG_MAX + 1);
    UnpackedFit(Fill(0, LOG_MAX) + Pack(Decode(b).nos, 8)[LOG_MAX..], 8, LOG_MAX);
  }

  /** The header after `init_bcache` has cleared it: the count, and LOG_MAX_SIZE bytes (not
      entries) of the block numbers. */
  function Wiped(h: Header): (r: Header)
    requires FullSize(h)
    ensures FullSize(r) && r.n == 0
  {
    Header(0, Unpack(Fill(0, LOG_MAX) + Pack(h.nos, 8)[LOG_MAX..], 8, LOG_MAX))
  }

  // ----- the layout; `log` is the block number of the header

  function Slot(log: nat, i: nat): nat {
    log + 1 + i
  }

  /** A block outside the log. */
  predicate Home(log: nat, b: nat) {
    b < log || Slot(log, LOG_MAX) <= b
  }

  /** The header names distinct blocks outside the log, and no more than it has room for. */
  ghost predicate Proper(log: nat, h: Header) {
    && FullSize(h) && h.n <= LOG_MAX
    && (forall i :: 0 <= i < h.n ==> Home(log, h.nos[i]))
    && (forall i, j :: 0 <= i < j < h.n ==> h.nos[i] != h.nos[j])
  }

  function OnDisk(log: nat, d: Disk): Header {
    Decode(Rd(d, log))
  }

  // ----- recovery

  /** Where the header logs block `b`, or `n`. */
  function Find(h: Header, b: nat, i: nat): (r: nat)
    requires FullSize(h) && i <= h.n <= LOG_MAX
    ensures i <= r <= h.n && (r < h.n ==> h.nos[r] == b)
    ensures forall j :: i <= j < r ==> h.nos[j] != b
    decreases h.n - i
  {
    if i == h.n then i else if h.nos[i] == b then i else Find(h, b, i + 1)
  }

  /** The content a recovery gives to block `b`. */
  function Recovered(log: nat, d: Disk, b: nat): Block
    requires OnDisk(log, d).n <= LOG_MAX
  {
    var h := OnDisk(log, d);
    var i := Find(h, b, 0);
    if i < h.n then Rd(d, Slot(log, i)) else Rd(d, b)
  }

  /** In terms of the bytes of the disk: if number `i` in the header block is `b`, a recovery takes the content
      of `b` from the block `i + 1` behind it, and if none is, it leaves `b` alone. */
  lemma {:induction false} RecoveredFrom(log: nat, d: Disk, b: nat, i: nat)
    requires Proper(log, OnDisk(log, d)) && i < 63
    ensures var x := Rd(d, log).bytes;
            && (i < WordAt(x, 0, 8) && WordAt(x, 8 + 8 * i, 8) == b ==> Recovered(log, d, b) == Rd(d, log + 1 + i))
            && ((forall j {:trigger OnDisk(log, d).nos[j]} :: 0 <= j < WordAt(x, 0, 8) ==> OnDisk(log, d).nos[j] != b)
                ==> Recovered(log, d, b) == Rd(d, b))
  {
    hide Decode, WordAt;
    HeaderFields(Rd(d, log), i);
  }

  /** A recovery of `d` yields the blocks of `v`. */
  ghost predicate Recovers(log: nat, d: Disk, v: Disk) {
    && Proper(log, OnDisk(log, d))
    && forall b :: Home(log, b) ==> Recovered(log, d, b) == Rd(v, b)
  }

  /** The disk when `init_bcache` has copied the first `k` logged blocks. */
  function Copied(log: nat, d: Disk, k: nat): Disk
    requires k <= OnDisk(log, d).n <= LOG_MAX
  {
    if k == 0 then d else Copied(log, d, k - 1)[OnDisk(log, d).nos[k - 1] := Rd(d, Slot(log, k - 1))]
  }

  /** The disk when `init_bcache` is stopped after `k` block writes. */
  function Attempt(log: nat, d: Disk, k: nat): Disk
    requires k <= OnDisk(log, d).n + 1 <= LOG_MAX + 1
  {
    var h := OnDisk(log, d);
    if k <= h.n then Copied(log, d, k) else Copied(log, d, h.n)[log := Encode(Wiped(h))]
  }

  lemma {:induction false} CopiedContents(log: nat, d: Disk, k: nat, b: nat)
    requires Proper(log, OnDisk(log, d)) && k <= OnDisk(log, d).n
    ensures var h := OnDisk(log, d);
            var i := Find(h, b, 0);
            Rd(Copied(log, d, k), b) == if i < k && Home(log, b) then Rd(d, Slot(log, i)) else Rd(d, b)
    decreases k
  {
    if k > 0 {
      CopiedContents(log, d, k - 1, b);
    }
  }

  lemma {:induction false} CopiedRecovers(log: nat, d: Disk, k: nat, v: Disk)
    requires Recovers(log, d, v) && k <= OnDisk(log, d).n
    ensures Recovers(log, Copied(log, d, k), v)
  {
    var h, d' := OnDisk(log, d), Copied(log, d, k);
    CopiedContents(log, d, k, log);
    assert OnDisk(log, d') == h;
    forall b | Home(log, b) ensures Recovered(log, d', b) == Rd(v, b) {
      assert Recovered(log, d, b) == Rd(v, b);
      CopiedContents(log, d, k, b);
      CopiedContents(log, d, k, Slot(log, Find(h, b, 0)));
    }
  }

  lemma {:induction false} WipedRecovers(log: nat, d: Disk, v: Disk)
    requires Recovers(log, d, v)
    ensures Installed(log, Attempt(log, d, OnDisk(log, d).n + 1), v)
  {
    var h := OnDisk(log, d);
    var d' := Attempt(log, d, h.n + 1);
    WipedRoundTrip(h);
    forall b | Home(log, b) ensures Rd(d', b) == Rd(v, b) {
      assert Recovered(log, d, b) == Rd(v, b);
      CopiedContents(log, d, h.n, b);
    }
  }

  /** No matter after how many writes it stops, a recovery does not change what the disk
      recovers to; one that runs to its end leaves exactly that on the disk, and no log. */
  lemma {:induction false} AttemptRecovers(log: nat, d: Disk, k: nat, v: Disk)
    requires Recovers(log, d, v) && k <= OnDisk(log, d).n + 1
    ensures Recovers(log, Attempt(log, d, k), v)
    ensures k == OnDisk(log, d).n + 1 ==> Installed(log, Attempt(log, d, k), v)
  {
    if k <= OnDisk(log, d).n {
      CopiedRecovers(log, d, k, v);
    } else {
      WipedRecovers(log, d, v);
      CommitRecovers(log, Attempt(log, d, k), OnDisk(log, d), v, v, 0);
    }
  }

  lemma {:induction false} WipedRoundTrip(h: Header)
    requires FullSize(h)
    ensures Decode(Encode(Wiped(h))).n == 0
  {
    var ws := [0] + Wiped(h).nos;
    var b := Pack(ws, 8);
    assert b[..8] == ToBytes(0, 8);
    FromToBytes(0, 8) by { assert Pow256(8) > 0; }
  }

  /** The log is empty and the blocks outside it are those of `v`. */
  ghost predicate Installed(log: nat, d: Disk, v: Disk) {
    OnDisk(log, d).n == 0 && forall b :: Home(log, b) ==> Rd(d, b) == Rd(v, b)
  }

  /** A crash, and then recoveries that are themselves cut short after `ks[0]`, `ks[1]`, ...
      writes. */
  ghost predicate CutShort(log: nat, d: Disk, ks: seq<nat>, d': Disk)
    decreases |ks|
  {
    if ks == [] then d' == d
    else ks[0] <= OnDisk(log, d).n + 1 <= LOG_MAX + 1 && CutShort(log, Attempt(log, d, ks[0]), ks[1..], d')
  }

  lemma {:induction false} RepeatedRecovery(log: nat, d: Disk, ks: seq<nat>, d': Disk, v: Disk)
    requires Recovers(log, d, v) && CutShort(log, d, ks, d')
    ensures Recovers(log, d', v) && Installed(log, Attempt(log, d', OnDisk(log, d').n + 1), v)
    decreases |ks|
  {
    if ks == [] {
      AttemptRecovers(log, d, OnDisk(log, d).n + 1, v);
    } else {
      AttemptRecovers(log, d, ks[0], v);
      RepeatedRecovery(log, Attempt(log, d, ks[0]), ks[1..], d', v);
    }
  }

  // ----- the writes of a commit, which takes the blocks `h.nos[..h.n]` from `v` to `w`

  ghost predicate Differs(log: nat, h: Header, v: Disk, w: Disk) {
    Proper(log, h) && forall b :: Home(log, b) && Find(h, b, 0) == h.n ==> Rd(v, b) == Rd(w, b)
  }

  /** The first `i` blocks have been copied into the log. */
  ghost predicate Copying(log: nat, d: Disk, h: Header, v: Disk, w: Disk, i: nat) {
    && Differs(log, h, v, w) && i <= h.n && Installed(log, d, v)
    && forall j :: 0 <= j < i ==> Rd(d, Slot(log, j)) == Rd(w, h.nos[j])
  }

  /** The header is on the disk, and the first `i` blocks are in place. */
  ghost predicate Placing(log: nat, d: Disk, h: Header, w: Disk, i: nat) {
    && Proper(log, h) && i <= h.n && OnDisk(log, d) == h
    && (forall j :: 0 <= j < h.n ==> Rd(d, Slot(log, j)) == Rd(w, h.nos[j]))
    && (forall b :: Home(log, b) && (Find(h, b, 0) == h.n || Find(h, b, 0) < i) ==> Rd(d, b) == Rd(w, b))
  }

  lemma {:induction false} CopyWrite(log: nat, d: Disk, h: Header, v: Disk, w: Disk, i: nat)
    requires Copying(log, d, h, v, w, i) && i < h.n
    ensures Copying(log, d[Slot(log, i) := Rd(w, h.nos[i])], h, v, w, i + 1)
  {
  }

  lemma {:induction false} HeaderWrite(log: nat, d: Disk, h: Header, v: Disk, w: Disk)
    requires Copying(log, d, h, v, w, h.n) && Wide(h.nos)
    ensures Placing(log, d[log := Encode(h)], h, w, 0)
  {
    HeaderRoundTrip(h);
  }

  lemma {:induction false} FindIs(log: nat, h: Header, i: nat)
    requires Proper(log, h) && i < h.n
    ensures Find(h, h.nos[i], 0) == i
  {
  }

  lemma {:induction false} PlaceWrite(log: nat, d: Disk, h: Header, w: Disk, i: nat)
    requires Placing(log, d, h, w, i) && i < h.n
    ensures Placing(log, d[h.nos[i] := Rd(w, h.nos[i])], h, w, i + 1)
  {
    var x := h.nos[i];
    var d' := d[x := Rd(w, x)];
    assert Rd(d', log) == Rd(d, log);
    forall j | 0 <= j < h.n ensures Rd(d', Slot(log, j)) == Rd(w, h.nos[j]) {
      assert Slot(log, j) != x;
    }
    forall b | Home(log, b) && (Find(h, b, 0) == h.n || Find(h, b, 0) < i + 1) ensures Rd(d', b) == Rd(w, b) {
      FindIs(log, h, i);
      if b == x {
        RdWritten(d, x, Rd(w, x), b);
      } else {
        assert Find(h, b, 0) != i;
        assert Rd(d, b) == Rd(w, b);
        RdWritten(d, x, Rd(w, x), b);
      }
    }
  }

  lemma {:induction false} ClearWrite(log: nat, d: Disk, h: Header, w: Disk)
    requires Placing(log, d, h, w, h.n) && Wide(h.nos)
    ensures Installed(log, d[log := Encode(h.(n := 0))], w)
  {
    HeaderRoundTrip(h.(n := 0));
  }

  /** Before the header is written a crash goes back to `v`, after it forward to `w`. */
  lemma {:induction false} CommitRecovers(log: nat, d: Disk, h: Header, v: Disk, w: Disk, i: nat)
    ensures Copying(log, d, h, v, w, i) ==> Recovers(log, d, v)
    ensures Placing(log, d, h, w, i) ==> Recovers(log, d, w)
    ensures Installed(log, d, v) ==> Recovers(log, d, v)
  {
    if Placing(log, d, h, w, i) {
      forall b | Home(log, b) ensures Recovered(log, d, b) == Rd(w, b) {
        var j := Find(h, b, 0);
      }
    }
  }

  /** Write number `k` of a commit that takes the blocks in `h` to their contents in `w`: into the log,
      the header, to their places, and the header again. */
  function CommitWrite(log: nat, h: Header, w: Disk, e: Disk, k: nat): Disk
    requires FullSize(h) && h.n <= LOG_MAX && k <= 2 * h.n + 1
  {
    if k < h.n then e[Slot(log, k) := Rd(w, h.nos[k])]
    else if k == h.n then e[log := Encode(h)]
    else if k <= 2 * h.n then e[h.nos[k - h.n - 1] := Rd(w, h.nos[k - h.n - 1])]
    else e[log := Encode(h.(n := 0))]
  }

  /** The disk after the first `k` writes of a commit. */
  function CommitDisk(log: nat, d: Disk, h: Header, w: Disk, k: nat): Disk
    requires FullSize(h) && h.n <= LOG_MAX && k <= 2 * h.n + 2
  {
    if k == 0 then d else CommitWrite(log, h, w, CommitDisk(log, d, h, w, k - 1), k - 1)
  }

  /** The disks after each of the first `k` writes. */
  function CommitTrace(log: nat, d: Disk, h: Header, w: Disk, k: nat): (r: seq<Disk>)
    requires FullSize(h) && h.n <= LOG_MAX && k <= 2 * h.n + 2
    ensures |r| == k && forall j :: 0 <= j < k ==> r[j] == CommitDisk(log, d, h, w, j + 1)
  {
    if k == 0 then [] else CommitTrace(log, d, h, w, k - 1) + [CommitDisk(log, d, h, w, k)]
  }

  lemma {:induction false} CommitPhases(log: nat, d: Disk, h: Header, v: Disk, w: Disk, k: nat)
    requires Proper(log, h) && Copying(log, d, h, v, w, 0) && Wide(h.nos) && k <= 2 * h.n + 2
    ensures var e := CommitDisk(log, d, h, w, k);
            if k <= h.n then Copying(log, e, h, v, w, k)
            else if k <= 2 * h.n + 1 then Placing(log, e, h, w, k - h.n - 1)
            else Installed(log, e, w)
    decreases k
  {
    hide Copying, Placing, Installed, Wide, Encode;
    if k > 0 {
      var e := CommitDisk(log, d, h, w, k - 1);
      CommitPhases(log, d, h, v, w, k - 1);
      if k <= h.n {
        CopyWrite(log, e, h, v, w, k - 1);
      } else if k == h.n + 1 {
        HeaderWrite(log, e, h, v, w);
      } else if k <= 2 * h.n + 1 {
        PlaceWrite(log, e, h, w, k - h.n - 2);
      } else {
        ClearWrite(log, e, h, w);
      }
    }
  }

  /** In a commit, the disks before the write of the header recover to `v`, and all others to `w`, which
      the last one holds. */
  lemma {:induction false} CommitTurns(log: nat, d: Disk, h: Header, v: Disk, w: Disk, k: nat)
    requires Proper(log, h) && Copying(log, d, h, v, w, 0) && Wide(h.nos) && k <= 2 * h.n + 2
    ensures Recovers(log, CommitDisk(log, d, h, w, k), if k <= h.n then v else w)
    ensures Installed(log, CommitDisk(log, d, h, w, 2 * h.n + 2), w)
  {
    hide Copying, Placing, Installed, Wide, Recovers, CommitDisk;
    CommitPhases(log, d, h, v, w, k);
    CommitPhases(log, d, h, v, w, 2 * h.n + 2);
    var e := CommitDisk(log, d, h, w, k);
    if k <= h.n {
      CommitRecovers(log, e, h, v, w, k);
    } else if k <= 2 * h.n + 1 {
      CommitRecovers(log, e, h, w, w, k - h.n - 1);
    } else {
      CommitRecovers(log, e, h, w, w, 0);
    }
  }
}
