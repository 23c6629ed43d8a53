/**
The inode layer of `src/fs/inode.c`: `inode_map`, `inode_read`, `inode_write`, `inode_clear` and
`inode_sync` over the bitmap and the blocks as an operation sees them. Files behave like plain
byte sequences, and no operation on one inode touches the file of another.
*/
module Inodes {
  import opened Basics
  import opened Bytes
  import opened LogDisk
  import opened Bitmap
  import opened Bits
  import opened InodeLayout

  const TWO64: nat := 0x1_0000_0000_0000_0000

  // ----- how the file system grows

  /** Inode `ino` may have got more blocks; nothing else about the entries changes. */
  ghost predicate EntriesGrow(entries: seq<Entry>, entries': seq<Entry>, ino: nat) {
    && ino < |entries| && |entries'| == |entries|
    && entries'[ino] == entries[ino].(addrs := entries'[ino].addrs, indirect := entries'[ino].indirect)
    && forall i :: 0 <= i < |entries| && i != ino ==> entries'[i] == entries[i]
  }

  ghost predicate RolesGrow(role: map<nat, Role>, role': map<nat, Role>, ino: nat) {
    && (forall x :: x in role ==> x in role' && role'[x] == role[x])
    && (forall x :: x in role' && x !in role ==> role'[x].ino == ino)
  }

  /** The blocks of all files keep their contents, except block `k` of `ino`. */
  ghost predicate DataKept(d: Disk, d': Disk, role: map<nat, Role>, ino: nat, k: nat) {
    forall x :: x in role && role[x].k < MAX_BLOCKS && role[x] != Role(ino, k) ==> Rd(d', x) == Rd(d, x)
  }

  /** What `inode_map` may do for inode `ino`: add blocks, and nothing else. */
  ghost predicate Grew(d: Disk, d': Disk, entries: seq<Entry>, entries': seq<Entry>, role: map<nat, Role>,
                       role': map<nat, Role>, ino: nat) {
    EntriesGrow(entries, entries', ino) && RolesGrow(role, role', ino) && DataKept(d, d', role, ino, MAX_BLOCKS)
  }

  lemma {:induction false} GrewTwice(d: Disk, d1: Disk, d2: Disk, e: seq<Entry>, e1: seq<Entry>, e2: seq<Entry>,
                                     r: map<nat, Role>, r1: map<nat, Role>, r2: map<nat, Role>, ino: nat)
    requires Grew(d, d1, e, e1, r, r1, ino) && Grew(d1, d2, e1, e2, r1, r2, ino)
    ensures Grew(d, d2, e, e2, r, r2, ino)
  {
  }

  lemma {:induction false} RoleAdded(role: map<nat, Role>, b: nat, ino: nat, k: nat)
    requires b !in role
    ensures RolesGrow(role, role[b := Role(ino, k)], ino) && role[b := Role(ino, k)].Keys == role.Keys + {b}
  {
  }

  function Range(lo: nat, n: nat): (r: set<nat>)
    ensures |r| == n && forall x :: x in r <==> lo <= x < lo + n
  {
    if n == 0 then {} else Range(lo, n - 1) + {lo + n - 1}
  }

  /** The number of bitmap blocks that are in use. */
  function BitmapSize(sb: SuperBlock): nat { (sb.numBlocks + PER_BLOCK - 1) / PER_BLOCK }

  function BitmapBlocks(sb: SuperBlock): set<nat> {
    Range(sb.bitmapStart, BitmapSize(sb))
  }

  lemma {:induction false} BitmapHas(sb: SuperBlock, b: nat)
    requires b < sb.numBlocks
    ensures sb.BitmapBlock(b) in BitmapBlocks(sb)
  {
    assert b / PER_BLOCK <= (sb.numBlocks - 1) / PER_BLOCK < (sb.numBlocks + PER_BLOCK - 1) / PER_BLOCK;
  }

  /** The indirect table, if there is one. */
  function TableBlock(e: Entry): set<nat> {
    if e.indirect == 0 then {} else {e.indirect}
  }

  /** Block `b` of `d'` has `x` at `off`, and else what `a` had in `d`, if that is a block. */
  ghost predicate Patched(d: Disk, d': Disk, a: nat, b: nat, off: nat, x: seq<Byte>) {
    forall q :: 0 <= q < BLOCK_SIZE ==>
      && (off <= q < off + |x| ==> Rd(d', b).bytes[q] == x[q - off])
      && (!(off <= q < off + |x|) && a != 0 ==> Rd(d', b).bytes[q] == Rd(d, a).bytes[q])
  }

  lemma {:induction false} AddressIsData(d: Disk, entries: seq<Entry>, role: map<nat, Role>, ino: nat, k: nat)
    requires Mapped(d, entries, role) && ino < |entries| && k <= MAX_BLOCKS && Address(d, entries[ino], k) != 0
    ensures var b := Address(d, entries[ino], k); b in role && role[b] == Role(ino, k)
  {
  }

  /** An address stays when the inode grows. */
  lemma {:induction false} AddressStays(d: Disk, d': Disk, entries: seq<Entry>, entries': seq<Entry>,
                                        role: map<nat, Role>, role': map<nat, Role>, i: nat, k: nat)
    requires Mapped(d, entries, role) && Mapped(d', entries', role')
    requires forall x :: x in role ==> x in role' && role'[x] == role[x]
    requires i < |entries| && k <= MAX_BLOCKS && Address(d, entries[i], k) != 0
    ensures i < |entries'| && Address(d', entries'[i], k) == Address(d, entries[i], k)
  {
    var b := Address(d, entries[i], k);
    AddressIsData(d, entries, role, i, k);
    assert UsedAs(d', entries', role'[b], b);
  }

  lemma {:induction false} ChunkWritten(sb: SuperBlock, d0: Disk, d1: Disk, d2: Disk, entries0: seq<Entry>,
                                        entries: seq<Entry>,
                                        role0: map<nat, Role>, role: map<nat, Role>, ino: nat, k: nat, off: nat,
                                        x: seq<Byte>)
    requires Consistent(sb, d0, entries0, role0) && Consistent(sb, d1, entries, role)
    requires Grew(d0, d1, entries0, entries, role0, role, ino)
    requires ino < |entries| && k < MAX_BLOCKS && off + |x| <= BLOCK_SIZE && Address(d1, entries[ino], k) != 0
    requires var b := Address(d1, entries[ino], k); d2 == d1[b := Raw(Splice(Rd(d1, b).bytes, off, x))]
    ensures Consistent(sb, d2, entries, role) && DataKept(d0, d2, role0, ino, k)
    ensures Address(d2, entries[ino], k) == Address(d1, entries[ino], k)
    ensures Patched(d0, d2, Address(d0, entries0[ino], k), Address(d2, entries[ino], k), off, x)
  {
    var a, b := Address(d0, entries0[ino], k), Address(d1, entries[ino], k);
    AddressIsData(d1, entries, role, ino, k);
    DataChanged(sb, d1, entries, role, b, d2[b]);
    assert SameAddresses(d1, d2, entries[ino]);
    if a != 0 {
      AddressStays(d0, d1, entries0, entries, role0, role, ino, k);
      AddressIsData(d0, entries0, role0, ino, k);
    }
  }

  // ----- files as byte sequences

  /** Every block of the file is where it was and has the same content. */
  ghost predicate KeptFile(d: Disk, d': Disk, e: Entry)
    requires |e.addrs| == NUM_DIRECT
  {
    forall k :: 0 <= k < MAX_BLOCKS && Address(d, e, k) != 0 ==>
      Address(d', e, k) == Address(d, e, k) && Rd(d', Address(d, e, k)) == Rd(d, Address(d, e, k))
  }

  lemma {:induction false} KeptFileSame(d: Disk, d': Disk, e: Entry)
    requires Fits(e) && KeptFile(d, d', e) && NoHoles(d, e)
    ensures NoHoles(d', e) && File(d', e) == File(d, e)
  {
    var f, f' := File(d, e), File(d', e);
    forall p | 0 <= p < e.numBytes ensures f'[p] == f[p] {
      assert Address(d, e, p / BLOCK_SIZE) != 0;
      FileAt(d, e, p);
      FileAt(d', e, p);
    }
  }

  /** The byte at `p` once `src` has been written from `lo` to `hi`. */
  function Wanted(d0: Disk, e0: Entry, lo: nat, hi: nat, src: seq<Byte>, p: nat): Byte
    requires p < MAX_BYTES && |e0.addrs| == NUM_DIRECT && hi <= lo + |src|
  {
    if lo <= p < hi then src[p - lo] else ByteAt(d0, e0, p)
  }

  /** Inode `e` of `d` holds `src` from `lo` to `hi`, and else what `e0` of `d0` held. */
  ghost predicate Overlaid(d0: Disk, e0: Entry, d: Disk, e: Entry, lo: nat, hi: nat, src: seq<Byte>) {
    && Fits(e0) && |e.addrs| == NUM_DIRECT && hi <= MAX_BYTES && hi <= lo + |src|
    && forall p :: 0 <= p && (p < e0.numBytes || lo <= p < hi) ==>
        Address(d, e, p / BLOCK_SIZE) != 0 && ByteAt(d, e, p) == Wanted(d0, e0, lo, hi, src, p)
  }

  lemma {:induction false} OverlaidAtFirst(d: Disk, e: Entry, d': Disk, e': Entry, lo: nat, src: seq<Byte>)
    requires Fits(e) && NoHoles(d, e) && lo <= MAX_BYTES && |e'.addrs| == NUM_DIRECT
    requires forall k :: 0 <= k < MAX_BLOCKS ==> Address(d', e', k) == Address(d, e, k)
    requires forall k :: 0 <= k < MAX_BLOCKS && Address(d, e, k) != 0 ==>
        Rd(d', Address(d, e, k)) == Rd(d, Address(d, e, k))
    ensures Overlaid(d, e, d', e', lo, lo, src)
  {
    forall p | 0 <= p < e.numBytes
      ensures Address(d', e', p / BLOCK_SIZE) != 0 && ByteAt(d', e', p) == ByteAt(d, e, p) {
      assert Address(d, e, p / BLOCK_SIZE) != 0;
    }
  }

  /** One byte of inode `ino` after a chunk has been written at `i`. */
  lemma {:induction false} BytePatched(d: Disk, d': Disk, entries: seq<Entry>, entries': seq<Entry>,
                                       role: map<nat, Role>, role': map<nat, Role>,
                                       ino: nat, i: nat, x: seq<Byte>, p: nat)
    requires Mapped(d, entries, role) && Mapped(d', entries', role') && RolesGrow(role, role', ino)
    requires ino < |entries| == |entries'|
    requires i < MAX_BYTES && p < MAX_BYTES && i % BLOCK_SIZE + |x| <= BLOCK_SIZE
    requires DataKept(d, d', role, ino, i / BLOCK_SIZE) && Address(d', entries'[ino], i / BLOCK_SIZE) != 0
    requires Patched(d, d', Address(d, entries[ino], i / BLOCK_SIZE), Address(d', entries'[ino], i / BLOCK_SIZE),
                     i % BLOCK_SIZE, x)
    requires i <= p < i + |x| || Address(d, entries[ino], p / BLOCK_SIZE) != 0
    ensures Address(d', entries'[ino], p / BLOCK_SIZE) != 0
    ensures ByteAt(d', entries'[ino], p) == if i <= p < i + |x| then x[p - i] else ByteAt(d, entries[ino], p)
  {
    var q := p % BLOCK_SIZE;
    if p / BLOCK_SIZE == i / BLOCK_SIZE {
      assert q - i % BLOCK_SIZE == p - i;
    } else {
      AddressStays(d, d', entries, entries', role, role', ino, p / BLOCK_SIZE);
      AddressIsData(d, entries, role, ino, p / BLOCK_SIZE);
    }
  }

  lemma {:induction false} OverlaidNext(d0: Disk, e0: Entry, d: Disk, d': Disk, entries: seq<Entry>,
                                        entries': seq<Entry>,
                                        role: map<nat, Role>, role': map<nat, Role>, ino: nat, lo: nat, i: nat,
                                        src: seq<Byte>, x: seq<Byte>)
    requires Mapped(d, entries, role) && Mapped(d', entries', role') && RolesGrow(role, role', ino)
    requires ino < |entries| == |entries'|
    requires lo <= i < i + |x| <= lo + |src| && i + |x| <= MAX_BYTES && i % BLOCK_SIZE + |x| <= BLOCK_SIZE
    requires x == src[i - lo..i - lo + |x|]
    requires DataKept(d, d', role, ino, i / BLOCK_SIZE) && Address(d', entries'[ino], i / BLOCK_SIZE) != 0
    requires Patched(d, d', Address(d, entries[ino], i / BLOCK_SIZE), Address(d', entries'[ino], i / BLOCK_SIZE),
                     i % BLOCK_SIZE, x)
    requires Overlaid(d0, e0, d, entries[ino], lo, i, src)
    ensures Overlaid(d0, e0, d', entries'[ino], lo, i + |x|, src)
  {
    forall p | 0 <= p && (p < e0.numBytes || lo <= p < i + |x|)
      ensures Address(d', entries'[ino], p / BLOCK_SIZE) != 0
      ensures ByteAt(d', entries'[ino], p) == Wanted(d0, e0, lo, i + |x|, src, p)
    {
      if !(i <= p < i + |x|) { assert ByteAt(d, entries[ino], p) == Wanted(d0, e0, lo, i, src, p); }
      BytePatched(d, d', entries, entries', role, role', ino, i, x, p);
    }
  }

  /** The other files. */
  ghost predicate OthersKept(d: Disk, d': Disk, entries: seq<Entry>, entries': seq<Entry>, ino: nat) {
    && |entries'| == |entries|
    && forall j :: 0 <= j < |entries| && j != ino ==>
        entries'[j] == entries[j] && |entries[j].addrs| == NUM_DIRECT && KeptFile(d, d', entries[j])
  }

  lemma {:induction false} OthersNext(d0: Disk, d: Disk, d': Disk, entries0: seq<Entry>, entries: seq<Entry>,
                                      entries': seq<Entry>,
                                      role: map<nat, Role>, role': map<nat, Role>, ino: nat, k: nat)
    requires Mapped(d, entries, role) && Mapped(d', entries', role') && RolesGrow(role, role', ino)
    requires EntriesGrow(entries, entries', ino) && DataKept(d, d', role, ino, k)
    requires OthersKept(d0, d, entries0, entries, ino)
    ensures OthersKept(d0, d', entries0, entries', ino)
  {
    forall j | 0 <= j < |entries| && j != ino ensures KeptFile(d0, d', entries0[j]) {
      forall l | 0 <= l < MAX_BLOCKS && Address(d0, entries0[j], l) != 0
        ensures var a := Address(d0, entries0[j], l); Address(d', entries0[j], l) == a && Rd(d', a) == Rd(d0, a)
      {
        assert KeptFile(d0, d, entries0[j]);
        AddressIsData(d, entries, role, j, l);
        AddressStays(d, d', entries, entries', role, role', j, l);
      }
    }
  }

  lemma {:induction false} ChunkNext(d0: Disk, entries0: seq<Entry>, d: Disk, d': Disk, entries: seq<Entry>,
                                     entries': seq<Entry>,
                                     role: map<nat, Role>, role': map<nat, Role>, ino: nat, lo: nat, i: nat,
                                     src: seq<Byte>, len: nat)
    requires Mapped(d, entries, role) && Mapped(d', entries', role') && RolesGrow(role, role', ino)
    requires EntriesGrow(entries, entries', ino)
    requires lo <= i < i + len <= lo + |src| <= MAX_BYTES && i % BLOCK_SIZE + len <= BLOCK_SIZE && ino < |entries0|
    requires DataKept(d, d', role, ino, i / BLOCK_SIZE) && Address(d', entries'[ino], i / BLOCK_SIZE) != 0
    requires Patched(d, d', Address(d, entries[ino], i / BLOCK_SIZE), Address(d', entries'[ino], i / BLOCK_SIZE),
                     i % BLOCK_SIZE, src[i - lo..i - lo + len])
    requires Overlaid(d0, entries0[ino], d, entries[ino], lo, i, src) && OthersKept(d0, d, entries0, entries, ino)
    ensures Overlaid(d0, entries0[ino], d', entries'[ino], lo, i + len, src)
    ensures OthersKept(d0, d', entries0, entries', ino)
  {
    OverlaidNext(d0, entries0[ino], d, d', entries, entries', role, role', ino, lo, i, src, src[i - lo..i - lo + len]);
    OthersNext(d0, d, d', entries0, entries, entries', role, role', ino, i / BLOCK_SIZE);
  }

  /** An inode that has a table keeps it. */
  lemma {:induction false} TableStays(d: Disk, d': Disk, entries: seq<Entry>, entries': seq<Entry>,
                                      role: map<nat, Role>, role': map<nat, Role>, ino: nat)
    requires Mapped(d, entries, role) && Mapped(d', entries', role') && RolesGrow(role, role', ino)
    requires EntriesGrow(entries, entries', ino)
    ensures TableBlock(entries[ino]) <= TableBlock(entries'[ino])
  {
    if Address(d, entries[ino], MAX_BLOCKS) != 0 {
      AddressStays(d, d', entries, entries', role, role', ino, MAX_BLOCKS);
    }
  }

  // ----- the blocks an operation changes

  /** The blocks synced since `s` are among `fixed`, `touched` and `table`. */
  ghost predicate Changed(s: set<nat>, s': set<nat>, fixed: set<nat>, touched: set<nat>, table: set<nat>) {
    forall x :: x in s' ==> x in s || x in fixed || x in touched || x in table
  }

  lemma {:induction false} Unchanged(s: set<nat>, fixed: set<nat>, table: set<nat>)
    ensures Changed(s, s, fixed, {}, table)
  {
  }

  lemma {:induction false} ChangedNext(s: set<nat>, s1: set<nat>, s2: set<nat>, fixed: set<nat>, touched: set<nat>,
                                       b: set<nat>,
                                       t: set<nat>, t': set<nat>)
    requires Changed(s, s1, fixed, touched, t) && Changed(s1, s2, fixed, b, t') && t <= t'
    ensures Changed(s, s2, fixed, touched + b, t') && |touched + b| <= |touched| + |b|
  {
  }

  /** The number of blocks that `n` bytes from `off` on lie in. */
  function Span(off: nat, n: nat): nat {
    if n == 0 then 0 else (off + n - 1) / BLOCK_SIZE - off / BLOCK_SIZE + 1
  }

  function Min(a: nat, b: nat): nat { if a < b then a else b }

  /** The offset in the file after `n` rounds of a loop over the blocks from `off` to `end`. */
  ghost predicate Round(off: nat, end: nat, n: nat, i: nat) {
    if n == 0 then i == off
    else i == (off / BLOCK_SIZE + n) * BLOCK_SIZE && i < end + BLOCK_SIZE && off < i && off < end
  }

  lemma {:induction false} RoundFirst(off: nat, end: nat)
    ensures Round(off, end, 0, off)
  {
  }

  lemma {:induction false} RoundNext(off: nat, end: nat, n: nat, i: nat)
    requires Round(off, end, n, i) && i < end
    ensures var len, i' := Min(BLOCK_SIZE - i % BLOCK_SIZE, end - i), (i / BLOCK_SIZE + 1) * BLOCK_SIZE;
            off <= i && 0 < len <= end - i && i % BLOCK_SIZE + len <= BLOCK_SIZE && Round(off, end, n + 1, i') &&
              Min(i', end) == i + len
  {
    assert i / BLOCK_SIZE == off / BLOCK_SIZE + n;
  }

  lemma {:induction false} RoundLast(off: nat, end: nat, n: nat, i: nat)
    requires Round(off, end, n, i) && off <= end
    ensures n <= Span(off, end - off)
  {
    if n > 0 {
      assert (end - 1) / BLOCK_SIZE >= (i - BLOCK_SIZE) / BLOCK_SIZE == off / BLOCK_SIZE + n - 1;
    }
  }

  /** What a write does not change in the inode's own entry. */
  predicate SameHead(e: Entry, e': Entry) {
    e'.kind == e.kind && e'.major == e.major && e'.minor == e.minor && e'.links == e.links
  }

  predicate SameFixed(e: Entry, e': Entry) {
    SameHead(e, e') && e'.numBytes == e.numBytes
  }

  lemma {:induction false} SameFixedAtFirst(e: Entry)
    ensures SameFixed(e, e)
  {
  }

  lemma {:induction false} SameFixedTwice(e: Entry, e1: Entry, e2: Entry)
    requires SameFixed(e, e1) && SameFixed(e1, e2)
    ensures SameFixed(e, e2)
  {
  }

  /** A byte sequence with the first `n` bytes of `src` put at `off` and after, extended as
      needed. */
  function Overwritten(f: seq<Byte>, off: nat, src: seq<Byte>, n: nat): (r: seq<Byte>)
    requires off <= |f| && n <= |src|
    ensures |r| == if off + n < |f| then |f| else off + n
  {
    if n == 0 then f
    else
      var g := Overwritten(f, off, src, n - 1);
      if off + n - 1 < |g| then g[off + n - 1 := src[n - 1]] else g + [src[n - 1]]
  }

  function Overwrite(f: seq<Byte>, off: nat, src: seq<Byte>): seq<Byte>
    requires off <= |f|
  {
    Overwritten(f, off, src, |src|)
  }

  lemma {:induction false} OverwrittenAt(f: seq<Byte>, off: nat, src: seq<Byte>, n: nat, p: nat)
    requires off <= |f| && n <= |src| && p < |Overwritten(f, off, src, n)|
    ensures Overwritten(f, off, src, n)[p] == if off <= p < off + n then src[p - off] else f[p]
    decreases n
  {
    if n > 0 && p != off + n - 1 { OverwrittenAt(f, off, src, n - 1, p); }
  }

  lemma {:induction false} OverwriteAt(f: seq<Byte>, off: nat, src: seq<Byte>, p: nat)
    requires off <= |f| && p < |Overwrite(f, off, src)|
    ensures Overwrite(f, off, src)[p] == if off <= p < off + |src| then src[p - off] else f[p]
  {
    OverwrittenAt(f, off, src, |src|, p);
  }

  /** What was written can be read back, and the bytes before and after are as they were. */
  lemma {:induction false} ReadBack(f: seq<Byte>, off: nat, src: seq<Byte>)
    requires off <= |f|
    ensures var g := Overwrite(f, off, src);
            && g[off..off + |src|] == src && g[..off] == f[..off]
            && (off + |src| <= |f| ==> |g| == |f| && g[off + |src|..] == f[off + |src|..])
            && (off + |src| > |f| ==> |g| == off + |src|)
  {
    var g := Overwrite(f, off, src);
    forall p | 0 <= p < |g| ensures g[p] == if off <= p < off + |src| then src[p - off] else f[p] {
      OverwriteAt(f, off, src, p);
    }
  }

  lemma {:induction false} OverlaidFile(d0: Disk, e0: Entry, d: Disk, e: Entry, lo: nat, src: seq<Byte>)
    requires Overlaid(d0, e0, d, e, lo, lo + |src|, src) && Fits(e) && lo <= e0.numBytes
    requires e.numBytes == if e0.numBytes < lo + |src| then lo + |src| else e0.numBytes
    ensures NoHoles(d, e) && File(d, e) == Overwrite(File(d0, e0), lo, src)
  {
    forall k | 0 <= k && BLOCK_SIZE * k < e.numBytes ensures Address(d, e, k) != 0 {
      assert ByteAt(d, e, BLOCK_SIZE * k) == Wanted(d0, e0, lo, lo + |src|, src, BLOCK_SIZE * k);
    }
    var f, g := File(d, e), Overwrite(File(d0, e0), lo, src);
    forall p | 0 <= p < e.numBytes ensures f[p] == g[p] {
      FileAt(d, e, p);
      if p < e0.numBytes { FileAt(d0, e0, p); }
      OverwriteAt(File(d0, e0), lo, src, p);
      assert ByteAt(d, e, p) == Wanted(d0, e0, lo, lo + |src|, src, p);
    }
  }

  /** The file of another inode: the same bytes. */
  ghost predicate SameFile(d: Disk, d': Disk, e: Entry, e': Entry) {
    e' == e && Fits(e) && (NoHoles(d, e) ==> NoHoles(d', e) && File(d', e) == File(d, e))
  }

  ghost predicate OthersSame(d: Disk, d': Disk, entries: seq<Entry>, entries': seq<Entry>, ino: nat) {
    |entries'| == |entries| && forall j :: 0 <= j < |entries| && j != ino ==> SameFile(d, d', entries[j], entries'[j])
  }

  lemma {:induction false} OthersAre(d: Disk, d': Disk, entries: seq<Entry>, entries': seq<Entry>, ino: nat)
    requires OthersKept(d, d', entries, entries', ino) && forall i :: 0 <= i < |entries| ==> Fits(entries[i])
    ensures OthersSame(d, d', entries, entries', ino)
  {
    forall j | 0 <= j < |entries| && j != ino ensures SameFile(d, d', entries[j], entries'[j]) {
      if NoHoles(d, entries[j]) { KeptFileSame(d, d', entries[j]); }
    }
  }

  /** Nothing has happened to any file. */
  lemma {:induction false} OthersAtFirst(d: Disk, entries: seq<Entry>, ino: nat)
    requires AllWhole(d, entries)
    ensures OthersSame(d, d, entries, entries, ino)
  {
  }

  /** Before the first block is written. */
  lemma {:induction false} WriteStarts(d0: Disk, d: Disk, entries0: seq<Entry>, entries: seq<Entry>,
                                       role: map<nat, Role>,
                                       ino: nat, n: nat, lo: nat, src: seq<Byte>)
    requires Mapped(d0, entries0, role) && ino < |entries0| && NoHoles(d0, entries0[ino]) && lo <= MAX_BYTES
    requires entries == entries0[ino := entries0[ino].(numBytes := n)]
    requires forall i :: 0 <= i < |entries0| ==> SameAddresses(d0, d, entries0[i])
    requires forall x :: x in role ==> Rd(d, x) == Rd(d0, x)
    ensures Overlaid(d0, entries0[ino], d, entries[ino], lo, lo, src) && OthersKept(d0, d, entries0, entries, ino)
  {
    var e0, e := entries0[ino], entries[ino];
    assert SameAddresses(d0, d, e0);
    forall k | 0 <= k < MAX_BLOCKS ensures Address(d, e, k) == Address(d0, e0, k) {
      assert Address(d, e, k) == Address(d, e0, k);
    }
    forall k | 0 <= k < MAX_BLOCKS && Address(d0, e0, k) != 0
      ensures Rd(d, Address(d0, e0, k)) == Rd(d0, Address(d0, e0, k)) {
      AddressIsData(d0, entries0, role, ino, k);
    }
    OverlaidAtFirst(d0, e0, d, e, lo, src);
    forall j | 0 <= j < |entries| && j != ino ensures KeptFile(d0, d, entries0[j]) {
      assert SameAddresses(d0, d, entries0[j]);
    }
  }

  lemma {:induction false} ChangedBound(s: set<nat>, s': set<nat>, fixed: set<nat>, touched: set<nat>, t: set<nat>)
    requires Changed(s, s', fixed, touched, t)
    ensures |s'| <= |s| + |fixed| + |touched| + |t|
  {
    var all := s + fixed + touched + t;
    assert |all| <= |s + fixed + touched| + |t| <= |s + fixed| + |touched| + |t|;
    Smaller(s', all);
  }

  lemma {:induction false} Smaller(a: set<nat>, b: set<nat>)
    requires a <= b
    ensures |a| <= |b|
  {
    assert b == a + (b - a);
  }

  /** Part of a block of the file. */
  lemma {:induction false} BlockSlice(d: Disk, e: Entry, i: nat, len: nat)
    requires Fits(e) && i + len <= e.numBytes && i % BLOCK_SIZE + len <= BLOCK_SIZE && 0 < len
    ensures Rd(d, Address(d, e, i / BLOCK_SIZE)).bytes[i % BLOCK_SIZE..i % BLOCK_SIZE + len] == File(d, e)[i..i + len]
  {
    var x := Rd(d, Address(d, e, i / BLOCK_SIZE)).bytes[i % BLOCK_SIZE..i % BLOCK_SIZE + len];
    var y := File(d, e)[i..i + len];
    forall q | 0 <= q < len ensures x[q] == y[q] {
      assert (i + q) / BLOCK_SIZE == i / BLOCK_SIZE && (i + q) % BLOCK_SIZE == i % BLOCK_SIZE + q;
      FileAt(d, e, i + q);
    }
  }

  /** Where a read of `count` bytes at `offset` ends, in 64-bit arithmetic, and the assertions. */
  function ReadEnd(n: nat, offset: nat, count: nat): (r: Option<nat>)
    requires n <= MAX_BYTES && offset < TWO64 && count < TWO64
    ensures r.None? <==> offset > n || offset + count >= TWO64
    ensures r.Some? ==> r.value == Min(offset + count, n) && offset <= r.value
  {
    var c := if (count + offset) % TWO64 > n then (n - offset) % TWO64 else count;
    var end := (offset + c) % TWO64;
    if offset <= n && end <= n && offset <= end then Some(end) else None
  }

  /** The assertions of `inode_write`, in 64-bit arithmetic. */
  function MayWrite(n: nat, offset: nat, count: nat): (r: bool)
    requires offset < TWO64 && count < TWO64
    ensures r <==> offset <= n && offset + count <= MAX_BYTES
  {
    var end := (offset + count) % TWO64;
    offset <= n && end <= MAX_BYTES && offset <= end
  }

  lemma {:induction false} Joined(f: seq<Byte>, lo: nat, i: nat, hi: nat, dest: seq<Byte>, x: seq<Byte>)
    requires lo <= i <= hi <= |f| && dest == f[lo..i] && x == f[i..hi]
    ensures dest + x == f[lo..hi]
  {
  }

  // ----- giving all blocks of an inode back

  function Cleared(e: Entry): Entry {
    e.(addrs := seq(NUM_DIRECT, _ => 0), indirect := 0, numBytes := 0)
  }

  ghost function Released(role: map<nat, Role>, ino: nat): map<nat, Role> {
    map b | b in role && role[b].ino != ino :: role[b]
  }

  /** The marks when direct blocks below `n`, and the others below `hi`, have been freed. */
  ghost predicate Left(marks: set<nat>, role: map<nat, Role>, ino: nat, n: nat, hi: nat) {
    forall b :: b in marks <==> b in role && !(role[b].ino == ino && (role[b].k < n || NUM_DIRECT <= role[b].k < hi))
  }

  /** Freeing block `k`, which is next in either range. */
  lemma {:induction false} LeftNext(d: Disk, entries: seq<Entry>, role: map<nat, Role>, ino: nat, n: nat, hi: nat,
                                    marks: set<nat>, k: nat)
    requires Mapped(d, entries, role) && ino < |entries| && Left(marks, role, ino, n, hi) && n <= NUM_DIRECT <= hi
    requires k <= MAX_BLOCKS
    requires k == n < NUM_DIRECT || k == hi
    ensures var a := Address(d, entries[ino], k);
            var marks' := if a == 0 then marks else marks - {a};
            && (a != 0 ==> a in marks) && (k == n < NUM_DIRECT ==> Left(marks', role, ino, n + 1, hi))
            && (k == hi ==> Left(marks', role, ino, n, hi + 1))
  {
    var a := Address(d, entries[ino], k);
    if a != 0 { AddressIsData(d, entries, role, ino, k); }
    forall b | b in role && role[b] == Role(ino, k) ensures b == a != 0 { assert UsedAs(d, entries, role[b], b); }
  }

  /** Without a table there is nothing to free in it. */
  lemma {:induction false} LeftNoTable(d: Disk, entries: seq<Entry>, role: map<nat, Role>, ino: nat, marks: set<nat>)
    requires Mapped(d, entries, role) && ino < |entries| && entries[ino].indirect == 0
    requires Left(marks, role, ino, 0, NUM_DIRECT)
    ensures Left(marks, role, ino, 0, MAX_BLOCKS + 1)
  {
    forall b | b in role && role[b].ino == ino ensures role[b].k < NUM_DIRECT { assert UsedAs(d, entries, role[b], b); }
  }

  lemma {:induction false} LeftAll(d: Disk, entries: seq<Entry>, role: map<nat, Role>, ino: nat, marks: set<nat>)
    requires Mapped(d, entries, role) && Left(marks, role, ino, NUM_DIRECT, MAX_BLOCKS + 1)
    ensures marks == Released(role, ino).Keys
  {
    forall b | b in role ensures role[b].k <= MAX_BLOCKS { assert UsedAs(d, entries, role[b], b); }
  }

  lemma {:induction false} ClearedMapped(d: Disk, d': Disk, entries: seq<Entry>, role: map<nat, Role>, ino: nat)
    requires Mapped(d, entries, role) && ino < |entries|
    requires forall i :: 0 <= i < |entries| ==> SameAddresses(d, d', entries[i])
    ensures Mapped(d', entries[ino := Cleared(entries[ino])], Released(role, ino))
  {
    var entries', role' := entries[ino := Cleared(entries[ino])], Released(role, ino);
    forall b | b in role' ensures UsedAs(d', entries', role'[b], b) {
      assert UsedAs(d, entries, role[b], b);
      assert SameAddresses(d, d', entries[role[b].ino]);
    }
    forall i, k | 0 <= i < |entries'| && 0 <= k <= MAX_BLOCKS && Address(d', entries'[i], k) != 0
      ensures Address(d', entries'[i], k) in role' && role'[Address(d', entries'[i], k)] == Role(i, k)
    {
      assert i != ino && SameAddresses(d, d', entries[i]);
      AddressIsData(d, entries, role, i, k);
    }
  }

  lemma {:induction false} ClearedConsistent(sb: SuperBlock, d: Disk, d1: Disk, d2: Disk, entries: seq<Entry>,
                                             role: map<nat, Role>, ino: nat)
    requires Consistent(sb, d, entries, role) && ino < |entries|
    requires (forall x :: !sb.InBitmap(x) ==> Rd(d1, x) == Rd(d, x))
    requires d2 == StoreBytes(sb, d1, ino, EncodeEntry(Cleared(entries[ino])))
    ensures Consistent(sb, d2, entries[ino := Cleared(entries[ino])], Released(role, ino))
    ensures OthersKept(d, d2, entries, entries[ino := Cleared(entries[ino])], ino)
  {
    assert ino / 8 <= sb.numInodes / 8;
    StoredKept(sb, d, d1, entries);
    EntryWrite(sb, d1, entries, ino, Cleared(entries[ino]), d2);
    AllAddressesKept(d, d2, entries, role);
    ClearedMapped(d, d2, entries, role, ino);
    UsedKept(d, d2, entries, role);
  }

  /** Changes outside the blocks in use keep every file. */
  lemma {:induction false} UsedKept(d: Disk, d': Disk, entries: seq<Entry>, role: map<nat, Role>)
    requires Mapped(d, entries, role) && forall x :: x in role ==> Rd(d', x) == Rd(d, x)
    ensures forall j :: 0 <= j < |entries| ==> KeptFile(d, d', entries[j])
  {
    AllAddressesKept(d, d', entries, role);
    forall j | 0 <= j < |entries| ensures KeptFile(d, d', entries[j]) {
      assert SameAddresses(d, d', entries[j]);
      forall k | 0 <= k < MAX_BLOCKS && Address(d, entries[j], k) != 0
        ensures Rd(d', Address(d, entries[j], k)) == Rd(d, Address(d, entries[j], k))
      {
        AddressIsData(d, entries, role, j, k);
      }
    }
  }

  ghost predicate AllWhole(d: Disk, entries: seq<Entry>) {
    forall i :: 0 <= i < |entries| ==> Fits(entries[i]) && NoHoles(d, entries[i])
  }

  /** A write to one file leaves no hole anywhere. */
  lemma {:induction false} StaysWhole(d: Disk, d': Disk, entries: seq<Entry>, entries': seq<Entry>, ino: nat)
    requires AllWhole(d, entries) && OthersSame(d, d', entries, entries', ino) && ino < |entries|
    requires Fits(entries'[ino]) && NoHoles(d', entries'[ino])
    ensures AllWhole(d', entries')
  {
    forall i | 0 <= i < |entries'| ensures Fits(entries'[i]) && NoHoles(d', entries'[i]) {
      assert i != ino ==> SameFile(d, d', entries[i], entries'[i]);
    }
  }

  /** All entries, as they are on the disk. */
  function Loaded(sb: SuperBlock, d: Disk): (r: seq<Entry>)
    ensures |r| == sb.numInodes && Stored(sb, d, r)
  {
    seq(sb.numInodes, i requires 0 <= i => StoredEntry(sb, d, i))
  }

  // ----- a volume without files

  /** The bitmap with the blocks below `n` marked. */
  lemma {:induction false} FirstMarked(sb: SuperBlock, n: nat) returns (d: Disk)
    requires sb.Ordered() && n <= sb.DataStart()
    ensures forall c :: 0 <= c ==> (Marked(sb, d, c) <==> c < n)
    ensures forall x :: 0 <= x && !sb.InBitmap(x) ==> Rd(d, x) == Zeroes()
    decreases n
  {
    if n == 0 {
      d := map[];
      forall c | 0 <= c ensures !Marked(sb, d, c) { ZeroBits(c % 8); }
    } else {
      var b := n - 1;
      var d1 := FirstMarked(sb, b);
      assert !Marked(sb, d1, b);
      Marking(sb, d1, b, b);
      d := WithByte(sb, d1, b, BitByte(sb, d1, b) + Pow2(b % 8));
      forall c | 0 <= c ensures Marked(sb, d, c) <==> c < n { Marking(sb, d1, b, c); }
      assert b / PER_BLOCK <= sb.numBlocks / PER_BLOCK;
    }
  }

  lemma {:induction false} ZeroUnpacked(b: seq<Byte>, k: nat, n: nat)
    requires |b| == k * n && forall i :: 0 <= i < |b| ==> b[i] == 0
    ensures forall i :: 0 <= i < n ==> Unpack(b, k, n)[i] == 0
    decreases n
  {
    if n > 0 {
      ZeroWords(b[..k]);
      ZeroUnpacked(b[k..], k, n - 1);
    }
  }

  lemma {:induction false} ZeroEntry(b: seq<Byte>)
    requires |b| == 64 && forall i :: 0 <= i < 64 ==> b[i] == 0
    ensures Blank(DecodeEntry(b))
  {
    hide Unpack;
    ZeroUnpacked(b[..8], 2, 4);
    ZeroUnpacked(b[8..], 4, 14);
  }

  /** An inode that has never been written. */
  ghost predicate Blank(e: Entry) {
    Fits(e) && e.numBytes == 0 && e.indirect == 0 && forall k :: 0 <= k < NUM_DIRECT ==> e.addrs[k] == 0
  }

  lemma {:induction false} BlankEntries(d: Disk, entries: seq<Entry>)
    requires forall i :: 0 <= i < |entries| ==> Blank(entries[i])
    ensures Mapped(d, entries, map[]) && AllWhole(d, entries)
  {
  }

  lemma {:induction false} BlankLoaded(sb: SuperBlock, d: Disk, i: nat)
    requires sb.Ordered() && i < sb.numInodes && forall x :: 0 <= x && !sb.InBitmap(x) ==> Rd(d, x) == Zeroes()
    ensures Blank(Loaded(sb, d)[i])
  {
    hide DecodeEntry, Fits;
    assert i / 8 <= sb.numInodes / 8;
    ZeroEntry(EntryBytes(sb, d, i));
  }

  /** For every layout there is a volume in good order: the one without files. */
  lemma {:induction false} EmptyVolume(sb: SuperBlock) returns (d: Disk)
    requires sb.Ordered()
    ensures Marks(sb, d, {}) && Consistent(sb, d, Loaded(sb, d), map[]) && AllWhole(d, Loaded(sb, d))
  {
    hide Marked, Blank, Loaded, Mapped, AllWhole, Stored, Rd;
    d := FirstMarked(sb, sb.DataStart());
    forall i | 0 <= i < sb.numInodes ensures Blank(Loaded(sb, d)[i]) { BlankLoaded(sb, d, i); }
    BlankEntries(d, Loaded(sb, d));
  }

  class FileSystem {
    const vol: Volume
    /** The entries of all inodes, as loaded into memory; the index is the inode number. */
    var entries: seq<Entry>
    /** What has been written to the console. */
    var console: seq<Byte>
    ghost var role: map<nat, Role>

    ghost predicate Good()
      reads this, vol
    {
      vol.Valid() && vol.marks == role.Keys && Consistent(vol.sb, vol.view, entries, role)
    }

    /** What holds between operations: also, no file has a hole. */
    ghost predicate Whole()
      reads this, vol
    {
      Good() && AllWhole(vol.view, entries)
    }

    /** `inode_sync` of inodes that are not loaded: all entries as they are on the disk. */
    constructor (vol: Volume, ghost role: map<nat, Role>)
      requires vol.Valid() && vol.marks == role.Keys && Consistent(vol.sb, vol.view, Loaded(vol.sb, vol.view), role)
      requires AllWhole(vol.view, Loaded(vol.sb, vol.view))
      ensures this.vol == vol && this.role == role && Whole()
      ensures entries == Loaded(vol.sb, vol.view) && console == []
    {
      this.vol := vol;
      this.role := role;
      entries := Loaded(vol.sb, vol.view);
      console := [];
    }

    /** `inode_sync` of a loaded inode, with `do_write`. */
    method Sync(ino: nat)
      requires vol.Valid() && ino < |entries| == vol.sb.numInodes && |entries[ino].addrs| == NUM_DIRECT
      modifies vol`view, vol`synced, vol`marks
      ensures vol.Valid() && vol.view == StoreBytes(vol.sb, old(vol.view), ino, EncodeEntry(entries[ino]))
      ensures vol.synced == old(vol.synced) + {InodeBlock(vol.sb, ino)} && vol.marks == old(vol.marks)
      ensures Fits(entries[ino]) ==> EntryAt(vol.view, vol.sb.inodeStart + ino / 8, 64 * (ino % 8), entries[ino])
    {
      hide EntryAt, EncodeEntry;
      ghost var d := vol.view;
      var ib := InodeBlock(vol.sb, ino);
      assert ino / 8 <= vol.sb.numInodes / 8;
      vol.Write(ib, Raw(Splice(Rd(vol.view, ib).bytes, ino % 8 * 64, EncodeEntry(entries[ino]))));
      if Fits(entries[ino]) {
        EntrySynced(vol.sb, d, ino, entries[ino]);
      }
    }

    /** `inode_map` gives direct block `k` to an inode without one. */
    method AddDirect(ino: nat, k: nat) returns (r: Option<nat>)
      requires Good() && ino < |entries| && k < NUM_DIRECT && entries[ino].addrs[k] == 0
      modifies this`entries, this`role, vol`view, vol`synced, vol`marks
      ensures Good() && (r.None? ==> forall b :: vol.sb.DataStart() <= b < vol.sb.numBlocks ==> b in vol.marks)
      ensures r.None? ==>
          vol.view == old(vol.view) && vol.synced == old(vol.synced) && entries == old(entries) && role == old(role)
      ensures r.Some? ==> Grew(old(vol.view), vol.view, old(entries), entries, old(role), role, ino)
      ensures r.Some? ==> entries[ino].addrs[k] == r.value != 0
      ensures r.Some? ==> vol.synced <= old(vol.synced) + {InodeBlock(vol.sb, ino), r.value} + BitmapBlocks(vol.sb)
    {
      ghost var d, entries0, role0 := vol.view, entries, role;
      r := vol.Alloc();
      if r.Some? {
        var b := r.value;
        ghost var d1 := vol.view;
        BitmapHas(vol.sb, b);
        entries := entries[ino := entries[ino].(addrs := entries[ino].addrs[k := b])];
        Sync(ino);
        role := role[b := Role(ino, k)];
        RoleAdded(role0, b, ino, k);
        DirectAdded(vol.sb, d, d1, vol.view, entries0, role0, ino, k, b);
      }
    }

    /** `inode_map` gives an indirect table to an inode without one. */
    method AddTable(ino: nat) returns (ok: bool)
      requires Good() && ino < |entries| && entries[ino].indirect == 0
      modifies this`entries, this`role, vol`view, vol`synced, vol`marks
      ensures Good() && (!ok ==> forall b :: vol.sb.DataStart() <= b < vol.sb.numBlocks ==> b in vol.marks)
      ensures !ok ==>
          vol.view == old(vol.view) && vol.synced == old(vol.synced) && entries == old(entries) && role == old(role)
      ensures ok ==> Grew(old(vol.view), vol.view, old(entries), entries, old(role), role, ino)
      ensures ok ==> entries[ino].indirect != 0
      ensures ok ==>
        vol.synced <= old(vol.synced) + {InodeBlock(vol.sb, ino)} + TableBlock(entries[ino]) + BitmapBlocks(vol.sb)
    {
      ghost var d, entries0, role0 := vol.view, entries, role;
      var r := vol.Alloc();
      ok := r.Some?;
      if ok {
        var b := r.value;
        ghost var d1 := vol.view;
        BitmapHas(vol.sb, b);
        entries := entries[ino := entries[ino].(indirect := b)];
        Sync(ino);
        role := role[b := Role(ino, MAX_BLOCKS)];
        RoleAdded(role0, b, ino, MAX_BLOCKS);
        TableAdded(vol.sb, d, d1, vol.view, entries0, role0, ino, b);
      }
    }

    /** `inode_map` enters a new block `k` into the indirect table. */
    method AddInTable(ino: nat, k: nat) returns (r: Option<nat>)
      requires Good() && ino < |entries| && NUM_DIRECT <= k < MAX_BLOCKS
      requires entries[ino].indirect != 0 && Address(vol.view, entries[ino], k) == 0
      modifies this`role, vol`view, vol`synced, vol`marks
      ensures Good() && (r.None? ==> forall b :: vol.sb.DataStart() <= b < vol.sb.numBlocks ==> b in vol.marks)
      ensures r.None? ==> vol.view == old(vol.view) && vol.synced == old(vol.synced) && role == old(role)
      ensures r.Some? ==> Grew(old(vol.view), vol.view, old(entries), entries, old(role), role, ino)
      ensures r.Some? ==> Address(vol.view, entries[ino], k) == r.value != 0
      ensures r.Some? ==> vol.synced <= old(vol.synced) + {entries[ino].indirect, r.value} + BitmapBlocks(vol.sb)
    {
      ghost var d, role0 := vol.view, role;
      var t := entries[ino].indirect;
      assert Address(d, entries[ino], MAX_BLOCKS) == t;
      r := vol.Alloc();
      if r.Some? {
        var b := r.value;
        ghost var d1 := vol.view;
        BitmapHas(vol.sb, b);
        vol.Write(t, Raw(Splice(Rd(vol.view, t).bytes, 4 * (k - NUM_DIRECT), ToBytes(b, 4))));
        role := role[b := Role(ino, k)];
        RoleAdded(role0, b, ino, k);
        InTableAdded(vol.sb, d, d1, vol.view, entries, role0, ino, k, b);
      }
    }

    /** `inode_map`: the block of the file at index `k`, which is allocated if there is none. It
        panics when all data blocks are in use. */
    method Map(ino: nat, k: nat) returns (r: Option<nat>)
      requires Good() && ino < |entries| && k < MAX_BLOCKS
      modifies this`entries, this`role, vol`view, vol`synced, vol`marks
      ensures Good() && (r.None? ==> forall b :: vol.sb.DataStart() <= b < vol.sb.numBlocks ==> b in vol.marks)
      ensures Grew(old(vol.view), vol.view, old(entries), entries, old(role), role, ino)
      ensures r.Some? ==> Address(vol.view, entries[ino], k) == r.value != 0
      ensures old(Address(vol.view, entries[ino], k)) != 0 ==>
                r.Some? && vol.view == old(vol.view) && entries == old(entries) && role == old(role) &&
                  vol.synced == old(vol.synced)
      ensures var b := if r.Some? then {r.value} else {};
              vol.synced <= old(vol.synced) + {InodeBlock(vol.sb, ino)} + b + TableBlock(entries[ino]) +
                BitmapBlocks(vol.sb)
    {
      if k < NUM_DIRECT {
        if entries[ino].addrs[k] == 0 {
          r := AddDirect(ino, k);
          return;
        }
        return Some(entries[ino].addrs[k]);
      }
      ghost var d, entries0, role0 := vol.view, entries, role;
      if entries[ino].indirect == 0 {
        var ok := AddTable(ino);
        if !ok { return None; }
      }
      ghost var d1, entries1, role1 := vol.view, entries, role;
      var a := Table(vol.view, entries[ino], k - NUM_DIRECT);
      if a == 0 {
        r := AddInTable(ino, k);
        if r.Some? { GrewTwice(d, d1, vol.view, entries0, entries1, entries, role0, role1, role, ino); }
        return;
      }
      r := Some(a);
    }

    /** One round of the loop of `inode_write`: `x` goes into the block that has byte `i`. */
    method WriteChunk(ino: nat, i: nat, x: seq<Byte>) returns (ok: bool)
      requires Good() && ino < |entries| && i < MAX_BYTES && i % BLOCK_SIZE + |x| <= BLOCK_SIZE
      modifies this`entries, this`role, vol`view, vol`synced, vol`marks
      ensures Good() && (!ok ==> forall b :: vol.sb.DataStart() <= b < vol.sb.numBlocks ==> b in vol.marks)
      ensures EntriesGrow(old(entries), entries, ino) && RolesGrow(old(role), role, ino)
      ensures ok ==> DataKept(old(vol.view), vol.view, old(role), ino, i / BLOCK_SIZE)
      ensures ok ==> Address(vol.view, entries[ino], i / BLOCK_SIZE) != 0
      ensures ok ==> Patched(old(vol.view), vol.view, old(Address(vol.view, entries[ino], i / BLOCK_SIZE)),
                             Address(vol.view, entries[ino], i / BLOCK_SIZE), i % BLOCK_SIZE, x)
      ensures var b := if ok then {Address(vol.view, entries[ino], i / BLOCK_SIZE)} else {};
              vol.synced <= old(vol.synced) + {InodeBlock(vol.sb, ino)} + b + TableBlock(entries[ino]) +
                BitmapBlocks(vol.sb)
    {
      ghost var d0, entries0, role0, k := vol.view, entries, role, i / BLOCK_SIZE;
      var r := Map(ino, i / BLOCK_SIZE);
      ok := r.Some?;
      if ok {
        var b := r.value;
        ghost var d1 := vol.view;
        AddressIsData(d1, entries, role, ino, k);
        vol.Write(b, Raw(Splice(Rd(vol.view, b).bytes, i % BLOCK_SIZE, x)));
        ChunkWritten(vol.sb, d0, d1, vol.view, entries0, entries, role0, role, ino, k, i % BLOCK_SIZE, x);
      }
    }

    /** The same, as part of writing `src` at `offset` into the file system `d0`, `entries0`. */
    method WriteNext(ino: nat, src: seq<Byte>, offset: nat, i: nat, len: nat,
                     ghost d0: Disk, ghost entries0: seq<Entry>, ghost fixed: set<nat>)
      returns (ok: bool, ghost b: set<nat>)
      requires Good() && ino < |entries| == |entries0| && fixed == {InodeBlock(vol.sb, ino)} + BitmapBlocks(vol.sb)
      requires offset <= i < i + len <= offset + |src| <= MAX_BYTES && i % BLOCK_SIZE + len <= BLOCK_SIZE
      requires Overlaid(d0, entries0[ino], vol.view, entries[ino], offset, i, src)
      requires OthersKept(d0, vol.view, entries0, entries, ino)
      modifies this`entries, this`role, vol`view, vol`synced, vol`marks
      ensures Good() && |entries| == |entries0| && SameFixed(old(entries)[ino], entries[ino])
      ensures !ok ==> forall b :: vol.sb.DataStart() <= b < vol.sb.numBlocks ==> b in vol.marks
      ensures ok ==> Overlaid(d0, entries0[ino], vol.view, entries[ino], offset, i + len, src)
      ensures ok ==> OthersKept(d0, vol.view, entries0, entries, ino)
      ensures Changed(old(vol.synced), vol.synced, fixed, b, TableBlock(entries[ino])) && |b| <= 1
      ensures TableBlock(old(entries)[ino]) <= TableBlock(entries[ino])
    {
      ghost var d, entries1, role1 := vol.view, entries, role;
      ok := WriteChunk(ino, i, src[i - offset..i - offset + len]);
      b := {};
      TableStays(d, vol.view, entries1, entries, role1, role, ino);
      if ok {
        b := {Address(vol.view, entries[ino], i / BLOCK_SIZE)};
        ChunkNext(d0, entries0, d, vol.view, entries1, entries, role1, role, ino, offset, i, src, len);
      }
    }

    /** The loop of `inode_write`, when the file is long enough. */
    method WriteBlocks(ino: nat, src: seq<Byte>, offset: nat, ghost d0: Disk, ghost entries0: seq<Entry>,
                       ghost fixed: set<nat>)
      returns (ok: bool, ghost touched: set<nat>)
      requires Good() && ino < |entries| == |entries0| && fixed == {InodeBlock(vol.sb, ino)} + BitmapBlocks(vol.sb)
      requires offset + |src| <= MAX_BYTES && Overlaid(d0, entries0[ino], vol.view, entries[ino], offset, offset, src)
      requires OthersKept(d0, vol.view, entries0, entries, ino)
      modifies this`entries, this`role, vol`view, vol`synced, vol`marks
      ensures Good() && |entries| == |entries0| && SameFixed(old(entries)[ino], entries[ino])
      ensures !ok ==> forall b :: vol.sb.DataStart() <= b < vol.sb.numBlocks ==> b in vol.marks
      ensures ok ==> Overlaid(d0, entries0[ino], vol.view, entries[ino], offset, offset + |src|, src)
      ensures ok ==> OthersKept(d0, vol.view, entries0, entries, ino)
      ensures Changed(old(vol.synced), vol.synced, fixed, touched, TableBlock(entries[ino]))
      ensures |touched| <= Span(offset, |src|)
    {
      hide Consistent, Overlaid, OthersKept, Changed, SameFixed, Round, Span, Marks;
      var i, end := offset, offset + |src|;
      ok := true;
      touched := {};
      ghost var n, hi := 0, offset;
      RoundFirst(offset, end);
      Unchanged(vol.synced, fixed, TableBlock(entries[ino]));
      SameFixedAtFirst(entries[ino]);
      while i < end
        invariant Good() && |entries| == |entries0| && SameFixed(old(entries)[ino], entries[ino])
        invariant hi == Min(i, end) && Overlaid(d0, entries0[ino], vol.view, entries[ino], offset, hi, src)
        invariant OthersKept(d0, vol.view, entries0, entries, ino)
        invariant Changed(old(vol.synced), vol.synced, fixed, touched, TableBlock(entries[ino]))
        invariant |touched| <= n && Round(offset, end, n, i)
      {
        RoundNext(offset, end, n, i);
        var len := Min(BLOCK_SIZE - i % BLOCK_SIZE, end - i);
        ghost var b, e, synced := {}, entries[ino], vol.synced;
        ok, b := WriteNext(ino, src, offset, i, len, d0, entries0, fixed);
        ChangedNext(old(vol.synced), synced, vol.synced, fixed, touched, b, TableBlock(e), TableBlock(entries[ino]));
        SameFixedTwice(old(entries)[ino], e, entries[ino]);
        touched, n, hi := touched + b, n + 1, i + len;
        i := (i / BLOCK_SIZE + 1) * BLOCK_SIZE;
        if !ok {
          break;
        }
      }
      RoundLast(offset, end, n, i);
    }

    /** Sets the size of the file and stores the entry. */
    method Resize(ino: nat, n: nat)
      requires Good() && ino < |entries| && n <= MAX_BYTES
      modifies this`entries, vol`view, vol`synced, vol`marks
      ensures Good() && entries == old(entries)[ino := old(entries)[ino].(numBytes := n)] && role == old(role)
      ensures vol.synced == old(vol.synced) + {InodeBlock(vol.sb, ino)} && vol.marks == old(vol.marks)
      ensures forall i :: 0 <= i < |old(entries)| ==> SameAddresses(old(vol.view), vol.view, old(entries)[i])
      ensures forall x :: x in role ==> Rd(vol.view, x) == Rd(old(vol.view), x)
    {
      ghost var d, entries0 := vol.view, entries;
      entries := entries[ino := entries[ino].(numBytes := n)];
      Sync(ino);
      EntryChanged(vol.sb, d, vol.view, entries0, role, ino, entries[ino]);
    }

    /** `inode_write`. On a device it goes to the console. Otherwise it panics exactly when an assertion fails
        or when the disk is full, or else the file is overwritten and extended as a plain byte sequence and
        every other file is the same. In any case few blocks have been changed. */
    method Write(ino: nat, src: seq<Byte>, offset: nat) returns (r: Option<nat>)
      requires Whole() && ino < |entries| && offset < TWO64 && |src| < TWO64
      modifies this, vol`view, vol`synced, vol`marks
      ensures vol.Valid() && |vol.synced| <= |old(vol.synced)| + 2 + Span(offset, |src|) + BitmapSize(vol.sb)
      ensures r.Some? ==> r.value == |src| && Whole() && |entries| == |old(entries)|
      ensures r.Some? ==> SameHead(old(entries)[ino], entries[ino])
      ensures r.Some? ==> OthersSame(old(vol.view), vol.view, old(entries), entries, ino)
      ensures var e := old(entries)[ino];
              if e.kind == DEVICE then
                && (r.None? <==> e.major != 1) && vol.view == old(vol.view) && entries == old(entries)
                && console == old(console) + if r.Some? then src else []
              else
                && console == old(console)
                && (offset > e.numBytes || offset + |src| > 140 * 512 ==> r.None?)
                && (r.None? && offset <= e.numBytes && offset + |src| <= 140 * 512 ==>
                      forall b :: vol.sb.DataStart() <= b < vol.sb.numBlocks ==> b in vol.marks)
                && (r.Some? ==> File(vol.view, entries[ino]) == Overwrite(File(old(vol.view), e), offset, src))
    {
      if entries[ino].kind == DEVICE {
        OthersAtFirst(vol.view, entries, ino);
        if entries[ino].major != 1 {
          return None;
        }
        console := console + src;
        return Some(|src|);
      }
      if !MayWrite(entries[ino].numBytes, offset, |src|) {
        return None;
      }
      r := WriteFile(ino, src, offset);
    }

    /** `inode_write`, when the assertions hold (lines 278-293). */
    method WriteFile(ino: nat, src: seq<Byte>, offset: nat) returns (r: Option<nat>)
      requires Whole() && ino < |entries| && offset <= entries[ino].numBytes && offset + |src| <= MAX_BYTES
      modifies this`entries, this`role, vol`view, vol`synced, vol`marks
      ensures vol.Valid() && |vol.synced| <= |old(vol.synced)| + 2 + Span(offset, |src|) + BitmapSize(vol.sb)
      ensures r.None? ==> forall b :: vol.sb.DataStart() <= b < vol.sb.numBlocks ==> b in vol.marks
      ensures r.Some? ==> r.value == |src| && Whole() && |entries| == |old(entries)|
      ensures r.Some? ==> SameHead(old(entries)[ino], entries[ino])
      ensures r.Some? ==> OthersSame(old(vol.view), vol.view, old(entries), entries, ino)
      ensures r.Some? ==> File(vol.view, entries[ino]) == Overwrite(File(old(vol.view), old(entries)[ino]), offset, src)
    {
      var end := offset + |src|;
      ghost var d0, entries0, role0, fixed := vol.view, entries, role, {InodeBlock(vol.sb, ino)} + BitmapBlocks(vol.sb);
      if entries[ino].numBytes < end {
        Resize(ino, end);
      }
      ghost var n, synced := entries[ino].numBytes, vol.synced;
      WriteStarts(d0, vol.view, entries0, entries, role0, ino, n, offset, src);
      ghost var touched;
      var ok;
      ok, touched := WriteBlocks(ino, src, offset, d0, entries0, fixed);
      ChangedBound(old(vol.synced), vol.synced, fixed, touched, TableBlock(entries[ino]));
      if !ok {
        return None;
      }
      OverlaidFile(d0, entries0[ino], vol.view, entries[ino], offset, src);
      OthersAre(d0, vol.view, entries0, entries, ino);
      StaysWhole(d0, vol.view, entries0, entries, ino);
      r := Some(|src|);
    }

    /** One round of the loop of `inode_read`: there is nothing to allocate. */
    method ReadChunk(ino: nat, i: nat, len: nat) returns (x: seq<Byte>)
      requires Good() && ino < |entries| && NoHoles(vol.view, entries[ino])
      requires 0 < len && i + len <= entries[ino].numBytes && i % BLOCK_SIZE + len <= BLOCK_SIZE
      modifies this`entries, this`role, vol`view, vol`synced, vol`marks
      ensures vol.view == old(vol.view) && entries == old(entries) && role == old(role)
      ensures vol.synced == old(vol.synced) && Good()
      ensures x == File(vol.view, entries[ino])[i..i + len]
    {
      assert Address(vol.view, entries[ino], i / BLOCK_SIZE) != 0;
      var b := Map(ino, i / BLOCK_SIZE);
      x := Rd(vol.view, b.value).bytes[i % BLOCK_SIZE..i % BLOCK_SIZE + len];
      BlockSlice(vol.view, entries[ino], i, len);
    }

    /** The loop of `inode_read`. */
    method ReadBlocks(ino: nat, offset: nat, end: nat) returns (dest: seq<Byte>)
      requires Good() && ino < |entries| && NoHoles(vol.view, entries[ino]) && offset <= end <= entries[ino].numBytes
      modifies this`entries, this`role, vol`view, vol`synced, vol`marks
      ensures vol.view == old(vol.view) && entries == old(entries) && role == old(role)
      ensures vol.synced == old(vol.synced) && Good()
      ensures dest == File(vol.view, entries[ino])[offset..end]
    {
      assert Fits(entries[ino]);
      hide Consistent, Marks, File, NoHoles;
      ghost var f, rounds := File(vol.view, entries[ino]), 0;
      var i := offset;
      dest := [];
      while i < end
        invariant Round(offset, end, rounds, i) && offset <= i && dest == f[offset..Min(i, end)]
        invariant vol.view == old(vol.view) && entries == old(entries) && role == old(role)
        invariant vol.synced == old(vol.synced) && Good()
      {
        RoundNext(offset, end, rounds, i);
        var len := Min(BLOCK_SIZE - i % BLOCK_SIZE, end - i);
        var x := ReadChunk(ino, i, len);
        Joined(f, offset, i, i + len, dest, x);
        dest := dest + x;
        i := (i / BLOCK_SIZE + 1) * BLOCK_SIZE;
        rounds := rounds + 1;
      }
    }

    /** `inode_read`. From a device it reads what is `typed` at the console. Otherwise it panics exactly when
        the offset is beyond the end of the file or the sum of offset and count does not fit in 64 bits. */
    method Read(ino: nat, offset: nat, count: nat, typed: seq<Byte>) returns (r: Option<seq<Byte>>)
      requires Whole() && ino < |entries| && offset < TWO64 && count < TWO64 && |typed| <= count
      modifies this`entries, this`role, vol`view, vol`synced, vol`marks
      ensures vol.view == old(vol.view) && entries == old(entries) && role == old(role) && vol.synced == old(vol.synced)
      ensures Whole()
      ensures var e := entries[ino];
              if e.kind == DEVICE then r == if e.major == 1 then Some(typed) else None
              else
                && (r.None? <==> offset > e.numBytes || offset + count >= TWO64)
                && (r.Some? ==> r.value == File(vol.view, e)[offset..Min(offset + count, e.numBytes)])
    {
      if entries[ino].kind == DEVICE {
        return if entries[ino].major == 1 then Some(typed) else None;
      }
      var end := ReadEnd(entries[ino].numBytes, offset, count);
      if end.None? {
        return None;
      }
      var dest := ReadBlocks(ino, offset, end.value);
      r := Some(dest);
    }

    /** `inode_clear` gives block `k`, at address `a`, back if there is one; `n` and `hi` say how far it
        is, and `d` and `entries0` are the file system before. */
    method FreeBlock(ino: nat, a: nat, ghost k: nat, ghost n: nat, ghost hi: nat, ghost d: Disk,
                     ghost entries0: seq<Entry>)
      requires vol.Valid() && Mapped(d, entries0, role) && InData(vol.sb, role.Keys) && ino < |entries0|
      requires Left(vol.marks, role, ino, n, hi) && n <= NUM_DIRECT <= hi && (k == n < NUM_DIRECT || k == hi)
      requires k <= MAX_BLOCKS
      requires a == Address(d, entries0[ino], k)
      modifies vol`view, vol`synced, vol`marks
      ensures vol.Valid()
      ensures (if k == hi then Left(vol.marks, role, ino, n, hi + 1) else Left(vol.marks, role, ino, n + 1, hi))
      ensures forall x :: !vol.sb.InBitmap(x) ==> Rd(vol.view, x) == Rd(old(vol.view), x)
      ensures vol.synced <= old(vol.synced) + BitmapBlocks(vol.sb)
    {
      LeftNext(d, entries0, role, ino, n, hi, vol.marks, k);
      if a != 0 {
        BitmapHas(vol.sb, a);
        vol.Free(a);
      }
    }

    /** `inode_clear`, the blocks in the table and the table itself. */
    method FreeTable(ino: nat)
      requires Good() && ino < |entries| && entries[ino].indirect != 0
      modifies vol`view, vol`synced, vol`marks
      ensures vol.Valid() && Left(vol.marks, role, ino, 0, MAX_BLOCKS + 1)
      ensures forall x :: !vol.sb.InBitmap(x) ==> Rd(vol.view, x) == Rd(old(vol.view), x)
      ensures vol.synced <= old(vol.synced) + BitmapBlocks(vol.sb)
    {
      ghost var d := vol.view;
      var t := entries[ino].indirect;
      var inblock := Rd(vol.view, t).bytes;
      var i := 0;
      while i < NUM_INDIRECT
        invariant i <= NUM_INDIRECT && vol.Valid() && Left(vol.marks, role, ino, 0, NUM_DIRECT + i)
        invariant forall x :: !vol.sb.InBitmap(x) ==> Rd(vol.view, x) == Rd(d, x)
        invariant vol.synced <= old(vol.synced) + BitmapBlocks(vol.sb)
      {
        FreeBlock(ino, WordAt(inblock, 4 * i, 4), NUM_DIRECT + i, 0, NUM_DIRECT + i, d, entries);
        i := i + 1;
      }
      FreeBlock(ino, t, MAX_BLOCKS, 0, MAX_BLOCKS, d, entries);
    }

    /** `inode_clear`, the direct blocks. */
    method FreeDirect(ino: nat, ghost d: Disk, ghost entries0: seq<Entry>)
      requires vol.Valid() && Mapped(d, entries0, role) && InData(vol.sb, role.Keys)
      requires Left(vol.marks, role, ino, 0, MAX_BLOCKS + 1)
      requires ino < |entries0| && entries == entries0[ino := entries0[ino].(indirect := 0)]
      modifies vol`view, vol`synced, vol`marks, this`entries
      ensures vol.Valid() && Left(vol.marks, role, ino, NUM_DIRECT, MAX_BLOCKS + 1)
      ensures entries == entries0[ino := entries0[ino].(indirect := 0, addrs := Cleared(entries0[ino]).addrs)]
      ensures forall x :: !vol.sb.InBitmap(x) ==> Rd(vol.view, x) == Rd(old(vol.view), x)
      ensures vol.synced <= old(vol.synced) + BitmapBlocks(vol.sb)
    {
      var i := 0;
      ghost var addrs := entries0[ino].addrs;
      while i < NUM_DIRECT
        invariant i <= NUM_DIRECT && vol.Valid() && Left(vol.marks, role, ino, i, MAX_BLOCKS + 1)
        invariant |addrs| == NUM_DIRECT && entries == entries0[ino := entries0[ino].(indirect := 0, addrs := addrs)]
        invariant forall l :: 0 <= l < NUM_DIRECT ==> addrs[l] == if l < i then 0 else entries0[ino].addrs[l]
        invariant forall x :: !vol.sb.InBitmap(x) ==> Rd(vol.view, x) == Rd(old(vol.view), x)
        invariant vol.synced <= old(vol.synced) + BitmapBlocks(vol.sb)
      {
        FreeBlock(ino, entries[ino].addrs[i], i, i, MAX_BLOCKS + 1, d, entries0);
        addrs := addrs[i := 0];
        entries := entries[ino := entries[ino].(addrs := entries[ino].addrs[i := 0])];
        i := i + 1;
      }
      assert addrs == Cleared(entries0[ino]).addrs;
    }

    /** `inode_clear`: the file is empty, its direct blocks, its table and the blocks in it are
        free again, and nothing else changes. */
    method Clear(ino: nat)
      requires Good() && ino < |entries|
      modifies this`entries, this`role, vol`view, vol`synced, vol`marks
      ensures (old(Whole()) ==> Whole())
      ensures Good() && entries == old(entries)[ino := Cleared(old(entries)[ino])] && role == Released(old(role), ino)
      ensures SameHead(old(entries)[ino], entries[ino])
      ensures var e := entries[ino]; e.numBytes == 0 && e.indirect == 0 && forall k :: 0 <= k < 12 ==> e.addrs[k] == 0
      ensures forall b :: b in vol.marks <==> b in old(vol.marks) && old(role)[b].ino != ino
      ensures OthersSame(old(vol.view), vol.view, old(entries), entries, ino)
      ensures vol.synced <= old(vol.synced) + {InodeBlock(vol.sb, ino)} + BitmapBlocks(vol.sb)
    {
      ghost var d, entries0 := vol.view, entries;
      if entries[ino].indirect != 0 {
        FreeTable(ino);
        entries := entries[ino := entries[ino].(indirect := 0)];
      } else {
        LeftNoTable(d, entries, role, ino, vol.marks);
        assert entries == entries0[ino := entries0[ino].(indirect := 0)];
      }
      FreeDirect(ino, d, entries0);
      entries := entries[ino := entries[ino].(numBytes := 0)];
      ghost var d1 := vol.view;
      assert entries == entries0[ino := Cleared(entries0[ino])];
      Sync(ino);
      LeftAll(d, entries0, role, ino, vol.marks);
      ClearedConsistent(vol.sb, d, d1, vol.view, entries0, role, ino);
      OthersAre(d, vol.view, entries0, entries, ino);
      role := Released(role, ino);
      if AllWhole(d, entries0) { StaysWhole(d, vol.view, entries0, entries, ino); }
    }
  }
}
