/**
Inodes on the disk and the blocks of their files (`src/fs/inode.c`, `src/fs/defines.h`): the
64-byte entries in the inode blocks, the twelve direct addresses and the indirect table, who
uses which block, and what one new block does to all of that.
*/
module InodeLayout {
  import opened Basics
  import opened Bytes
  import opened LogDisk
  import opened Bitmap

  const NUM_DIRECT: nat := 12
  const NUM_INDIRECT: nat := 128
  const MAX_BLOCKS: nat := 140
  const MAX_BYTES: nat := 71680
  const DEVICE: nat := 3

  /** `InodeEntry` */
  datatype Entry = Entry(kind: nat, major: nat, minor: nat, links: nat, numBytes: nat, addrs: seq<nat>, indirect: nat)

  // ----- entries on the disk

  ghost predicate Fits(e: Entry) {
    && e.kind < 65536 && e.major < 65536 && e.minor < 65536 && e.links < 65536
    && e.numBytes <= MAX_BYTES && |e.addrs| == NUM_DIRECT && e.indirect < 0x1_0000_0000
    && forall k :: 0 <= k < NUM_DIRECT ==> e.addrs[k] < 0x1_0000_0000
  }

  function Shorts(e: Entry): seq<nat> { [e.kind, e.major, e.minor, e.links] }

  function Longs(e: Entry): seq<nat> { [e.numBytes] + e.addrs + [e.indirect] }

  function EncodeEntry(e: Entry): (r: seq<Byte>)
    requires |e.addrs| == NUM_DIRECT
    ensures |r| == 64
  {
    Pack(Shorts(e), 2) + Pack(Longs(e), 4)
  }

  function DecodeEntry(b: seq<Byte>): (e: Entry)
    requires |b| == 64
    ensures |e.addrs| == NUM_DIRECT
  {
    var s, l := Unpack(b[..8], 2, 4), Unpack(b[8..], 4, 14);
    Entry(s[0], s[1], s[2], s[3], l[0], l[1..13], l[13])
  }

  lemma {:induction false} PowersOf256()
    ensures Pow256(2) == 65536 && Pow256(4) == 0x1_0000_0000
  {
    assert Pow256(3) == 256 * Pow256(2);
  }

  lemma {:induction false} EntryRoundTrip(e: Entry)
    requires Fits(e)
    ensures DecodeEntry(EncodeEntry(e)) == e
  {
    var b, s, l := EncodeEntry(e), Shorts(e), Longs(e);
    PowersOf256();
    UnpackPack(s, 2);
    UnpackPack(l, 4);
    assert b[..8] == Pack(s, 2) && b[8..] == Pack(l, 4);
    assert l[1..13] == e.addrs;
  }

  /** Where the fields of `InodeEntry` are, in any 64 bytes. */
  lemma {:induction false} DecodedFields(b: seq<Byte>, k: nat)
    requires |b| == 64 && k < 12
    ensures var e := DecodeEntry(b);
            && e.kind == WordAt(b, 0, 2) && e.major == WordAt(b, 2, 2) && e.minor == WordAt(b, 4, 2)
            && e.links == WordAt(b, 6, 2) && e.numBytes == WordAt(b, 8, 4)
            && e.addrs[k] == WordAt(b, 12 + 4 * k, 4) && e.indirect == WordAt(b, 60, 4)
  {
    hide Unpack, FromBytes;
    ShortField(b, 0);
    ShortField(b, 1);
    ShortField(b, 2);
    ShortField(b, 3);
    LongField(b, 0);
    LongField(b, 1 + k);
    LongField(b, 13);
  }

  lemma {:induction false} ShortField(b: seq<Byte>, i: nat)
    requires |b| == 64 && i < 4
    ensures Unpack(b[..8], 2, 4)[i] == WordAt(b, 2 * i, 2)
  {
    UnpackedWord(b[..8], 2, 4, i);
    assert b[..8][2 * i..2 * i + 2] == b[2 * i..2 * i + 2];
  }

  lemma {:induction false} LongField(b: seq<Byte>, i: nat)
    requires |b| == 64 && i < 14
    ensures Unpack(b[8..], 4, 14)[i] == WordAt(b, 8 + 4 * i, 4)
  {
    UnpackedWord(b[8..], 4, 14, i);
    assert b[8..][4 * i..4 * i + 4] == b[8 + 4 * i..8 + 4 * i + 4];
  }

  /** Where `inode_sync` puts the fields. */
  lemma {:induction false} EncodedFields(e: Entry, k: nat)
    requires Fits(e) && k < 12
    ensures var b := EncodeEntry(e);
            && WordAt(b, 0, 2) == e.kind && WordAt(b, 2, 2) == e.major && WordAt(b, 4, 2) == e.minor
            && WordAt(b, 6, 2) == e.links && WordAt(b, 8, 4) == e.numBytes
            && WordAt(b, 12 + 4 * k, 4) == e.addrs[k] && WordAt(b, 60, 4) == e.indirect
  {
    hide DecodeEntry, EncodeEntry, WordAt;
    EntryRoundTrip(e);
    DecodedFields(EncodeEntry(e), k);
  }

  function InodeBlock(sb: SuperBlock, ino: nat): nat { sb.inodeStart + ino / 8 }

  function EntryBytes(sb: SuperBlock, d: Disk, ino: nat): (r: seq<Byte>)
    ensures |r| == 64
  {
    Rd(d, InodeBlock(sb, ino)).bytes[ino % 8 * 64..ino % 8 * 64 + 64]
  }

  function StoredEntry(sb: SuperBlock, d: Disk, ino: nat): Entry {
    DecodeEntry(EntryBytes(sb, d, ino))
  }

  function StoreBytes(sb: SuperBlock, d: Disk, ino: nat, x: seq<Byte>): Disk
    requires |x| == 64
  {
    var ib := InodeBlock(sb, ino);
    d[ib := Raw(Splice(Rd(d, ib).bytes, ino % 8 * 64, x))]
  }

  lemma {:induction false} BytesBack(sb: SuperBlock, d: Disk, ino: nat, x: seq<Byte>, j: nat)
    requires |x| == 64
    ensures EntryBytes(sb, StoreBytes(sb, d, ino, x), j) == if j == ino then x else EntryBytes(sb, d, j)
  {
    if j / 8 == ino / 8 {
      assert j % 8 == ino % 8 ==> j == ino;
      SliceSpliced(Rd(d, InodeBlock(sb, ino)).bytes, ino % 8 * 64, x, j % 8 * 64);
    }
  }

  /** Storing an entry leaves all other entries, and all other blocks, as they were. */
  lemma {:induction false} StoredBack(sb: SuperBlock, d: Disk, ino: nat, e: Entry, j: nat)
    requires Fits(e)
    ensures StoredEntry(sb, StoreBytes(sb, d, ino, EncodeEntry(e)), j) == if j == ino then e else StoredEntry(sb, d, j)
    ensures forall x :: x != InodeBlock(sb, ino) ==> Rd(StoreBytes(sb, d, ino, EncodeEntry(e)), x) == Rd(d, x)
  {
    hide EncodeEntry, DecodeEntry, Splice, EntryBytes;
    BytesBack(sb, d, ino, EncodeEntry(e), j);
    EntryRoundTrip(e);
  }

  // ----- the blocks of a file

  function Table(d: Disk, e: Entry, k: nat): nat
    requires k < NUM_INDIRECT
  {
    WordAt(Rd(d, e.indirect).bytes, 4 * k, 4)
  }

  /** The address of block `k` of the file, or zero; number `MAX_BLOCKS` is the indirect table. */
  function Address(d: Disk, e: Entry, k: nat): nat
    requires k <= MAX_BLOCKS && |e.addrs| == NUM_DIRECT
  {
    if k < NUM_DIRECT then e.addrs[k]
    else if k == MAX_BLOCKS || e.indirect == 0 then e.indirect
    else Table(d, e, k - NUM_DIRECT)
  }

  function ByteAt(d: Disk, e: Entry, p: nat): Byte
    requires p < MAX_BYTES && |e.addrs| == NUM_DIRECT
  {
    Rd(d, Address(d, e, p / BLOCK_SIZE)).bytes[p % BLOCK_SIZE]
  }

  /** The content of the file. */
  ghost function File(d: Disk, e: Entry): (r: seq<Byte>)
    requires |e.addrs| == NUM_DIRECT && e.numBytes <= MAX_BYTES
    ensures |r| == e.numBytes
  {
    FilePrefix(d, e, e.numBytes)
  }

  ghost function FilePrefix(d: Disk, e: Entry, n: nat): (r: seq<Byte>)
    requires |e.addrs| == NUM_DIRECT && n <= MAX_BYTES
    ensures |r| == n
  {
    if n == 0 then [] else FilePrefix(d, e, n - 1) + [ByteAt(d, e, n - 1)]
  }

  lemma {:induction false} PrefixAt(d: Disk, e: Entry, n: nat, p: nat)
    requires |e.addrs| == NUM_DIRECT && p < n <= MAX_BYTES
    ensures FilePrefix(d, e, n)[p] == ByteAt(d, e, p)
    decreases n
  {
    if p < n - 1 { PrefixAt(d, e, n - 1, p); }
  }

  lemma {:induction false} FileAt(d: Disk, e: Entry, p: nat)
    requires |e.addrs| == NUM_DIRECT && p < e.numBytes <= MAX_BYTES
    ensures File(d, e)[p] == ByteAt(d, e, p)
  {
    PrefixAt(d, e, e.numBytes, p);
  }

  // ----- the disk, read byte by byte

  /** A little-endian number in block `x`. */
  function RawWord(d: Disk, x: nat, off: nat, k: nat): nat
    requires off + k <= BLOCK_SIZE
  {
    Weighted(Rd(d, x).bytes[off..off + k], k)
  }

  /** The struct `InodeEntry` at byte `o` of block `x` holds `e`. */
  ghost predicate EntryAt(d: Disk, x: nat, o: nat, e: Entry)
    requires o + 64 <= BLOCK_SIZE
  {
    && e.kind == RawWord(d, x, o, 2) && e.major == RawWord(d, x, o + 2, 2) && e.minor == RawWord(d, x, o + 4, 2)
    && e.links == RawWord(d, x, o + 6, 2) && e.numBytes == RawWord(d, x, o + 8, 4)
    && |e.addrs| == 12 && (forall k :: 0 <= k < 12 ==> e.addrs[k] == RawWord(d, x, o + 12 + 4 * k, 4))
    && e.indirect == RawWord(d, x, o + 60, 4)
  }

  /** Inode `ino` starts at byte `64 * (ino % 8)` of block `inode_start + ino / 8`. */
  lemma {:induction false} EntryOnDisk(sb: SuperBlock, d: Disk, ino: nat)
    ensures EntryAt(d, sb.inodeStart + ino / 8, 64 * (ino % 8), StoredEntry(sb, d, ino))
  {
    hide DecodeEntry, WordAt, RawWord;
    var b, e := EntryBytes(sb, d, ino), StoredEntry(sb, d, ino);
    forall k | 0 <= k < 12
      ensures e.addrs[k] == RawWord(d, sb.inodeStart + ino / 8, 64 * (ino % 8) + 12 + 4 * k, 4)
    {
      DecodedFields(b, k);
      FieldOnDisk(sb, d, ino, 12 + 4 * k, 4);
    }
    DecodedFields(b, 0);
    FieldOnDisk(sb, d, ino, 0, 2);
    FieldOnDisk(sb, d, ino, 2, 2);
    FieldOnDisk(sb, d, ino, 4, 2);
    FieldOnDisk(sb, d, ino, 6, 2);
    FieldOnDisk(sb, d, ino, 8, 4);
    FieldOnDisk(sb, d, ino, 60, 4);
  }

  /** What `inode_sync` leaves there. */
  lemma {:induction false} EntrySynced(sb: SuperBlock, d: Disk, ino: nat, e: Entry)
    requires Fits(e)
    ensures EntryAt(StoreBytes(sb, d, ino, EncodeEntry(e)), sb.inodeStart + ino / 8, 64 * (ino % 8), e)
  {
    hide EntryAt, EncodeEntry, StoreBytes, StoredEntry;
    StoredBack(sb, d, ino, e, ino);
    EntryOnDisk(sb, StoreBytes(sb, d, ino, EncodeEntry(e)), ino);
  }

  lemma {:induction false} SliceOfSlice(b: seq<Byte>, o: nat, m: nat, off: nat, n: nat)
    requires o + m <= |b| && off + n <= m
    ensures b[o..o + m][off..off + n] == b[o + off..o + off + n]
  {
    var x, y := b[o..o + m][off..off + n], b[o + off..o + off + n];
    assert |x| == |y| == n;
    forall i | 0 <= i < n ensures x[i] == y[i] {
      assert x[i] == b[o..o + m][off + i] == b[o + off + i];
    }
  }

  lemma {:induction false} FieldOnDisk(sb: SuperBlock, d: Disk, ino: nat, off: nat, n: nat)
    requires off + n <= 64
    ensures WordAt(EntryBytes(sb, d, ino), off, n) == RawWord(d, sb.inodeStart + ino / 8, 64 * (ino % 8) + off, n)
  {
    var b, o := Rd(d, InodeBlock(sb, ino)).bytes, 64 * (ino % 8);
    SliceOfSlice(b, o, 64, off, n);
    LittleEndian(b[o + off..o + off + n]);
  }

  /** The number of block `k` of the file of inode `ino`: one of twelve direct ones, or one of 128 in the
      indirect block. */
  function RawAddress(sb: SuperBlock, d: Disk, ino: nat, k: nat): nat
    requires k < 140
  {
    var x, o := sb.inodeStart + ino / 8, 64 * (ino % 8);
    if k < 12 then RawWord(d, x, o + 12 + 4 * k, 4)
    else if RawWord(d, x, o + 60, 4) == 0 then 0
    else RawWord(d, RawWord(d, x, o + 60, 4), 4 * (k - 12), 4)
  }

  /** The content of a file, in terms of nothing but the bytes of the disk. */
  lemma {:induction false} FileOnDisk(sb: SuperBlock, d: Disk, ino: nat, p: nat)
    requires StoredEntry(sb, d, ino).numBytes <= 71680 && p < StoredEntry(sb, d, ino).numBytes
    ensures |File(d, StoredEntry(sb, d, ino))| == RawWord(d, sb.inodeStart + ino / 8, 64 * (ino % 8) + 8, 4)
    ensures File(d, StoredEntry(sb, d, ino))[p] == Rd(d, RawAddress(sb, d, ino, p / 512)).bytes[p % 512]
  {
    var e, k := StoredEntry(sb, d, ino), p / 512;
    FileAt(d, e, p);
    AddressOnDisk(sb, d, ino, k);
    EntryOnDisk(sb, d, ino);
  }

  lemma {:induction false} AddressOnDisk(sb: SuperBlock, d: Disk, ino: nat, k: nat)
    requires k < 140
    ensures Address(d, StoredEntry(sb, d, ino), k) == RawAddress(sb, d, ino, k)
  {
    hide DecodeEntry, EntryBytes, Weighted, FromBytes;
    var e := StoredEntry(sb, d, ino);
    EntryOnDisk(sb, d, ino);
    if k >= 12 {
      LittleEndian(Rd(d, e.indirect).bytes[4 * (k - 12)..4 * (k - 12) + 4]);
    }
  }

  ghost predicate NoHoles(d: Disk, e: Entry)
    requires |e.addrs| == NUM_DIRECT && e.numBytes <= MAX_BYTES
  {
    forall k :: 0 <= k && BLOCK_SIZE * k < e.numBytes ==> Address(d, e, k) != 0
  }

  // ----- who uses which block

  datatype Role = Role(ino: nat, k: nat)

  /** Every address in use has its one role, so no two are equal. */
  ghost predicate Mapped(d: Disk, entries: seq<Entry>, role: map<nat, Role>) {
    && (forall i :: 0 <= i < |entries| ==> Fits(entries[i]))
    && (forall i, k :: 0 <= i < |entries| && 0 <= k <= MAX_BLOCKS && Address(d, entries[i], k) != 0 ==>
          Address(d, entries[i], k) in role && role[Address(d, entries[i], k)] == Role(i, k))
    && (forall b :: b in role ==> UsedAs(d, entries, role[b], b))
  }

  ghost predicate UsedAs(d: Disk, entries: seq<Entry>, x: Role, b: nat) {
    b != 0 && x.ino < |entries| && x.k <= MAX_BLOCKS && |entries[x.ino].addrs| == NUM_DIRECT &&
      Address(d, entries[x.ino], x.k) == b
  }

  ghost predicate Stored(sb: SuperBlock, d: Disk, entries: seq<Entry>) {
    forall i {:trigger StoredEntry(sb, d, i)} :: 0 <= i < |entries| ==> StoredEntry(sb, d, i) == entries[i]
  }

  /** All addresses of an inode are the same in `d` and `d'`. */
  ghost predicate SameAddresses(d: Disk, d': Disk, e: Entry)
    requires |e.addrs| == NUM_DIRECT
  {
    forall k :: 0 <= k <= MAX_BLOCKS ==> Address(d', e, k) == Address(d, e, k)
  }

  lemma {:induction false} AddressesKept(d: Disk, d': Disk, e: Entry)
    requires |e.addrs| == NUM_DIRECT && (e.indirect == 0 || Rd(d', e.indirect) == Rd(d, e.indirect))
    ensures SameAddresses(d, d', e)
  {
  }

  /** Changes outside the blocks in use keep every address. */
  lemma {:induction false} AllAddressesKept(d: Disk, d': Disk, entries: seq<Entry>, role: map<nat, Role>)
    requires Mapped(d, entries, role) && forall x :: x in role && role[x].k == MAX_BLOCKS ==> Rd(d', x) == Rd(d, x)
    ensures forall i :: 0 <= i < |entries| ==> SameAddresses(d, d', entries[i])
  {
    forall i | 0 <= i < |entries| ensures SameAddresses(d, d', entries[i]) {
      assert Address(d, entries[i], MAX_BLOCKS) == entries[i].indirect;
      AddressesKept(d, d', entries[i]);
    }
  }

  lemma {:induction false} MappedKept(d: Disk, d': Disk, entries: seq<Entry>, role: map<nat, Role>)
    requires Mapped(d, entries, role) && forall i :: 0 <= i < |entries| ==> SameAddresses(d, d', entries[i])
    ensures Mapped(d', entries, role)
  {
    forall b | b in role ensures UsedAs(d', entries, role[b], b) {
      assert UsedAs(d, entries, role[b], b);
      assert SameAddresses(d, d', entries[role[b].ino]);
    }
    forall i, k | 0 <= i < |entries| && 0 <= k <= MAX_BLOCKS && Address(d', entries[i], k) != 0
      ensures Address(d', entries[i], k) in role && role[Address(d', entries[i], k)] == Role(i, k)
    {
      assert SameAddresses(d, d', entries[i]);
      assert Address(d, entries[i], k) != 0;
    }
  }

  /** Inode `ino` has `b` at `k`, where it had nothing, and all else as before. */
  ghost predicate Attached(d: Disk, d': Disk, entries: seq<Entry>, ino: nat, e': Entry, k: nat, b: nat)
    requires forall i :: 0 <= i < |entries| ==> |entries[i].addrs| == NUM_DIRECT
  {
    && ino < |entries| && k <= MAX_BLOCKS && |e'.addrs| == NUM_DIRECT
    && Address(d, entries[ino], k) == 0 && Address(d', e', k) == b
    && (forall l :: 0 <= l <= MAX_BLOCKS && l != k ==> Address(d', e', l) == Address(d, entries[ino], l))
    && (forall i :: 0 <= i < |entries| && i != ino ==> SameAddresses(d, d', entries[i]))
  }

  lemma {:induction false} AttachedMapped(d: Disk, d': Disk, entries: seq<Entry>, role: map<nat, Role>, ino: nat,
                                          e': Entry, k: nat, b: nat)
    requires Mapped(d, entries, role) && Attached(d, d', entries, ino, e', k, b) && Fits(e') && b !in role && b != 0
    ensures Mapped(d', entries[ino := e'], role[b := Role(ino, k)])
  {
    var entries', role' := entries[ino := e'], role[b := Role(ino, k)];
    forall x | x in role' ensures UsedAs(d', entries', role'[x], x) {
      if x != b {
        assert UsedAs(d, entries, role[x], x);
        assert role[x].ino != ino ==> SameAddresses(d, d', entries[role[x].ino]);
      }
    }
    forall i, l | 0 <= i < |entries| && 0 <= l <= MAX_BLOCKS && Address(d', entries'[i], l) != 0
      ensures Address(d', entries'[i], l) in role' && role'[Address(d', entries'[i], l)] == Role(i, l)
    {
      if !(i == ino && l == k) {
        assert i != ino ==> SameAddresses(d, d', entries[i]);
        assert Address(d', entries'[i], l) == Address(d, entries[i], l);
      }
    }
  }

  // ----- the whole file system

  /** The entries in memory are those on the disk, and every block in use is a data block with
      one role. */
  ghost predicate Consistent(sb: SuperBlock, d: Disk, entries: seq<Entry>, role: map<nat, Role>) {
    && sb.Ordered() && |entries| == sb.numInodes && InData(sb, role.Keys)
    && Mapped(d, entries, role) && Stored(sb, d, entries)
  }

  ghost predicate InData(sb: SuperBlock, used: set<nat>) {
    forall b :: b in used ==> sb.DataStart() <= b < sb.numBlocks
  }

  /** Changes outside the inode blocks keep the entries on the disk. */
  lemma {:induction false} StoredKept(sb: SuperBlock, d: Disk, d': Disk, entries: seq<Entry>)
    requires sb.Ordered() && |entries| == sb.numInodes && Stored(sb, d, entries)
    requires forall x :: 0 <= x < sb.bitmapStart ==> Rd(d', x) == Rd(d, x)
    ensures Stored(sb, d', entries)
  {
    forall i | 0 <= i < |entries| ensures StoredEntry(sb, d', i) == entries[i] {
      assert i / 8 <= sb.numInodes / 8;
      assert EntryBytes(sb, d', i) == EntryBytes(sb, d, i);
      assert StoredEntry(sb, d, i) == entries[i];
    }
  }

  lemma {:induction false} EntryWrite(sb: SuperBlock, d: Disk, entries: seq<Entry>, ino: nat, e: Entry, d': Disk)
    requires Stored(sb, d, entries) && ino < |entries| && Fits(e) && d' == StoreBytes(sb, d, ino, EncodeEntry(e))
    ensures Stored(sb, d', entries[ino := e])
  {
    forall i | 0 <= i < |entries| ensures StoredEntry(sb, d', i) == entries[ino := e][i] {
      StoredBack(sb, d, ino, e, i);
      assert StoredEntry(sb, d, i) == entries[i];
    }
  }

  // ----- using a new block `b`; `d1` is the disk right after its allocation

  lemma {:induction false} ZeroWords(b: seq<Byte>)
    requires forall i :: 0 <= i < |b| ==> b[i] == 0
    ensures FromBytes(b) == 0
    decreases |b|
  {
    if b != [] { ZeroWords(b[1..]); }
  }

  /** A direct block. */
  lemma {:induction false} AttachDirect(d: Disk, d': Disk, entries: seq<Entry>, role: map<nat, Role>, ino: nat,
                                        k: nat, b: nat)
    requires Mapped(d, entries, role) && ino < |entries| && k < NUM_DIRECT && entries[ino].addrs[k] == 0
    requires b !in role && 0 < b < 0x1_0000_0000 && forall x :: x in role ==> Rd(d', x) == Rd(d, x)
    ensures Mapped(d', entries[ino := entries[ino].(addrs := entries[ino].addrs[k := b])], role[b := Role(ino, k)])
  {
    AllAddressesKept(d, d', entries, role);
    var e := entries[ino];
    var e' := e.(addrs := e.addrs[k := b]);
    assert SameAddresses(d, d', e);
    forall l | 0 <= l <= MAX_BLOCKS && l != k ensures Address(d', e', l) == Address(d, e, l) {
      assert l >= NUM_DIRECT ==> Address(d', e', l) == Address(d', e, l);
    }
    AttachedMapped(d, d', entries, role, ino, e', k, b);
  }

  /** A new indirect table, which is empty. */
  lemma {:induction false} AttachTable(d: Disk, d': Disk, entries: seq<Entry>, role: map<nat, Role>, ino: nat, b: nat)
    requires Mapped(d, entries, role) && ino < |entries| && entries[ino].indirect == 0
    requires b !in role && 0 < b < 0x1_0000_0000 && forall x :: x in role ==> Rd(d', x) == Rd(d, x)
    requires Rd(d', b) == Zeroes()
    ensures Mapped(d', entries[ino := entries[ino].(indirect := b)], role[b := Role(ino, MAX_BLOCKS)])
  {
    AllAddressesKept(d, d', entries, role);
    var e := entries[ino];
    forall l | 0 <= l < MAX_BLOCKS ensures Address(d', e.(indirect := b), l) == Address(d, e, l) {
      if l >= NUM_DIRECT { ZeroWords(Zeroes().bytes[4 * (l - NUM_DIRECT)..4 * (l - NUM_DIRECT) + 4]); }
    }
    AttachedMapped(d, d', entries, role, ino, e.(indirect := b), MAX_BLOCKS, b);
  }

  /** Another word in the table. */
  lemma {:induction false} TableWord(d: Disk, d': Disk, e: Entry, k: nat, b: nat, l: nat)
    requires NUM_DIRECT <= k < MAX_BLOCKS && b < 0x1_0000_0000 && l <= MAX_BLOCKS && |e.addrs| == NUM_DIRECT
    requires e.indirect != 0
    requires Rd(d', e.indirect) == Raw(Splice(Rd(d, e.indirect).bytes, 4 * (k - NUM_DIRECT), ToBytes(b, 4)))
    ensures Address(d', e, l) == if l == k then b else Address(d, e, l)
  {
    if NUM_DIRECT <= l < MAX_BLOCKS {
      PowersOf256();
      WordSpliced(Rd(d, e.indirect).bytes, 4 * (k - NUM_DIRECT), 4, b, 4 * (l - NUM_DIRECT));
    }
  }

  /** A block in the table. */
  lemma {:induction false} AttachInTable(d: Disk, d': Disk, entries: seq<Entry>, role: map<nat, Role>, ino: nat,
                                         k: nat, b: nat)
    requires Mapped(d, entries, role) && ino < |entries| && NUM_DIRECT <= k < MAX_BLOCKS
    requires entries[ino].indirect != 0 && Address(d, entries[ino], k) == 0
    requires b !in role && 0 < b < 0x1_0000_0000
    requires var t := entries[ino].indirect;
             && (forall x :: x in role && x != t ==> Rd(d', x) == Rd(d, x))
             && Rd(d', t) == Raw(Splice(Rd(d, t).bytes, 4 * (k - NUM_DIRECT), ToBytes(b, 4)))
    ensures Mapped(d', entries, role[b := Role(ino, k)]) && Address(d', entries[ino], k) == b
  {
    var e := entries[ino];
    assert Address(d, e, MAX_BLOCKS) == e.indirect;
    assert Attached(d, d', entries, ino, e, k, b) by {
      forall l | 0 <= l <= MAX_BLOCKS ensures Address(d', e, l) == if l == k then b else Address(d, e, l) {
        TableWord(d, d', e, k, b, l);
      }
      forall i | 0 <= i < |entries| && i != ino ensures SameAddresses(d, d', entries[i]) {
        assert Address(d, entries[i], MAX_BLOCKS) == entries[i].indirect;
        AddressesKept(d, d', entries[i]);
      }
    }
    AttachedMapped(d, d', entries, role, ino, e, k, b);
    assert entries[ino := e] == entries;
  }

  lemma {:induction false} DirectAdded(sb: SuperBlock, d: Disk, d1: Disk, d': Disk, entries: seq<Entry>,
                                       role: map<nat, Role>, ino: nat, k: nat, b: nat)
    requires Consistent(sb, d, entries, role) && Outside(sb, d, d1, b) && b !in role
    requires sb.DataStart() <= b < sb.numBlocks
    requires ino < |entries| && k < NUM_DIRECT && entries[ino].addrs[k] == 0
    requires d' == StoreBytes(sb, d1, ino, EncodeEntry(entries[ino].(addrs := entries[ino].addrs[k := b])))
    ensures Consistent(sb, d', entries[ino := entries[ino].(addrs := entries[ino].addrs[k := b])],
                       role[b := Role(ino, k)])
    ensures forall x :: x in role ==> Rd(d', x) == Rd(d, x)
  {
    var e' := entries[ino].(addrs := entries[ino].addrs[k := b]);
    assert ino / 8 <= sb.numInodes / 8;
    StoredKept(sb, d, d1, entries);
    EntryWrite(sb, d1, entries, ino, e', d');
    AttachDirect(d, d', entries, role, ino, k, b);
  }

  lemma {:induction false} TableAdded(sb: SuperBlock, d: Disk, d1: Disk, d': Disk, entries: seq<Entry>,
                                      role: map<nat, Role>, ino: nat, b: nat)
    requires Consistent(sb, d, entries, role) && Outside(sb, d, d1, b) && b !in role
    requires sb.DataStart() <= b < sb.numBlocks
    requires ino < |entries| && entries[ino].indirect == 0 && Rd(d1, b) == Zeroes()
    requires d' == StoreBytes(sb, d1, ino, EncodeEntry(entries[ino].(indirect := b)))
    ensures Consistent(sb, d', entries[ino := entries[ino].(indirect := b)], role[b := Role(ino, MAX_BLOCKS)])
    ensures forall x :: x in role ==> Rd(d', x) == Rd(d, x)
  {
    assert ino / 8 <= sb.numInodes / 8;
    StoredKept(sb, d, d1, entries);
    EntryWrite(sb, d1, entries, ino, entries[ino].(indirect := b), d');
    AttachTable(d, d', entries, role, ino, b);
  }

  lemma {:induction false} InTableAdded(sb: SuperBlock, d: Disk, d1: Disk, d': Disk, entries: seq<Entry>,
                                        role: map<nat, Role>, ino: nat, k: nat, b: nat)
    requires Consistent(sb, d, entries, role) && Outside(sb, d, d1, b) && b !in role
    requires sb.DataStart() <= b < sb.numBlocks
    requires ino < |entries| && NUM_DIRECT <= k < MAX_BLOCKS && entries[ino].indirect != 0
    requires Address(d, entries[ino], k) == 0
    requires var t := entries[ino].indirect;
             d' == d1[t := Raw(Splice(Rd(d1, t).bytes, 4 * (k - NUM_DIRECT), ToBytes(b, 4)))]
    ensures Consistent(sb, d', entries, role[b := Role(ino, k)]) && Address(d', entries[ino], k) == b
    ensures forall x :: x in role && x != entries[ino].indirect ==> Rd(d', x) == Rd(d, x)
  {
    hide Splice, ToBytes, FromBytes;
    assert Address(d, entries[ino], MAX_BLOCKS) == entries[ino].indirect;
    StoredKept(sb, d, d', entries);
    AttachInTable(d, d', entries, role, ino, k, b);
  }

  /** Changing the content of a block of a file. */
  lemma {:induction false} DataChanged(sb: SuperBlock, d: Disk, entries: seq<Entry>, role: map<nat, Role>, b: nat,
                                       data: Block)
    requires Consistent(sb, d, entries, role) && b in role && role[b].k < MAX_BLOCKS
    ensures Consistent(sb, d[b := data], entries, role)
    ensures forall i :: 0 <= i < |entries| ==> SameAddresses(d, d[b := data], entries[i])
  {
    AllAddressesKept(d, d[b := data], entries, role);
    MappedKept(d, d[b := data], entries, role);
    StoredKept(sb, d, d[b := data], entries);
  }

  /** Storing an entry with the same addresses. */
  lemma {:induction false} EntryChanged(sb: SuperBlock, d: Disk, d': Disk, entries: seq<Entry>, role: map<nat, Role>,
                                        ino: nat, e: Entry)
    requires Consistent(sb, d, entries, role) && ino < |entries| && Fits(e)
    requires d' == StoreBytes(sb, d, ino, EncodeEntry(e))
    requires e.addrs == entries[ino].addrs && e.indirect == entries[ino].indirect
    ensures Consistent(sb, d', entries[ino := e], role)
    ensures forall x :: x in role ==> Rd(d', x) == Rd(d, x)
    ensures forall i :: 0 <= i < |entries| ==> SameAddresses(d, d', entries[i])
  {
    assert ino / 8 <= sb.numInodes / 8;
    EntryWrite(sb, d, entries, ino, e, d');
    AllAddressesKept(d, d', entries, role);
    MappedKept(d, d', entries, role);
    SameAddressMapped(d', entries, role, ino, e);
  }

  lemma {:induction false} SameAddressMapped(d: Disk, entries: seq<Entry>, role: map<nat, Role>, ino: nat, e: Entry)
    requires Mapped(d, entries, role) && ino < |entries| && Fits(e)
    requires e.addrs == entries[ino].addrs && e.indirect == entries[ino].indirect
    ensures Mapped(d, entries[ino := e], role)
  {
    var entries' := entries[ino := e];
    forall k | 0 <= k <= MAX_BLOCKS ensures Address(d, e, k) == Address(d, entries[ino], k) { }
    forall b | b in role ensures UsedAs(d, entries', role[b], b) { assert UsedAs(d, entries, role[b], b); }
  }
}
