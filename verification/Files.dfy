/**
`filewrite` of `src/fs/file.c`: a long write is cut into chunks, each in an operation of its
own, so that no operation changes more blocks than the log admits.
*/
module Files {
  import opened Basics
  import opened Bytes
  import opened LogDisk
  import opened Bitmap
  import opened InodeLayout
  import opened Inodes
  import Atomicity
  import GroupCommit

  /** The bytes that one operation writes. */
  const CHUNK: nat := (OP_MAX - 4) / 2 * BLOCK_SIZE

  /** A chunk, at whatever offset, lies in at most four blocks. */
  lemma {:induction false} ChunkSpan(off: nat, n: nat)
    requires n <= CHUNK
    ensures Span(off, n) <= 4
  {
    if n > 0 {
      assert (off + n - 1) / BLOCK_SIZE <= (off + 3 * BLOCK_SIZE) / BLOCK_SIZE == off / BLOCK_SIZE + 3;
    }
  }

  lemma {:induction false} OverwriteTwice(f: seq<Byte>, off: nat, x: seq<Byte>, y: seq<Byte>)
    requires off <= |f|
    ensures Overwrite(Overwrite(f, off, x), off + |x|, y) == Overwrite(f, off, x + y)
  {
    var g, h, r := Overwrite(f, off, x), Overwrite(f, off, x + y), Overwrite(Overwrite(f, off, x), off + |x|, y);
    forall p | 0 <= p < |h| ensures r[p] == h[p] {
      OverwriteAt(f, off, x + y, p);
      OverwriteAt(g, off + |x|, y, p);
      if p < |g| { OverwriteAt(f, off, x, p); }
    }
  }

  /** The file when `x` has been written at `off`, if anything. */
  ghost predicate Written(f0: seq<Byte>, off: nat, x: seq<Byte>, f: seq<Byte>) {
    if x == [] then f == f0 else off <= |f0| && off + |x| <= MAX_BYTES && f == Overwrite(f0, off, x)
  }

  lemma {:induction false} WrittenNext(f0: seq<Byte>, off: nat, x: seq<Byte>, y: seq<Byte>, f: seq<Byte>, f': seq<Byte>)
    requires Written(f0, off, x, f) && y != []
    requires off + |x| <= |f| && off + |x| + |y| <= MAX_BYTES && f' == Overwrite(f, off + |x|, y)
    ensures Written(f0, off, x + y, f')
  {
    if x == [] { assert x + y == y; } else { OverwriteTwice(f0, off, x, y); }
  }

  lemma {:induction false} WrittenLength(f0: seq<Byte>, off: nat, x: seq<Byte>, f: seq<Byte>)
    requires Written(f0, off, x, f)
    ensures off <= |f0| ==> off + |x| <= |f|
    ensures off > |f0| ==> x == [] && f == f0
  {
  }

  lemma {:induction false} Prefixes(data: seq<Byte>, idx: nat, len: nat)
    requires idx + len <= |data|
    ensures data[..idx] + data[idx..idx + len] == data[..idx + len]
    ensures (idx + len == |data| ==> data[..idx + len] == data)
  {
  }

  lemma {:induction false} WrittenFirst(f0: seq<Byte>, off: nat)
    ensures Written(f0, off, [], f0)
  {
  }

  lemma {:induction false} OthersTwice(d: Disk, d1: Disk, d2: Disk, e: seq<Entry>, e1: seq<Entry>, e2: seq<Entry>,
                                       ino: nat)
    requires OthersSame(d, d1, e, e1, ino) && OthersSame(d1, d2, e1, e2, ino)
    ensures OthersSame(d, d2, e, e2, ino)
  {
    forall j | 0 <= j < |e| && j != ino ensures SameFile(d, d2, e[j], e2[j]) {
      assert SameFile(d, d1, e[j], e1[j]) && SameFile(d1, d2, e1[j], e2[j]);
    }
  }

  // ----- what an operation may sync

  /** The blocks that one chunk has synced: behind the log, and at most ten if the bitmap has at most four
      blocks. */
  ghost predicate Small(sb: SuperBlock, blocks: set<nat>) {
    sb.Ordered() && InVolume(sb, blocks) && (sb.numBlocks <= 4 * PER_BLOCK ==> |blocks| <= OP_MAX)
  }

  /** The same for all operations from number `n` on; `synced` is what the last one has synced. */
  ghost predicate AllSmall(sb: SuperBlock, past: seq<set<nat>>, n: nat, synced: set<nat>) {
    n <= |past| && (|past| > n ==> Small(sb, synced)) && forall i :: n < i < |past| ==> Small(sb, past[i])
  }

  lemma {:induction false} EightBytes()
    ensures Pow256(8) == 0x1_0000_0000_0000_0000
  {
    assert Pow256(2) == 65536;
    assert Pow256(4) == 65536 * 65536;
    assert Pow256(6) == 65536 * 65536 * 65536;
  }

  /** With a bitmap of at most four blocks, in every interleaving with other operations, commits and crashes,
      the operation that syncs the blocks of a chunk never finds itself or the log out of room: whichever of
      them it syncs next, `cache_sync` does not panic. */
  lemma {:induction false} ChunkNeverPanics(sb: SuperBlock, blocks: set<nat>, log: nat, ss: seq<GroupCommit.State>,
                                            acts: seq<GroupCommit.Action>, o: nat, b: nat, data: Block)
    requires Small(sb, blocks) && sb.numBlocks <= 4 * PER_BLOCK && Slot(log, LOG_MAX) <= sb.inodeStart
    requires Atomicity.Run(log, ss, acts) && Atomicity.WritesOnly(acts, o, blocks) && b in blocks
    requires var ops := ss[|acts|].ops; o in ops && ops[o].Open?
    ensures var s, a := ss[|acts|], GroupCommit.Write(o, b, data);
            && GroupCommit.Enabled(log, s, a)
            && FullSize(s.store.header) && s.store.header.n <= LOG_MAX && !GroupCommit.Panics(s, a)
  {
    hide Atomicity.Run, GroupCommit.Panics, GroupCommit.Enabled, Pow256;
    EightBytes();
    Atomicity.WithinBudget(log, ss, acts, o, blocks, b, data);
  }

  /** `struct file` of an inode that is no device. */
  class OpenFile {
    const fs: FileSystem
    const ino: nat
    const writable: bool
    var off: nat

    constructor (fs: FileSystem, ino: nat, writable: bool)
      ensures this.fs == fs && this.ino == ino && this.writable == writable && off == 0
    {
      this.fs := fs;
      this.ino := ino;
      this.writable := writable;
      off := 0;
    }

    ghost predicate Valid()
      reads this, fs, fs.vol
    {
      fs.Whole() && ino < |fs.entries| && fs.entries[ino].kind != DEVICE
    }

    /** All data blocks are in use. */
    ghost predicate Full()
      reads this, fs, fs.vol
    {
      forall b :: fs.vol.sb.DataStart() <= b < fs.vol.sb.numBlocks ==> b in fs.vol.marks
    }

    /** One round of the loop: an operation of its own. */
    method WriteChunk(x: seq<Byte>, ghost f: seq<Byte>, ghost d0: Disk, ghost entries0: seq<Entry>) returns (ok: bool)
      requires OthersSame(d0, fs.vol.view, entries0, fs.entries, ino) && Valid() && off + |x| < TWO64 && |x| <= CHUNK
      requires f == File(fs.vol.view, fs.entries[ino])
      modifies this, fs, fs.vol
      ensures old(off) > |f| || old(off) + |x| > MAX_BYTES ==> !ok
      ensures !ok && old(off) <= |f| && old(off) + |x| <= MAX_BYTES ==> Full()
      ensures ok ==> Valid() && off == old(off) + |x|
      ensures ok ==> File(fs.vol.view, fs.entries[ino]) == Overwrite(f, old(off), x)
      ensures ok ==> OthersSame(d0, fs.vol.view, entries0, fs.entries, ino)
      ensures Small(fs.vol.sb, fs.vol.synced) && fs.vol.past == old(fs.vol.past) + [old(fs.vol.synced)]
    {
      hide Consistent, Marks, AllWhole, OthersSame, Overwrite, Span;
      fs.vol.BeginOp();
      ChunkSpan(off, |x|);
      var r := fs.Write(ino, x, off);
      ok := r.Some?;
      if ok {
        off := off + r.value;
        OthersTwice(d0, old(fs.vol.view), fs.vol.view, entries0, old(fs.entries), fs.entries, ino);
      }
    }

    /** The same, when `done` has been written at `off0` into `f0`, and the file is `f` now. */
    method WriteNext(x: seq<Byte>, ghost done: seq<Byte>, ghost f0: seq<Byte>, ghost off0: nat, ghost f: seq<Byte>,
                     ghost d0: Disk, ghost entries0: seq<Entry>)
      returns (ok: bool, ghost f': seq<Byte>)
      requires OthersSame(d0, fs.vol.view, entries0, fs.entries, ino) && Valid()
      requires f == File(fs.vol.view, fs.entries[ino])
      requires off == off0 + |done| && off + |x| < TWO64 && 0 < |x| <= CHUNK && Written(f0, off0, done, f)
      modifies this, fs, fs.vol
      ensures off0 > |f0| || off0 + |done| + |x| > MAX_BYTES ==> !ok
      ensures !ok && off0 <= |f0| && off0 + |done| + |x| <= MAX_BYTES ==> Full()
      ensures ok ==> Valid() && off == old(off) + |x|
      ensures ok ==> f' == File(fs.vol.view, fs.entries[ino]) && Written(f0, off0, done + x, f')
      ensures ok ==> OthersSame(d0, fs.vol.view, entries0, fs.entries, ino)
      ensures Small(fs.vol.sb, fs.vol.synced) && fs.vol.past == old(fs.vol.past) + [old(fs.vol.synced)]
    {
      hide Consistent, Marks, AllWhole, OthersSame, Overwrite, Written, Small, Fits, NoHoles, File;
      WrittenLength(f0, off0, done, f);
      ok := WriteChunk(x, f, d0, entries0);
      f' := f;
      if ok {
        f' := Overwrite(f, off0 + |done|, x);
        WrittenNext(f0, off0, done, x, f, f');
      }
    }

    /** The loop: `f0` was the file. */
    method WriteAll(data: seq<Byte>, ghost f0: seq<Byte>) returns (ok: bool)
      requires Valid() && off + |data| < TWO64 && f0 == File(fs.vol.view, fs.entries[ino])
      modifies this, fs, fs.vol
      ensures |data| > 0 && (old(off) > |f0| || old(off) + |data| > MAX_BYTES) ==> !ok
      ensures !ok && old(off) <= |f0| && old(off) + |data| <= MAX_BYTES ==> Full()
      ensures ok ==>
        Valid() && off == old(off) + |data| && Written(f0, old(off), data, File(fs.vol.view, fs.entries[ino]))
      ensures ok ==> OthersSame(old(fs.vol.view), fs.vol.view, old(fs.entries), fs.entries, ino)
      ensures AllSmall(fs.vol.sb, fs.vol.past, |old(fs.vol.past)|, fs.vol.synced)
      ensures ok ==> |fs.vol.past| == |old(fs.vol.past)| + (|data| + 1535) / 1536
    {
      hide Consistent, Marks, OthersSame, Written, Small, NoHoles, File;
      OthersAtFirst(fs.vol.view, fs.entries, ino);
      WrittenFirst(f0, off);
      ghost var off0, d0, entries0, done, f := off, fs.vol.view, fs.entries, [], f0;
      var idx := 0;
      while idx < |data|
        invariant idx <= |data| && Valid() && off == off0 + idx && done == data[..idx]
        invariant f == File(fs.vol.view, fs.entries[ino]) && Written(f0, off0, done, f)
        invariant OthersSame(d0, fs.vol.view, entries0, fs.entries, ino)
        invariant AllSmall(fs.vol.sb, fs.vol.past, |old(fs.vol.past)|, fs.vol.synced)
        invariant |fs.vol.past| == |old(fs.vol.past)| + (idx + 1535) / 1536 && (idx % 1536 == 0 || idx == |data|)
        invariant idx > 0 ==> off0 <= |f0| && off0 + idx <= MAX_BYTES
      {
        var len := Min(|data| - idx, CHUNK);
        var x := data[idx..idx + len];
        ok, f := WriteNext(x, done, f0, off0, f, d0, entries0);
        if !ok {
          return;
        }
        assert done + x == data[..idx + len] by { Prefixes(data, idx, len); }
        idx, done := idx + len, done + x;
      }
      assert done == data by { Prefixes(data, 0, |data|); }
      ok := true;
    }

    /** `filewrite` on an inode: -1 if the file is not writable, else the number of bytes, or a panic. None of its
        operations syncs too many blocks. */
    method Write(data: seq<Byte>) returns (r: Option<int>)
      requires Valid() && off + |data| < TWO64
      modifies this, fs, fs.vol
      ensures !writable <==> r == Some(-1)
      ensures !writable ==> off == old(off) && fs.vol.view == old(fs.vol.view) && fs.entries == old(fs.entries)
      ensures var e := old(fs.entries)[ino];
              && (writable && |data| > 0 && (old(off) > e.numBytes || old(off) + |data| > MAX_BYTES) ==> r.None?)
              && (r.None? && old(off) <= e.numBytes && old(off) + |data| <= MAX_BYTES ==> Full())
      ensures writable && r.Some? ==> r.value == |data| && Valid() && off == old(off) + |data|
      ensures writable && r.Some? && old(off) <= old(fs.entries)[ino].numBytes ==>
                File(fs.vol.view, fs.entries[ino]) ==
                  Overwrite(File(old(fs.vol.view), old(fs.entries)[ino]), old(off), data)
      ensures writable && r.Some? ==> OthersSame(old(fs.vol.view), fs.vol.view, old(fs.entries), fs.entries, ino)
      ensures AllSmall(fs.vol.sb, fs.vol.past, |old(fs.vol.past)|, fs.vol.synced)
      ensures writable && r.Some? ==> |fs.vol.past| == |old(fs.vol.past)| + (|data| + 1535) / 1536
    {
      if !writable {
        return Some(-1);
      }
      var ok := WriteAll(data, File(fs.vol.view, fs.entries[ino]));
      if !ok {
        return None;
      }
      r := Some(|data|);
    }
  }
}
