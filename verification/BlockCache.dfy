/**
The block cache of `src/fs/cache.c`, as the code runs for one thread at a time.

`disk` is the device, and `trace` the sequence of its states, one for every block write, so
that a statement about all states in `trace` is a statement about a crash at any moment.
*/
module BlockCache {
  import opened Basics
  import opened Bytes
  import opened LogDisk
  import opened Recency

  /** `EVICTION_THRESHOLD` */
  const THRESHOLD: nat := 20

  /** A cached `Block`. */
  datatype Buf = Buf(data: Block, acquired: bool, pinned: bool)

  predicate Busy(buf: Buf) {
    buf.acquired || buf.pinned
  }

  ghost predicate Distinct(s: seq<nat>) {
    forall i, j :: 0 <= i < j < |s| ==> s[i] != s[j]
  }

  /** The content of a block as the users of the cache see it. */
  function Content(bufs: map<nat, Buf>, disk: Disk, b: nat): Block {
    if b in bufs then bufs[b].data else Rd(disk, b)
  }

  ghost predicate SameContent(bufs: map<nat, Buf>, disk: Disk, bufs': map<nat, Buf>, disk': Disk) {
    forall b :: Content(bufs', disk', b) == Content(bufs, disk, b)
  }

  /** The list names the cached blocks, each once, and a block that is not busy is as on disk. */
  ghost predicate Coherent(lru: seq<nat>, bufs: map<nat, Buf>, disk: Disk) {
    && Distinct(lru) && (forall b :: b in lru <==> b in bufs)
    && forall b :: b in bufs && !Busy(bufs[b]) ==> bufs[b].data == Rd(disk, b)
  }

  /** Some blocks have been dropped, but none that is busy. */
  ghost predicate Shrunk(bufs: map<nat, Buf>, bufs': map<nat, Buf>) {
    && (forall b :: b in bufs' ==> b in bufs && bufs'[b] == bufs[b])
    && (forall b :: b in bufs && Busy(bufs[b]) ==> b in bufs')
  }

  /** The same, except that the blocks `x` and `y` may be there anew. */
  ghost predicate ShrunkBut(bufs: map<nat, Buf>, bufs': map<nat, Buf>, x: nat, y: nat) {
    && (forall b :: b in bufs' && b != x && b != y ==> b in bufs && bufs'[b] == bufs[b])
    && (forall b :: b in bufs && Busy(bufs[b]) ==> b in bufs')
  }

  /** The busy blocks are the same, with the same contents. */
  ghost predicate SameBusy(bufs: map<nat, Buf>, bufs': map<nat, Buf>) {
    forall b :: (b in bufs' && Busy(bufs'[b]) <==> b in bufs && Busy(bufs[b]))
             && (b in bufs && Busy(bufs[b]) ==> b in bufs' && bufs'[b] == bufs[b])
  }

  /** Block `to` now has the content of `from`, and no other content has changed. */
  ghost predicate OneCopied(bufs: map<nat, Buf>, disk: Disk, bufs': map<nat, Buf>, disk': Disk, from: nat, to: nat) {
    && Content(bufs', disk', to) == Content(bufs, disk, from)
    && forall x :: x != to ==> Content(bufs', disk', x) == Content(bufs, disk, x)
  }

  /** Outside the log, the contents are those of `w`. */
  ghost predicate Shows(log: nat, bufs: map<nat, Buf>, disk: Disk, w: Disk) {
    forall b :: Home(log, b) ==> Content(bufs, disk, b) == Rd(w, b)
  }

  /** From position `i` on, the blocks in the header are exactly the busy ones: pinned, and
      held by nobody. */
  ghost predicate Pinned(h: Header, bufs: map<nat, Buf>, i: nat)
    requires FullSize(h) && i <= h.n <= LOG_MAX
  {
    && (forall j :: i <= j < h.n ==> h.nos[j] in bufs && bufs[h.nos[j]].pinned)
    && (forall b :: b in bufs ==> !bufs[b].acquired && (bufs[b].pinned ==> i <= Find(h, b, 0) < h.n))
  }

  /** Inside an operation, when some blocks may be held. */
  ghost predicate Lists(h: Header, bufs: map<nat, Buf>)
    requires FullSize(h) && h.n <= LOG_MAX
  {
    && (forall j :: 0 <= j < h.n ==> h.nos[j] in bufs && bufs[h.nos[j]].pinned)
    && (forall b :: b in bufs && bufs[b].pinned ==> Find(h, b, 0) < h.n)
  }

  /** After the trace `t`, a commit has made its first `k` writes. */
  ghost predicate Reached(log: nat, d: Disk, h: Header, w: Disk, t: seq<Disk>, trace: seq<Disk>, disk: Disk, k: nat)
    requires FullSize(h) && h.n <= LOG_MAX && k <= 2 * h.n + 2
  {
    trace == t + CommitTrace(log, d, h, w, k) && disk == CommitDisk(log, d, h, w, k)
  }

  /** The states from `from` up to `cut` recover to `v`, and those from `cut` on to `w`. */
  ghost predicate TurnsAt(log: nat, trace: seq<Disk>, from: nat, cut: int, v: Disk, w: Disk) {
    from <= cut <= |trace| && forall k :: from <= k < |trace| ==> Recovers(log, trace[k], if k < cut then v else w)
  }

  function BusyBlocks(bufs: map<nat, Buf>): set<nat> {
    set b | b in bufs && Busy(bufs[b])
  }

  /** From the list `l`, everything behind position `cut` that is not busy has been dropped. */
  ghost predicate Evicted(l: seq<nat>, bufs: map<nat, Buf>, l': seq<nat>, cut: nat) {
    cut <= |l| && l' == Survivors(l, BusyBlocks(bufs), cut)
  }

  /** Whatever has been dropped was last used before everything that stays and is not busy. */
  ghost predicate OldestDropped(bufs: map<nat, Buf>, bufs': map<nat, Buf>, uses: seq<nat>) {
    forall x, y :: x in bufs && x !in bufs' && y in bufs' && !Busy(bufs'[y]) ==> LastUse(uses, x) < LastUse(uses, y)
  }

  /** `init_bcache` on the disk `d` has gone through the disks of a recovery cut short after each write,
      and come to its end. */
  ghost predicate Recovery(log: nat, d: Disk, disk: Disk, trace: seq<Disk>)
    requires OnDisk(log, d).n <= LOG_MAX
  {
    var n := OnDisk(log, d).n;
    |trace| == n + 1 && disk == trace[n] && forall k :: 0 <= k <= n ==> trace[k] == Attempt(log, d, k + 1)
  }

  ghost predicate NoneBusy(bufs: map<nat, Buf>) {
    forall b :: b in bufs ==> !Busy(bufs[b])
  }

  class Cache {
    const log: nat
    var disk: Disk
    ghost var trace: seq<Disk>
    var bufs: map<nat, Buf>
    var lru: seq<nat>
    /** All blocks that have been acquired, in order. */
    ghost var uses: seq<nat>
    var blocknum: nat
    var header: Header
    var outstanding: nat
    var iscommit: bool

    /** All contents, written out as a disk. */
    ghost function View(): Disk
      reads this
    {
      disk + map b | b in bufs :: bufs[b].data
    }

    ghost predicate Valid()
      reads this
    {
      Coherent(lru, bufs, disk) && blocknum == |lru| && log !in bufs && Recent(lru, uses)
    }

    /** `movetohead` */
    method MoveToHead(b: nat)
      requires Valid() && b in bufs
      modifies this`lru, this`uses
      ensures Valid() && lru == ToFront(old(lru), b) && uses == old(uses) + [b]
    {
      var i := IndexOf(lru, b);
      FrontSlice(lru, i);
      UseKeeps(lru, uses, b);
      Moved(lru, i);
      lru := [b] + lru[..i] + lru[i + 1..];
      uses := uses + [b];
    }

    /** The block at position `i` of the list is detached and freed. */
    method Drop(i: nat)
      requires Valid() && i < |lru| && lru[i] in bufs && !Busy(bufs[lru[i]])
      modifies this`lru, this`bufs, this`blocknum
      ensures Valid() && SameContent(old(bufs), disk, bufs, disk) && Shrunk(old(bufs), bufs)
      ensures lru == old(lru)[..i] + old(lru)[i + 1..] && bufs == old(bufs) - {old(lru)[i]}
    {
      hide Recent, SameContent, Shrunk, Coherent;
      var b := lru[i];
      DropKeeps(lru, bufs, disk, i);
      DropRecent(lru, uses, i);
      lru := lru[..i] + lru[i + 1..];
      blocknum := blocknum - 1;
      bufs := bufs - {b};
    }

    /** The eviction loop (lines 93-106). */
    method Evict()
      requires Valid()
      modifies this`lru, this`bufs, this`blocknum
      ensures Valid() && SameContent(old(bufs), disk, bufs, disk) && Shrunk(old(bufs), bufs)
      ensures old(blocknum) < 20 ==> lru == old(lru)
      ensures blocknum < 20 || forall b :: b in bufs ==> Busy(bufs[b])
      ensures old(blocknum) >= 20 ==> blocknum >= 19
      ensures OldestDropped(old(bufs), bufs, uses) && exists cut :: Evicted(old(lru), old(bufs), lru, cut)
    {
      hide Recent, OldestDropped, Survivors, LastUse;
      ghost var l, bs, busy := lru, bufs, BusyBlocks(bufs);
      var i: nat := |lru|;
      SurvivorsAll(l, busy);
      if blocknum >= THRESHOLD {
        while i > 0 && blocknum >= THRESHOLD
          invariant Valid() && i <= |l| && lru == Survivors(l, busy, i) && blocknum >= THRESHOLD - 1
          invariant SameContent(bs, disk, bufs, disk) && Shrunk(bs, bufs)
        {
          SurvivorsNext(l, busy, i);
          i := i - 1;
          if !Busy(bufs[lru[i]]) {
            Drop(i);
          }
        }
      }
      assert Evicted(l, bs, lru, i);
      EvictedAll(l, bs, lru, bufs, i, uses);
    }

    /** `cache_acquire`, for a block nobody else holds. */
    method Acquire(b: nat) returns (data: Block)
      requires Valid() && b != log && (b in bufs ==> !bufs[b].acquired)
      modifies this`lru, this`uses, this`bufs, this`blocknum
      ensures Valid() && data == Content(old(bufs), disk, b) && SameContent(old(bufs), disk, bufs, disk)
      ensures b in bufs && bufs[b] == Buf(data, true, b in old(bufs) && old(bufs)[b].pinned)
      ensures ShrunkBut(old(bufs), bufs, b, b)
      ensures b !in old(bufs) ==> blocknum <= 20 || forall x :: x in bufs && x != b ==> Busy(bufs[x])
      ensures b in old(bufs) ==> bufs == old(bufs)[b := old(bufs)[b].(acquired := true)]
      ensures uses == old(uses) + [b] && OldestDropped(old(bufs), bufs, uses)
      ensures b in old(bufs) ==> lru == ToFront(old(lru), b)
      ensures b !in old(bufs) ==> lru[0] == b && exists cut :: Evicted(old(lru), old(bufs), lru[1..], cut)
    {
      hide Recent, OldestDropped, Evicted, ToFront, LastUse;
      if b in bufs {
        NoneDropped(bufs, b, uses + [b]);
        data := bufs[b].data;
        bufs := bufs[b := bufs[b].(acquired := true)];
        MoveToHead(b);
        return;
      }
      Evict();
      Loaded(old(bufs), lru, uses, bufs, disk, b);
      ghost var l := lru;
      data := Rd(disk, b);
      blocknum := blocknum + 1;
      bufs := bufs[b := Buf(data, true, false)];
      lru := [b] + lru;
      uses := uses + [b];
      assert lru[1..] == l;
    }

    /** The holder of a block changes its data in place. */
    method Modify(b: nat, data: Block)
      requires b in bufs && bufs[b].acquired
      modifies this`bufs
      ensures (old(Valid()) ==> Valid()) && bufs == old(bufs)[b := old(bufs)[b].(data := data)]
    {
      bufs := bufs[b := bufs[b].(data := data)];
    }

    /** `cache_release`; what has been changed must have been synced. */
    method Release(b: nat)
      requires b in bufs && (bufs[b].pinned || bufs[b].data == Rd(disk, b))
      modifies this`bufs
      ensures (old(Valid()) ==> Valid()) && bufs == old(bufs)[b := old(bufs)[b].(acquired := false)]
    {
      hide Recent;
      bufs := bufs[b := bufs[b].(acquired := false)];
    }

    /** `device_write`, which is `cache_sync` without a context. */
    method DeviceWrite(b: nat)
      requires b in bufs
      modifies this`disk, this`trace
      ensures (old(Valid()) ==> Valid()) && disk == old(disk)[b := bufs[b].data] && trace == old(trace) + [disk]
    {
      disk := disk[b := bufs[b].data];
      trace := trace + [disk];
    }

    /** `write_header` */
    method WriteHeader()
      requires FullSize(header)
      modifies this`disk, this`trace
      ensures (old(Valid()) ==> Valid()) && disk == old(disk)[log := Encode(header)] && trace == old(trace) + [disk]
    {
      disk := disk[log := Encode(header)];
      trace := trace + [disk];
    }

    /** `copyblockdata`, between two blocks nobody holds. */
    method CopyBlockData(from: nat, to: nat)
      requires Valid() && from != log && to != log && from != to
      requires (from in bufs ==> !bufs[from].acquired) && (to in bufs ==> !Busy(bufs[to]))
      modifies this`lru, this`uses, this`bufs, this`blocknum, this`disk, this`trace
      ensures Valid() && disk == old(disk)[to := Content(old(bufs), old(disk), from)] && trace == old(trace) + [disk]
      ensures OneCopied(old(bufs), old(disk), bufs, disk, from, to)
      ensures SameBusy(old(bufs), bufs)
    {
      hide Recent, SameContent, ShrunkBut, OneCopied, SameBusy, Coherent;
      var data := AcquireBoth(from, to);
      var copy := CopyBytes(data, bufs[to].data);
      ghost var b := bufs;
      CopyEffect(old(lru), lru, old(bufs), bufs, disk, from, to);
      Modify(to, copy);
      DeviceWrite(to);
      Release(from);
      Release(to);
      assert bufs == AfterCopy(b, from, to);
    }

    method AcquireBoth(from: nat, to: nat) returns (data: Block)
      requires Valid() && from != log && to != log && from != to
      requires (from in bufs ==> !bufs[from].acquired) && (to in bufs ==> !Busy(bufs[to]))
      modifies this`lru, this`uses, this`bufs, this`blocknum
      ensures Valid() && data == Content(old(bufs), disk, from) && SameContent(old(bufs), disk, bufs, disk)
      ensures from in bufs && bufs[from] == Buf(data, true, from in old(bufs) && old(bufs)[from].pinned)
      ensures to in bufs && bufs[to] == Buf(Content(old(bufs), disk, to), true, false)
      ensures ShrunkBut(old(bufs), bufs, from, to)
    {
      hide Recent, OldestDropped, Evicted, ToFront;
      data := Acquire(from);
      var _ := Acquire(to);
    }

    /** The copies into the log (lines 234-238). */
    method CopyToLog(ghost d: Disk, ghost w: Disk, ghost t: seq<Disk>)
      requires Valid() && Proper(log, header) && disk == d && trace == t
      requires Shows(log, bufs, disk, w) && Pinned(header, bufs, 0)
      modifies this`lru, this`uses, this`bufs, this`blocknum, this`disk, this`trace
      ensures Valid() && Shows(log, bufs, disk, w) && Pinned(header, bufs, 0)
      ensures Reached(log, d, header, w, t, trace, disk, header.n)
    {
      hide Reached, Recent, SameBusy, CommitDisk, CommitTrace;
      ReachedFirst(log, d, header, w, t);
      var i := 0;
      while i < header.n
        invariant 0 <= i <= header.n && Valid() && Shows(log, bufs, disk, w) && Pinned(header, bufs, 0)
        invariant Reached(log, d, header, w, t, trace, disk, i)
      {
        ghost var e, b, t1 := disk, bufs, trace;
        assert Content(bufs, disk, header.nos[i]) == Rd(w, header.nos[i]);
        CopyBlockData(header.nos[i], Slot(log, i));
        LogCopyKeeps(log, header, b, e, bufs, disk, header.nos[i], Slot(log, i), w);
        ReachedNext(log, d, header, w, t, t1, e, i);
        i := i + 1;
      }
    }

    /** One block goes to its home location and is unpinned (lines 245-248). */
    method Place(x: nat)
      requires Valid() && x in bufs && !bufs[x].acquired
      modifies this`lru, this`uses, this`bufs, this`blocknum, this`disk, this`trace
      ensures Valid() && bufs == old(bufs)[x := Buf(old(bufs)[x].data, false, false)]
      ensures disk == old(disk)[x := old(bufs)[x].data] && trace == old(trace) + [disk]
    {
      hide Recent, OldestDropped, Evicted, ToFront, ShrunkBut, SameContent;
      var data := Acquire(x);
      DeviceWrite(x);
      Unpin(x);
      Release(x);
    }

    /** The log lets go of a block that is on the disk now. */
    method Unpin(x: nat)
      requires x in bufs && bufs[x].data == Rd(disk, x)
      modifies this`bufs
      ensures (old(Valid()) ==> Valid()) && bufs == old(bufs)[x := old(bufs)[x].(pinned := false)]
    {
      bufs := bufs[x := bufs[x].(pinned := false)];
    }

    /** The blocks go to their home locations (lines 244-249). */
    method PlaceAll(ghost d: Disk, ghost w: Disk, ghost t: seq<Disk>)
      requires Valid() && Proper(log, header) && Shows(log, bufs, disk, w) && Pinned(header, bufs, 0)
      requires Reached(log, d, header, w, t, trace, disk, header.n + 1)
      modifies this`lru, this`uses, this`bufs, this`blocknum, this`disk, this`trace
      ensures Valid() && Shows(log, bufs, disk, w) && Pinned(header, bufs, header.n)
      ensures Reached(log, d, header, w, t, trace, disk, 2 * header.n + 1)
    {
      hide Reached, Recent, Shows, Coherent, CommitDisk, CommitTrace;
      var i := 0;
      while i < header.n
        invariant 0 <= i <= header.n && Valid() && Shows(log, bufs, disk, w) && Pinned(header, bufs, i)
        invariant Reached(log, d, header, w, t, trace, disk, header.n + 1 + i)
      {
        PlaceEffect(log, header, lru, bufs, disk, i, w);
        ReachedNext(log, d, header, w, t, trace, disk, header.n + 1 + i);
        Place(header.nos[i]);
        i := i + 1;
      }
    }

    /** Between commits: the header lists exactly the pinned blocks, and the log on the disk
        is empty. */
    ghost predicate Idle()
      reads this
    {
      && Valid() && Proper(log, header) && Wide(header.nos) && Pinned(header, bufs, 0)
      && OnDisk(log, disk).n == 0 && !iscommit
    }

    /** The first half of a commit (lines 234-241), which ends with the write of the header. */
    method LogAll(ghost d: Disk, ghost w: Disk, ghost t: seq<Disk>)
      requires Valid() && Proper(log, header) && disk == d && trace == t
      requires Shows(log, bufs, disk, w) && Pinned(header, bufs, 0)
      modifies this`lru, this`uses, this`bufs, this`blocknum, this`disk, this`trace
      ensures Valid() && Shows(log, bufs, disk, w) && Pinned(header, bufs, 0)
      ensures Reached(log, d, header, w, t, trace, disk, header.n + 1)
    {
      hide Reached, Recent, CommitDisk, CommitTrace;
      CopyToLog(d, w, t);
      ReachedNext(log, d, header, w, t, trace, disk, header.n);
      WriteHeader();
    }

    /** The second half (lines 244-253), which ends with the log cleared. */
    method PlaceAndClear(ghost d: Disk, ghost w: Disk, ghost t: seq<Disk>)
      requires Valid() && Proper(log, header) && Shows(log, bufs, disk, w) && Pinned(header, bufs, 0)
      requires Reached(log, d, header, w, t, trace, disk, header.n + 1)
      modifies this`lru, this`uses, this`bufs, this`blocknum, this`disk, this`trace, this`header
      ensures Valid() && Shows(log, bufs, disk, w) && header == old(header).(n := 0) && Pinned(header, bufs, 0)
      ensures Reached(log, d, old(header), w, t, trace, disk, 2 * old(header).n + 2)
    {
      hide Reached, Recent, CommitDisk, CommitTrace;
      PlaceAll(d, w, t);
      ReachedNext(log, d, header, w, t, trace, disk, 2 * header.n + 1);
      header := header.(n := 0);
      WriteHeader();
    }

    /** The commit of `cache_end_op` (lines 232-256). `w` is what the users of the cache saw: the disk
        goes through the states of a commit to `w`. A crash goes back to what the disk held before until
        the header has been written, and forward to `w` from then on. */
    method Commit()
      requires Idle()
      modifies this`lru, this`uses, this`bufs, this`blocknum, this`disk, this`trace, this`header, this`iscommit
      ensures Idle() && header.n == 0
      ensures Installed(log, disk, old(View())) && Shows(log, bufs, disk, old(View()))
      ensures var n := old(header).n;
              && trace == old(trace) + CommitTrace(log, old(disk), old(header), old(View()), 2 * n + 2)
              && TurnsAt(log, trace, |old(trace)|, |old(trace)| + n, old(disk), old(View()))
    {
      hide Recent, CommitDisk, CommitTrace, Recovers, TurnsAt, Installed, Coherent, Shows, Differs, Wide;
      ghost var d, w, h := disk, View(), header;
      iscommit := true;
      ViewShows(log, header, lru, bufs, disk);
      LogAll(d, w, old(trace));
      PlaceAndClear(d, w, old(trace));
      iscommit := false;
      CommitEnds(log, d, h, w, old(trace));
      EmptyLog(log, h, disk, w);
    }

    /** `init_bcache`: after every write the disk is that of a recovery cut short there. */
    constructor (log: nat, disk: Disk)
      requires Proper(log, OnDisk(log, disk))
      ensures this.log == log && Idle() && header.n == 0 && outstanding == 0
      ensures Recovery(log, disk, this.disk, trace)
      ensures forall v :: Recovers(log, disk, v) ==> Installed(log, this.disk, v)
    {
      this.log, this.disk, trace, bufs, lru, uses, blocknum := log, disk, [], map[], [], [], 0;
      header := OnDisk(log, disk);
      outstanding, iscommit := 0, false;
      new;
      Recover(disk);
    }

    /** The rest of `init_bcache` (lines 161-166). */
    method Recover(ghost d: Disk)
      requires Valid() && disk == d && bufs == map[] && header == OnDisk(log, d) && Proper(log, header) && trace == []
      requires !iscommit
      modifies this`lru, this`uses, this`bufs, this`blocknum, this`disk, this`trace, this`header
      ensures Idle() && header.n == 0 && Recovery(log, d, disk, trace)
      ensures forall v :: Recovers(log, d, v) ==> Installed(log, disk, v)
    {
      hide Recent, Coherent, Recovers, Installed, Wide, Copied;
      Replay(d);
      ClearLog(d);
      forall v | Recovers(log, d, v) ensures Installed(log, disk, v) {
        AttemptRecovers(log, d, OnDisk(log, d).n + 1, v);
      }
    }

    /** The end of a replay (lines 164-166). */
    method ClearLog(ghost d: Disk)
      requires Valid() && header == OnDisk(log, d) && Proper(log, header) && disk == Copied(log, d, header.n)
      requires !iscommit && NoneBusy(bufs)
      modifies this`disk, this`trace, this`header
      ensures Idle() && header.n == 0 && disk == Attempt(log, d, OnDisk(log, d).n + 1) && trace == old(trace) + [disk]
    {
      hide Recent, Coherent, Proper, Wide, Pinned, Wiped, Encode, Decode, Copied, NoneBusy;
      WipedIsEmpty(log, d, bufs, disk);
      header := Wiped(header);
      WriteHeader();
    }

    /** The replay loop (lines 161-163). */
    method Replay(ghost d: Disk)
      requires Valid() && disk == d && bufs == map[] && header == OnDisk(log, d) && Proper(log, header) && trace == []
      modifies this`lru, this`uses, this`bufs, this`blocknum, this`disk, this`trace
      ensures Valid() && NoneBusy(bufs) && disk == Copied(log, d, header.n)
      ensures |trace| == header.n && forall k :: 0 <= k < header.n ==> trace[k] == Copied(log, d, k + 1)
    {
      hide Recent, Coherent, OneCopied, SameBusy;
      var i := 0;
      while i < header.n
        invariant 0 <= i <= header.n && Valid() && NoneBusy(bufs) && disk == Copied(log, d, i)
        invariant |trace| == i && forall k :: 0 <= k < i ==> trace[k] == Copied(log, d, k + 1)
      {
        ghost var b := bufs;
        CopiedContents(log, d, i, Slot(log, i));
        IdleContent(lru, bufs, disk, Slot(log, i));
        CopyBlockData(Slot(log, i), header.nos[i]);
        StillNoneBusy(b, bufs);
        i := i + 1;
      }
    }

    /** `cache_begin_op`; `ok` is false when it would have to wait. */
    method BeginOp() returns (ok: bool, rm: nat)
      modifies this`outstanding
      ensures rm == 0 && ok == (!iscommit && header.n + (old(outstanding) + 1) * OP_MAX <= LOG_MAX)
      ensures outstanding == old(outstanding) + if ok then 1 else 0
    {
      rm := 0;
      ok := !(iscommit || header.n + (outstanding + 1) * OP_MAX > LOG_MAX);
      if ok {
        outstanding := outstanding + 1;
      }
    }

    /** The search of `cache_sync` (lines 201-207). */
    method IsLogged(b: nat) returns (found: bool)
      requires FullSize(header) && header.n <= LOG_MAX
      ensures found == Logged(header, b)
    {
      var i := 0;
      while i < header.n
        invariant 0 <= i <= header.n && forall j :: 0 <= j < i ==> header.nos[j] != b
      {
        if header.nos[i] == b {
          return true;
        }
        i := i + 1;
      }
      found := false;
    }

    /** `cache_sync` in an operation that has logged `rm` blocks; `ok` is false for the panic. */
    method Sync(rm: nat, b: nat) returns (ok: bool, rm': nat)
      requires Valid() && Proper(log, header) && Wide(header.nos) && Lists(header, bufs)
      requires b in bufs && bufs[b].acquired && Home(log, b) && b < Pow256(8)
      modifies this`bufs, this`header
      ensures var logged := Logged(old(header), b);
              && ok == (logged || (rm < OP_MAX && old(header).n < LOG_MAX))
              && (ok ==> rm' == if logged then rm else rm + 1)
              && (ok ==> header == if logged
                  then old(header) else Header(old(header).n + 1, old(header).nos[old(header).n := b]))
      ensures ok ==> Valid() && Proper(log, header) && Wide(header.nos) && Lists(header, bufs)
      ensures bufs == old(bufs)[b := old(bufs)[b].(pinned := true)]
    {
      hide Recent, Coherent, Pow256;
      PinKeeps(header, lru, bufs, disk, b);
      bufs := bufs[b := bufs[b].(pinned := true)];
      var logged := IsLogged(b);
      if logged {
        return true, rm;
      }
      if rm >= OP_MAX || header.n >= LOG_MAX {
        return false, rm;
      }
      Appended(log, header, b, bufs);
      header := Header(header.n + 1, header.nos[header.n := b]);
      ok, rm' := true, rm + 1;
    }

    /** `cache_end_op` when no other operation is open; `ok` is false for the panic. */
    method EndLastOp() returns (ok: bool)
      requires outstanding == 1 && (!iscommit ==> Idle())
      modifies this
      ensures ok == !old(iscommit)
      ensures ok ==> outstanding == 0 && Idle() && header.n == 0
      ensures ok ==> Installed(log, disk, old(View())) && Shows(log, bufs, disk, old(View()))
      ensures ok ==> var n := old(header).n;
                     && FullSize(old(header)) && n <= LOG_MAX
                     && trace == old(trace) + CommitTrace(log, old(disk), old(header), old(View()), 2 * n + 2)
                     && TurnsAt(log, trace, |old(trace)|, |old(trace)| + n, old(disk), old(View()))
    {
      if iscommit {
        return false;
      }
      outstanding := outstanding - 1;
      Commit();
      ok := true;
    }
  }

  /** The loop of line 141. */
  method CopyBytes(from: Block, to: Block) returns (r: Block)
    ensures r == from
  {
    r := to;
    for j := 0 to BLOCK_SIZE
      invariant |r.bytes| == BLOCK_SIZE && r.bytes[..j] == from.bytes[..j]
    {
      r := Raw(r.bytes[j := from.bytes[j]]);
    }
    assert r.bytes == from.bytes;
  }

  method IndexOf(s: seq<nat>, b: nat) returns (i: nat)
    requires b in s
    ensures i < |s| && s[i] == b
  {
    i := 0;
    while s[i] != b
      invariant i < |s| && b in s[i..]
      decreases |s| - i
    {
      i := i + 1;
    }
  }

  /** Dropping an idle block changes no content. */
  lemma {:induction false} DropKeeps(lru: seq<nat>, bufs: map<nat, Buf>, disk: Disk, i: nat)
    requires Coherent(lru, bufs, disk) && i < |lru| && lru[i] in bufs && !Busy(bufs[lru[i]])
    ensures Coherent(lru[..i] + lru[i + 1..], bufs - {lru[i]}, disk)
    ensures SameContent(bufs, disk, bufs - {lru[i]}, disk) && Shrunk(bufs, bufs - {lru[i]})
  {
    Dropped(lru, i);
  }

  lemma {:induction false} IdleContent(lru: seq<nat>, bufs: map<nat, Buf>, disk: Disk, b: nat)
    requires Coherent(lru, bufs, disk) && NoneBusy(bufs)
    ensures Content(bufs, disk, b) == Rd(disk, b)
  {
  }

  lemma {:induction false} StillNoneBusy(bufs: map<nat, Buf>, bufs': map<nat, Buf>)
    requires NoneBusy(bufs) && SameBusy(bufs, bufs')
    ensures NoneBusy(bufs')
  {
  }

  /** A cleared header, with no block busy. */
  lemma {:induction false} WipedIsEmpty(log: nat, d: Disk, bufs: map<nat, Buf>, disk: Disk)
    requires NoneBusy(bufs)
    ensures var h := Wiped(OnDisk(log, d));
            Proper(log, h) && Wide(h.nos) && Pinned(h, bufs, 0) && OnDisk(log, disk[log := Encode(h)]).n == 0
  {
    DecodedWide(Rd(d, log));
    WipedRoundTrip(OnDisk(log, d));
  }

  /** Block `to` changed to the data of `from` and written, and both released. */
  function AfterCopy(bufs: map<nat, Buf>, from: nat, to: nat): map<nat, Buf>
    requires from in bufs
  {
    var data := bufs[from].data;
    bufs[to := Buf(data, true, false)][from := bufs[from].(acquired := false)][to := Buf(data, false, false)]
  }

  /** What copying one block onto another does to all contents. */
  lemma {:induction false} CopyEffect(lru0: seq<nat>, lru: seq<nat>, bufs0: map<nat, Buf>, bufs: map<nat, Buf>,
                                      disk: Disk, from: nat, to: nat)
    requires Coherent(lru0, bufs0, disk) && Coherent(lru, bufs, disk) && from != to
    requires (from in bufs0 ==> !bufs0[from].acquired) && (to in bufs0 ==> !Busy(bufs0[to]))
    requires SameContent(bufs0, disk, bufs, disk) && ShrunkBut(bufs0, bufs, from, to)
    requires from in bufs && bufs[from] == Buf(Content(bufs0, disk, from), true, from in bufs0 && bufs0[from].pinned)
    requires to in bufs && bufs[to] == Buf(Content(bufs0, disk, to), true, false)
    ensures var data := bufs[from].data;
            var bufs' := AfterCopy(bufs, from, to);
            var disk' := disk[to := data];
            && (bufs[from].pinned || data == Rd(disk, from))
            && SameBusy(bufs0, bufs') && Coherent(lru, bufs', disk')
            && OneCopied(bufs0, disk, bufs', disk', from, to)
  {
    var data := bufs[from].data;
    var bufs' := AfterCopy(bufs, from, to);
    var disk' := disk[to := data];
    forall x | x != to ensures Content(bufs', disk', x) == Content(bufs0, disk, x) {
      assert Content(bufs, disk, x) == Content(bufs0, disk, x);
    }
  }

  /** A copy into the log changes nothing that its users see. */
  lemma {:induction false} LogCopyKeeps(log: nat, h: Header, bufs: map<nat, Buf>, disk: Disk, bufs': map<nat, Buf>,
                                        disk': Disk, from: nat, to: nat, w: Disk)
    requires Proper(log, h) && Pinned(h, bufs, 0) && Shows(log, bufs, disk, w)
    requires SameBusy(bufs, bufs') && OneCopied(bufs, disk, bufs', disk', from, to) && !Home(log, to)
    ensures Pinned(h, bufs', 0) && Shows(log, bufs', disk', w)
  {
    forall b | b in bufs' ensures !bufs'[b].acquired && (bufs'[b].pinned ==> Find(h, b, 0) < h.n) {
      if Busy(bufs'[b]) { assert bufs'[b] == bufs[b]; }
    }
    forall j | 0 <= j < h.n ensures h.nos[j] in bufs' && bufs'[h.nos[j]].pinned {
      assert Busy(bufs[h.nos[j]]);
    }
  }

  /** What a block's way home does: written, unpinned and released. */
  lemma {:induction false} PlaceEffect(log: nat, h: Header, lru: seq<nat>, bufs: map<nat, Buf>, disk: Disk, i: nat,
                                       w: Disk)
    requires Proper(log, h) && i < h.n && Pinned(h, bufs, i) && Shows(log, bufs, disk, w) && Coherent(lru, bufs, disk)
    ensures var x := h.nos[i];
            var data := bufs[x].data;
            var bufs' := bufs[x := Buf(data, false, false)];
            && data == Rd(w, x) && Coherent(lru, bufs', disk[x := data])
            && Shows(log, bufs', disk[x := data], w) && Pinned(h, bufs', i + 1)
  {
    var x := h.nos[i];
    var data := bufs[x].data;
    var bufs' := bufs[x := Buf(data, false, false)];
    FindIs(log, h, i);
    assert Content(bufs, disk, x) == Rd(w, x);
    forall b | Home(log, b) ensures Content(bufs', disk[x := data], b) == Rd(w, b) {
      assert Content(bufs, disk, b) == Rd(w, b);
    }
  }

  /** With all blocks released, only the blocks in the header differ from the disk. */
  lemma {:induction false} ViewShows(log: nat, h: Header, lru: seq<nat>, bufs: map<nat, Buf>, disk: Disk)
    requires Proper(log, h) && Coherent(lru, bufs, disk) && Pinned(h, bufs, 0)
    ensures var w := disk + map b | b in bufs :: bufs[b].data;
            Shows(log, bufs, disk, w) && Differs(log, h, disk, w)
  {
    var w := disk + map b | b in bufs :: bufs[b].data;
    forall b ensures Content(bufs, disk, b) == Rd(w, b) { }
    forall b | Home(log, b) && Find(h, b, 0) == h.n ensures Rd(disk, b) == Rd(w, b) {
      if b in bufs { assert !Busy(bufs[b]); }
    }
  }

  ghost predicate Logged(h: Header, b: nat)
    requires FullSize(h) && h.n <= LOG_MAX
  {
    exists i :: 0 <= i < h.n && h.nos[i] == b
  }

  lemma {:induction false} PinKeeps(h: Header, lru: seq<nat>, bufs: map<nat, Buf>, disk: Disk, b: nat)
    requires FullSize(h) && h.n <= LOG_MAX && Lists(h, bufs) && b in bufs && Coherent(lru, bufs, disk)
    ensures var bufs' := bufs[b := bufs[b].(pinned := true)];
            && (forall j :: 0 <= j < h.n ==> h.nos[j] in bufs' && bufs'[h.nos[j]].pinned)
            && (forall x :: x in bufs' && bufs'[x].pinned && x != b ==> Find(h, x, 0) < h.n)
            && (Logged(h, b) ==> Lists(h, bufs')) && Coherent(lru, bufs', disk)
  {
  }

  /** A new entry in the header. */
  lemma {:induction false} Appended(log: nat, h: Header, b: nat, bufs: map<nat, Buf>)
    requires Proper(log, h) && h.n < LOG_MAX && Home(log, b) && forall j :: 0 <= j < h.n ==> h.nos[j] != b
    requires b in bufs && bufs[b].pinned
    requires forall j :: 0 <= j < h.n ==> h.nos[j] in bufs && bufs[h.nos[j]].pinned
    requires forall x :: x in bufs && bufs[x].pinned && x != b ==> Find(h, x, 0) < h.n
    ensures var h' := Header(h.n + 1, h.nos[h.n := b]); Proper(log, h') && Lists(h', bufs)
  {
    var h' := Header(h.n + 1, h.nos[h.n := b]);
    forall x | x in bufs && bufs[x].pinned ensures Find(h', x, 0) < h'.n {
      if x == b {
        assert h'.nos[h.n] == x;
      } else {
        var j := Find(h, x, 0);
        assert h'.nos[j] == x;
      }
    }
  }

  /** The list without the block at position `i`. */
  lemma {:induction false} DropRecent(l: seq<nat>, uses: seq<nat>, i: nat)
    requires Recent(l, uses) && i < |l|
    ensures Recent(l[..i] + l[i + 1..], uses)
  {
  }

  lemma {:induction false} FrontSlice(l: seq<nat>, i: nat)
    requires Distinct(l) && i < |l|
    ensures ToFront(l, l[i]) == [l[i]] + l[..i] + l[i + 1..]
  {
    var k := WithoutSlice(l, l[i]);
  }

  lemma {:induction false} EvictedAll(l: seq<nat>, bs: map<nat, Buf>, lru: seq<nat>, bufs: map<nat, Buf>, cut: nat,
                                      uses: seq<nat>)
    requires Recent(l, uses) && Evicted(l, bs, lru, cut) && Shrunk(bs, bufs)
    requires (forall b :: b in l <==> b in bs) && (forall b :: b in lru <==> b in bufs)
    ensures OldestDropped(bs, bufs, uses)
    ensures cut == 0 ==> forall b :: b in bufs ==> Busy(bufs[b])
  {
    SurvivorItems(l, BusyBlocks(bs), cut);
    forall x, y | x in bs && x !in bufs && y in bufs && !Busy(bufs[y]) ensures LastUse(uses, x) < LastUse(uses, y) {
      LeastRecentFirst(l, BusyBlocks(bs), cut, uses, x, y);
    }
  }

  /** A block that was not there is loaded after an eviction. */
  lemma {:induction false} Loaded(bs: map<nat, Buf>, lru: seq<nat>, uses: seq<nat>, bufs: map<nat, Buf>, disk: Disk,
                                  b: nat)
    requires Coherent(lru, bufs, disk) && Recent(lru, uses) && OldestDropped(bs, bufs, uses) && b !in bs && b !in bufs
    ensures var bufs' := bufs[b := Buf(Rd(disk, b), true, false)];
            && Coherent([b] + lru, bufs', disk) && Recent([b] + lru, uses + [b]) && OldestDropped(bs, bufs', uses + [b])
  {
    hide LastUse;
    UseKeeps(lru, uses, b);
    NotWithout(lru, b);
    forall x ensures x != b ==> LastUse(uses + [b], x) == LastUse(uses, x) { UsedAgain(uses, b, x); }
  }

  lemma {:induction false} NoneDropped(bufs: map<nat, Buf>, b: nat, uses: seq<nat>)
    requires b in bufs
    ensures OldestDropped(bufs, bufs[b := bufs[b].(acquired := true)], uses)
  {
  }

  lemma {:induction false} ReachedFirst(log: nat, d: Disk, h: Header, w: Disk, t: seq<Disk>)
    requires FullSize(h) && h.n <= LOG_MAX
    ensures Reached(log, d, h, w, t, t, d, 0)
  {
  }

  lemma {:induction false} ReachedNext(log: nat, d: Disk, h: Header, w: Disk, t: seq<Disk>, trace: seq<Disk>,
                                       disk: Disk, k: nat)
    requires FullSize(h) && h.n <= LOG_MAX && k <= 2 * h.n + 1 && Reached(log, d, h, w, t, trace, disk, k)
    ensures var e := CommitWrite(log, h, w, disk, k); Reached(log, d, h, w, t, trace + [e], e, k + 1)
  {
    hide CommitWrite;
    var e := CommitWrite(log, h, w, disk, k);
    var c := CommitTrace(log, d, h, w, k);
    assert (t + c) + [e] == t + (c + [e]);
  }

  /** The disks of a commit turn at the write of the header. */
  lemma {:induction false} CommitEnds(log: nat, d: Disk, h: Header, w: Disk, t: seq<Disk>)
    requires Proper(log, h) && Wide(h.nos) && Differs(log, h, d, w) && OnDisk(log, d).n == 0
    ensures TurnsAt(log, t + CommitTrace(log, d, h, w, 2 * h.n + 2), |t|, |t| + h.n, d, w)
    ensures Installed(log, CommitDisk(log, d, h, w, 2 * h.n + 2), w)
  {
    hide Recovers, CommitDisk, CommitTrace, Copying, Installed, Wide, Differs;
    CommitStarts(log, d, h, w);
    var c := CommitTrace(log, d, h, w, 2 * h.n + 2);
    forall k | |t| <= k < |t + c| ensures Recovers(log, (t + c)[k], if k < |t| + h.n then d else w) {
      CommitTurns(log, d, h, d, w, k - |t| + 1);
      assert (t + c)[k] == c[k - |t|];
    }
    CommitTurns(log, d, h, d, w, 0);
  }

  lemma {:induction false} CommitStarts(log: nat, d: Disk, h: Header, w: Disk)
    requires Differs(log, h, d, w) && OnDisk(log, d).n == 0
    ensures Copying(log, d, h, d, w, 0) && FullSize(h) && h.n <= LOG_MAX
  {
  }

  lemma {:induction false} EmptyLog(log: nat, h: Header, d: Disk, w: Disk)
    requires Proper(log, h) && Wide(h.nos) && Installed(log, d, w)
    ensures Proper(log, h.(n := 0)) && Wide(h.(n := 0).nos) && OnDisk(log, d).n == 0
  {
  }

  lemma {:induction false} Dropped(s: seq<nat>, i: nat)
    requires Distinct(s) && i < |s|
    ensures var r := s[..i] + s[i + 1..]; Distinct(r) && forall b :: b in r <==> b in s && b != s[i]
  {
    var r := s[..i] + s[i + 1..];
    forall b | b in s && b != s[i] ensures b in r {
      var j :| 0 <= j < |s| && s[j] == b;
      assert r[if j < i then j else j - 1] == b;
    }
  }

  lemma {:induction false} Moved(s: seq<nat>, i: nat)
    requires Distinct(s) && i < |s|
    ensures var r := [s[i]] + s[..i] + s[i + 1..]; Distinct(r) && forall b :: b in r <==> b in s
  {
    Dropped(s, i);
    var r := s[..i] + s[i + 1..];
    assert [s[i]] + s[..i] + s[i + 1..] == [s[i]] + r;
    forall b | b in s ensures b in [s[i]] + r { }
  }
}
