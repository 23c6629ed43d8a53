/**
The code of a commit and its protocol: `BlockCache.Cache.Commit` takes the disk through exactly the
states of the steps in `LogStore`, which carry the results about crashes.
*/
module Commits {
  import opened Bytes
  import opened LogDisk
  import BlockCache
  import LogStore

  /** The cached blocks, as far as the protocol knows them. */
  function CacheOf(bufs: map<nat, BlockCache.Buf>): map<nat, LogStore.Buf> {
    map b | b in bufs :: LogStore.Buf(bufs[b].data, bufs[b].pinned)
  }

  /** A cache between commits, as a state of the protocol whose `base` is what is on the disk. */
  function StoreOf(bufs: map<nat, BlockCache.Buf>, disk: Disk, header: Header): LogStore.Store {
    var view := disk + map b | b in bufs :: bufs[b].data;
    LogStore.Store(disk, CacheOf(bufs), header, LogStore.Quiet, disk, view, [], [])
  }

  lemma {:induction false} StoreInv(log: nat, lru: seq<nat>, bufs: map<nat, BlockCache.Buf>, disk: Disk, h: Header)
    requires Proper(log, h) && Wide(h.nos) && OnDisk(log, disk).n == 0 && log !in bufs
    requires BlockCache.Coherent(lru, bufs, disk) && BlockCache.Pinned(h, bufs, 0)
    ensures LogStore.Inv(log, StoreOf(bufs, disk, h))
  {
    BlockCache.ViewShows(log, h, lru, bufs, disk);
    var s := StoreOf(bufs, disk, h);
    forall b | b in s.cache && !s.cache[b].pinned ensures s.cache[b].data == Rd(disk, b) {
      assert !BlockCache.Busy(bufs[b]);
    }
    forall b | Home(log, b) ensures LogStore.ContentOf(s.cache, disk, b) == Rd(s.view, b) {
      assert BlockCache.Content(bufs, disk, b) == Rd(s.view, b);
    }
  }

  /** The protocol after `k` steps of a commit. */
  function Steps(log: nat, s: LogStore.Store, k: nat): (r: LogStore.Store)
    requires FullSize(s.header)
    ensures FullSize(r.header)
  {
    if k == 0 then s else LogStore.Advance(log, Steps(log, s, k - 1))
  }

  /** The writes among the first `k` steps: clearing the count in memory is none. */
  function Writes(n: nat, k: nat): nat {
    if k <= 2 * n + 1 then k else k - 1
  }

  function PhaseAt(n: nat, k: nat): LogStore.Phase {
    if k <= n then LogStore.Copy(k)
    else if k <= 2 * n + 1 then LogStore.Place(k - n - 1)
    else if k == 2 * n + 2 then LogStore.Clear
    else LogStore.Finish
  }

  /** Where the protocol is after `k` steps, starting with the store `s`. */
  ghost predicate StepsTo(log: nat, s: LogStore.Store, k: nat, r: LogStore.Store)
    requires FullSize(s.header) && s.header.n <= LOG_MAX && k <= 2 * s.header.n + 3
  {
    && r.phase == PhaseAt(s.header.n, k) && r.view == s.view
    && r.header == (if k <= 2 * s.header.n + 1 then s.header else s.header.(n := 0))
    && r.disk == CommitDisk(log, s.disk, s.header, s.view, Writes(s.header.n, k))
  }

  lemma {:induction false} SeesView(log: nat, r: LogStore.Store, b: nat)
    requires LogStore.Inv(log, r) && Home(log, b)
    ensures LogStore.ContentOf(r.cache, r.disk, b) == Rd(r.view, b)
  {
  }

  /** One step of the protocol is one write of the commit, or none. */
  lemma {:induction false} OneStep(log: nat, s: LogStore.Store, k: nat, r: LogStore.Store)
    requires Proper(log, s.header) && k <= 2 * s.header.n + 2 && StepsTo(log, s, k, r) && LogStore.Inv(log, r)
    ensures StepsTo(log, s, k + 1, LogStore.Advance(log, r))
  {
    hide LogStore.Inv, LogStore.ContentOf, Encode, CommitDisk, Rd;
    var h, n := s.header, s.header.n;
    if k < n {
      SeesView(log, r, h.nos[k]);
    } else if n < k <= 2 * n {
      SeesView(log, r, h.nos[k - n - 1]);
    }
    if k != 2 * n + 1 {
      NextWrite(log, s.disk, h, s.view, Writes(n, k));
    }
  }

  lemma {:induction false} NextWrite(log: nat, d: Disk, h: Header, w: Disk, k: nat)
    requires FullSize(h) && h.n <= LOG_MAX && k <= 2 * h.n + 1
    ensures CommitDisk(log, d, h, w, k + 1) == CommitWrite(log, h, w, CommitDisk(log, d, h, w, k), k)
  {
    hide CommitWrite;
  }

  lemma {:induction false} StepsAre(log: nat, s: LogStore.Store, k: nat)
    requires Proper(log, s.header) && LogStore.Inv(log, s) && s.phase == LogStore.Copy(0) && k <= 2 * s.header.n + 3
    ensures LogStore.Inv(log, Steps(log, s, k)) && StepsTo(log, s, k, Steps(log, s, k))
    decreases k
  {
    hide LogStore.Inv, LogStore.Advance, CommitWrite, Proper;
    if k > 0 {
      hide StepsTo, CommitDisk;
      StepsAre(log, s, k - 1);
      OneStep(log, s, k - 1, Steps(log, s, k - 1));
      LogStore.AdvanceKeeps(log, Steps(log, s, k - 1));
    }
  }

  lemma {:induction false} Started(log: nat, s: LogStore.Store)
    requires LogStore.Inv(log, s) && s.phase.Quiet?
    ensures LogStore.Inv(log, LogStore.Start(s))
  {
  }

  /** The disks that a commit of a cache between commits goes through are those of the protocol, one for
      every step that writes, and at its end the protocol is quiet again. */
  lemma {:induction false} CommitIsProtocol(log: nat, lru: seq<nat>, bufs: map<nat, BlockCache.Buf>, disk: Disk,
                                            h: Header, j: nat)
    requires Proper(log, h) && Wide(h.nos) && OnDisk(log, disk).n == 0 && log !in bufs
    requires BlockCache.Coherent(lru, bufs, disk) && BlockCache.Pinned(h, bufs, 0) && j < 2 * h.n + 2
    ensures var s := StoreOf(bufs, disk, h);
            var s0 := LogStore.Start(s);
            var k := if j <= 2 * h.n then j + 1 else j + 2;
            && CommitTrace(log, disk, h, s.view, 2 * h.n + 2)[j] == Steps(log, s0, k).disk
            && LogStore.Inv(log, Steps(log, s0, 2 * h.n + 4)) && Steps(log, s0, 2 * h.n + 4).phase.Quiet?
  {
    hide LogStore.Inv, CommitDisk, BlockCache.Coherent, BlockCache.Pinned, Wide;
    var s := StoreOf(bufs, disk, h);
    var s0 := LogStore.Start(s);
    StoreInv(log, lru, bufs, disk, h);
    Started(log, s);
    ProtocolTrace(log, s0, j);
    ProtocolEnds(log, s0);
  }

  lemma {:induction false} ProtocolTrace(log: nat, s: LogStore.Store, j: nat)
    requires Proper(log, s.header) && LogStore.Inv(log, s) && s.phase == LogStore.Copy(0) && j < 2 * s.header.n + 2
    ensures CommitTrace(log, s.disk, s.header, s.view, 2 * s.header.n + 2)[j]
            == Steps(log, s, if j <= 2 * s.header.n then j + 1 else j + 2).disk
  {
    hide LogStore.Inv, CommitDisk, CommitTrace, Steps, Proper;
    StepsAre(log, s, if j <= 2 * s.header.n then j + 1 else j + 2);
  }

  lemma {:induction false} ProtocolEnds(log: nat, s: LogStore.Store)
    requires Proper(log, s.header) && LogStore.Inv(log, s) && s.phase == LogStore.Copy(0)
    ensures var r := Steps(log, s, 2 * s.header.n + 4); LogStore.Inv(log, r) && r.phase.Quiet?
  {
    hide LogStore.Inv, CommitDisk, Proper;
    StepsAre(log, s, 2 * s.header.n + 3);
    LogStore.AdvanceKeeps(log, Steps(log, s, 2 * s.header.n + 3));
  }
}
