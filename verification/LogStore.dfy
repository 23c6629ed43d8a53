/**
The log, the cache and the disk of `src/fs/cache.c` as a state machine, one step for every
atomic action of the code, so that threads may interleave and the machine may stop between
any two disk writes.
*/
module LogStore {
  import opened Bytes
  import opened LogDisk

  datatype Buf = Buf(data: Block, pinned: bool)

  /** How far a commit is: nothing going on, `i` blocks copied into the log, header written
      and `i` blocks at home, count cleared in memory, header cleared on disk. */
  datatype Phase = Quiet | Copy(i: nat) | Place(i: nat) | Clear | Finish

  /** `base` is what a crash would recover to, and `view` what the users of the cache see.
      `hist` collects the views that have been committed, and `persisted` the disks as they
      were at the end of each commit. */
  datatype Store = Store(disk: Disk, cache: map<nat, Buf>, header: Header, phase: Phase,
                         base: Disk, view: Disk, hist: seq<Disk>, persisted: seq<Disk>)

  /** The content of a block as the users of the cache see it. */
  function ContentOf(cache: map<nat, Buf>, disk: Disk, b: nat): Block {
    if b in cache then cache[b].data else Rd(disk, b)
  }

  // ----- the steps

  /** `cache_acquire` of a block that is not cached, and eviction. */
  function Load(s: Store, b: nat): Store {
    if b in s.cache then s else s.(cache := s.cache[b := Buf(Rd(s.disk, b), false)])
  }

  function Evict(s: Store, b: nat): Store {
    if b in s.cache && !s.cache[b].pinned then s.(cache := s.cache - {b}) else s
  }

  /** Acquire, change, `cache_sync` and release of a block, when the log has room. */
  function Write(s: Store, b: nat, data: Block): Store
    requires FullSize(s.header) && s.header.n <= LOG_MAX
    requires s.header.n < LOG_MAX || Find(s.header, b, 0) < s.header.n
  {
    var h := s.header;
    s.(cache := s.cache[b := Buf(data, true)], view := s.view[b := data],
       header := if Find(h, b, 0) < h.n then h else Append(h, b))
  }

  function Start(s: Store): Store { s.(phase := Copy(0)) }

  /** One step of the commit (lines 234-259); `log` is the block number of the header. */
  function Advance(log: nat, s: Store): Store
    requires FullSize(s.header)
  {
    match s.phase
    case Copy(i) =>
      if i < s.header.n && i < LOG_MAX then
        var data := ContentOf(s.cache, s.disk, s.header.nos[i]);
        s.(disk := s.disk[Slot(log, i) := data], cache := s.cache[Slot(log, i) := Buf(data, false)],
           phase := Copy(i + 1))
      else
        s.(disk := s.disk[log := Encode(s.header)], phase := Place(0), base := s.view, hist := s.hist + [s.view])
    case Place(i) =>
      if i < s.header.n && i < LOG_MAX then
        var b := s.header.nos[i];
        var data := ContentOf(s.cache, s.disk, b);
        s.(disk := s.disk[b := data], cache := s.cache[b := Buf(data, false)], phase := Place(i + 1))
      else
        s.(header := s.header.(n := 0), phase := Clear)
    case Clear => s.(disk := s.disk[log := Encode(s.header)], phase := Finish)
    case Finish => s.(phase := Quiet, persisted := s.persisted + [s.disk])
    case Quiet => s
  }

  /** A crash, recoveries cut short after `ks[0]`, `ks[1]`, ... writes, and one that is not. */
  ghost predicate Crash(log: nat, s: Store, ks: seq<nat>, s': Store) {
    exists d :: && CutShort(log, s.disk, ks, d) && OnDisk(log, d).n <= LOG_MAX
                && s' == Booted(log, s, Attempt(log, d, OnDisk(log, d).n + 1), Wiped(OnDisk(log, d)))
  }

  /** Everything in memory is lost; a commit that had written its header is complete now. */
  function Booted(log: nat, s: Store, d: Disk, h: Header): Store {
    Store(d, map[], h, Quiet, s.base, s.base, s.hist,
          if |s.persisted| < |s.hist| then s.persisted + [d] else s.persisted)
  }

  // ----- what every step keeps

  /** A block that is not pinned is as on disk, and the users see `view`. */
  ghost predicate Transparent(log: nat, cache: map<nat, Buf>, disk: Disk, view: Disk) {
    && log !in cache
    && (forall b :: b in cache && !cache[b].pinned ==> cache[b].data == Rd(disk, b))
    && (forall b :: Home(log, b) ==> ContentOf(cache, disk, b) == Rd(view, b))
  }

  /** From position `i` on, the header lists exactly the pinned blocks. */
  ghost predicate Lists(h: Header, cache: map<nat, Buf>, i: nat) {
    && FullSize(h) && i <= h.n <= LOG_MAX
    && (forall j :: i <= j < h.n ==> h.nos[j] in cache && cache[h.nos[j]].pinned)
    && (forall b :: b in cache && cache[b].pinned ==> i <= Find(h, b, 0) < h.n)
  }

  function Placed(p: Phase): nat { if p.Place? then p.i else 0 }

  /** The disk is where the phase of the commit says. */
  ghost predicate OnTrack(log: nat, disk: Disk, header: Header, phase: Phase, base: Disk, view: Disk) {
    match phase
    case Quiet => Copying(log, disk, header, base, view, 0)
    case Copy(i) => Copying(log, disk, header, base, view, i)
    case Place(i) => Placing(log, disk, header, view, i)
    case Clear => header == OnDisk(log, disk).(n := 0) &&
      Placing(log, disk, OnDisk(log, disk), view, OnDisk(log, disk).n)
    case Finish => Installed(log, disk, view) && header.n == 0
  }

  predicate Committed(p: Phase) {
    p.Place? || p.Clear? || p.Finish?
  }

  /** Every commit that has ended left its view on the disk. */
  ghost predicate Remembered(log: nat, hist: seq<Disk>, persisted: seq<Disk>, phase: Phase, base: Disk, view: Disk) {
    && |hist| == |persisted| + (if Committed(phase) then 1 else 0)
    && (forall k :: 0 <= k < |persisted| ==> Installed(log, persisted[k], hist[k]))
    && (hist != [] ==> base == hist[|hist| - 1])
    && (Committed(phase) ==> base == view)
  }

  ghost predicate Inv(log: nat, s: Store) {
    && Proper(log, s.header) && Wide(s.header.nos)
    && Transparent(log, s.cache, s.disk, s.view) && Lists(s.header, s.cache, Placed(s.phase))
    && OnTrack(log, s.disk, s.header, s.phase, s.base, s.view)
    && Remembered(log, s.hist, s.persisted, s.phase, s.base, s.view)
  }

  /** At any moment, a crash recovers to `base`. */
  lemma {:induction false} CrashRecovers(log: nat, s: Store)
    requires Inv(log, s)
    ensures Recovers(log, s.disk, s.base)
  {
    match s.phase
    case Quiet => CommitRecovers(log, s.disk, s.header, s.base, s.view, 0);
    case Copy(i) => CommitRecovers(log, s.disk, s.header, s.base, s.view, i);
    case Place(i) => CommitRecovers(log, s.disk, s.header, s.base, s.view, i);
    case Clear => CommitRecovers(log, s.disk, OnDisk(log, s.disk), s.base, s.view, OnDisk(log, s.disk).n);
    case Finish => CommitRecovers(log, s.disk, s.header, s.view, s.view, 0);
  }

  lemma {:induction false} LoadCache(log: nat, cache: map<nat, Buf>, disk: Disk, view: Disk, h: Header, i: nat, b: nat)
    requires Transparent(log, cache, disk, view) && Lists(h, cache, i) && b != log && b !in cache
    ensures var cache' := cache[b := Buf(Rd(disk, b), false)];
            Transparent(log, cache', disk, view) && Lists(h, cache', i)
  {
    var cache' := cache[b := Buf(Rd(disk, b), false)];
    forall x ensures ContentOf(cache', disk, x) == ContentOf(cache, disk, x) { }
  }

  lemma {:induction false} EvictCache(log: nat, cache: map<nat, Buf>, disk: Disk, view: Disk, h: Header, i: nat, b: nat)
    requires Transparent(log, cache, disk, view) && Lists(h, cache, i) && b in cache && !cache[b].pinned
    ensures Transparent(log, cache - {b}, disk, view) && Lists(h, cache - {b}, i)
  {
    forall x ensures ContentOf(cache - {b}, disk, x) == ContentOf(cache, disk, x) { }
  }

  lemma {:induction false} LoadKeeps(log: nat, s: Store, b: nat)
    requires Inv(log, s) && b != log
    ensures Inv(log, Load(s, b))
  {
    if b !in s.cache {
      LoadCache(log, s.cache, s.disk, s.view, s.header, Placed(s.phase), b);
    }
  }

  lemma {:induction false} EvictKeeps(log: nat, s: Store, b: nat)
    requires Inv(log, s)
    ensures Inv(log, Evict(s, b))
  {
    if b in s.cache && !s.cache[b].pinned {
      EvictCache(log, s.cache, s.disk, s.view, s.header, Placed(s.phase), b);
    }
  }

  // ----- a write by an operation

  function Append(h: Header, b: nat): Header
    requires FullSize(h) && h.n < LOG_MAX
  {
    Header(h.n + 1, h.nos[h.n := b])
  }

  lemma {:induction false} FindAppended(h: Header, b: nat, x: nat, i: nat)
    requires FullSize(h) && i <= h.n < LOG_MAX && Find(h, b, 0) == h.n
    ensures Find(Append(h, b), x, i) == if Find(h, x, i) < h.n then Find(h, x, i) else if x == b then h.n else h.n + 1
    decreases h.n - i
  {
    if i < h.n {
      FindAppended(h, b, x, i + 1);
    }
  }

  lemma {:induction false} AppendLists(log: nat, h: Header, cache: map<nat, Buf>, b: nat, data: Block)
    requires Proper(log, h) && Home(log, b) && h.n < LOG_MAX && Find(h, b, 0) == h.n && Lists(h, cache, 0)
    ensures Proper(log, Append(h, b)) && Lists(Append(h, b), cache[b := Buf(data, true)], 0)
  {
    var h', cache' := Append(h, b), cache[b := Buf(data, true)];
    forall x | x in cache' && cache'[x].pinned ensures 0 <= Find(h', x, 0) < h'.n {
      FindAppended(h, b, x, 0);
    }
    forall j | 0 <= j < h'.n ensures h'.nos[j] in cache' && cache'[h'.nos[j]].pinned {
      assert j < h.n ==> h'.nos[j] == h.nos[j];
    }
  }

  lemma {:induction false} WriteTransparent(log: nat, cache: map<nat, Buf>, disk: Disk, view: Disk, b: nat, data: Block)
    requires Transparent(log, cache, disk, view) && b != log
    ensures Transparent(log, cache[b := Buf(data, true)], disk, view[b := data])
  {
    var cache' := cache[b := Buf(data, true)];
    forall x | Home(log, x) ensures ContentOf(cache', disk, x) == Rd(view[b := data], x) {
      assert ContentOf(cache, disk, x) == Rd(view, x);
    }
  }

  lemma {:induction false} WriteKeeps(log: nat, s: Store, b: nat, data: Block)
    requires Inv(log, s) && s.phase.Quiet? && Home(log, b) && b < Pow256(8)
    requires s.header.n < LOG_MAX || Find(s.header, b, 0) < s.header.n
    ensures Inv(log, Write(s, b, data))
  {
    var s' := Write(s, b, data);
    WriteTransparent(log, s.cache, s.disk, s.view, b, data);
    if Find(s.header, b, 0) < s.header.n {
      RewriteLists(s.header, s.cache, b, data);
    } else {
      AppendLists(log, s.header, s.cache, b, data);
    }
    forall x | Home(log, x) && Find(s'.header, x, 0) == s'.header.n ensures Rd(s.base, x) == Rd(s'.view, x) {
      if s'.header != s.header { FindAppended(s.header, b, x, 0); }
      assert x != b;
    }
  }

  lemma {:induction false} RewriteLists(h: Header, cache: map<nat, Buf>, b: nat, data: Block)
    requires Lists(h, cache, 0) && Find(h, b, 0) < h.n
    ensures Lists(h, cache[b := Buf(data, true)], 0)
  {
  }

  // ----- the steps of a commit

  lemma {:induction false} CopyKeeps(log: nat, s: Store)
    requires Inv(log, s) && s.phase.Copy? && s.phase.i < s.header.n
    ensures Inv(log, Advance(log, s))
  {
    var i := s.phase.i;
    var b, to := s.header.nos[i], Slot(log, i);
    var data := ContentOf(s.cache, s.disk, b);
    assert data == Rd(s.view, b);
    CopyWrite(log, s.disk, s.header, s.base, s.view, i);
    CopyTransparent(log, s.cache, s.disk, s.view, s.header, to, data);
  }

  lemma {:induction false} CopyTransparent(log: nat, cache: map<nat, Buf>, disk: Disk, view: Disk, h: Header, to: nat,
                                           data: Block)
    requires Transparent(log, cache, disk, view) && !Home(log, to) && to != log && Proper(log, h) && Lists(h, cache, 0)
    ensures Transparent(log, cache[to := Buf(data, false)], disk[to := data], view)
    ensures Lists(h, cache[to := Buf(data, false)], 0)
  {
    var cache' := cache[to := Buf(data, false)];
    forall x | x != to ensures ContentOf(cache', disk[to := data], x) == ContentOf(cache, disk, x) { }
  }

  lemma {:induction false} HeaderKeeps(log: nat, s: Store)
    requires Inv(log, s) && s.phase.Copy? && s.phase.i >= s.header.n
    ensures Inv(log, Advance(log, s))
  {
    HeaderWrite(log, s.disk, s.header, s.base, s.view);
    HeaderTransparent(log, s.cache, s.disk, s.view, Encode(s.header));
  }

  /** Writing the header block changes nothing that the users of the cache see. */
  lemma {:induction false} HeaderTransparent(log: nat, cache: map<nat, Buf>, disk: Disk, view: Disk, data: Block)
    requires Transparent(log, cache, disk, view)
    ensures Transparent(log, cache, disk[log := data], view)
  {
    forall x | x != log ensures ContentOf(cache, disk[log := data], x) == ContentOf(cache, disk, x) { }
  }

  lemma {:induction false} PlaceKeeps(log: nat, s: Store)
    requires Inv(log, s) && s.phase.Place? && s.phase.i < s.header.n
    ensures Inv(log, Advance(log, s))
  {
    var i := s.phase.i;
    var b := s.header.nos[i];
    assert ContentOf(s.cache, s.disk, b) == Rd(s.view, b);
    PlaceWrite(log, s.disk, s.header, s.view, i);
    PlaceTransparent(log, s.cache, s.disk, s.view, s.header, i);
  }

  lemma {:induction false} PlaceTransparent(log: nat, cache: map<nat, Buf>, disk: Disk, view: Disk, h: Header, i: nat)
    requires Transparent(log, cache, disk, view) && Proper(log, h) && i < h.n && Lists(h, cache, i)
    ensures var b := h.nos[i];
            var data := ContentOf(cache, disk, b);
            Transparent(log, cache[b := Buf(data, false)], disk[b := data], view) &&
              Lists(h, cache[b := Buf(data, false)], i + 1)
  {
    var b := h.nos[i];
    var data := ContentOf(cache, disk, b);
    WriteBackTransparent(log, cache, disk, view, b, data);
    PlaceLists(log, h, cache, i, data);
  }

  /** A block that is written back as it is in the cache. */
  lemma {:induction false} WriteBackTransparent(log: nat, cache: map<nat, Buf>, disk: Disk, view: Disk, b: nat,
                                                data: Block)
    requires Transparent(log, cache, disk, view) && b != log && data == ContentOf(cache, disk, b)
    ensures Transparent(log, cache[b := Buf(data, false)], disk[b := data], view)
  {
    forall x ensures ContentOf(cache[b := Buf(data, false)], disk[b := data], x) == ContentOf(cache, disk, x) { }
  }

  lemma {:induction false} PlaceLists(log: nat, h: Header, cache: map<nat, Buf>, i: nat, data: Block)
    requires Proper(log, h) && i < h.n && Lists(h, cache, i)
    ensures Lists(h, cache[h.nos[i] := Buf(data, false)], i + 1)
  {
    FindIs(log, h, i);
  }

  lemma {:induction false} ClearKeeps(log: nat, s: Store)
    requires Inv(log, s) && s.phase.Clear?
    ensures Inv(log, Advance(log, s))
  {
    ClearWrite(log, s.disk, OnDisk(log, s.disk), s.view);
    HeaderTransparent(log, s.cache, s.disk, s.view, Encode(s.header));
  }

  lemma {:induction false} AdvanceKeeps(log: nat, s: Store)
    requires Inv(log, s)
    ensures Inv(log, Advance(log, s))
  {
    match s.phase
    case Quiet =>
    case Copy(i) => if i < s.header.n { CopyKeeps(log, s); } else { HeaderKeeps(log, s); }
    case Place(i) => if i < s.header.n { PlaceKeeps(log, s); }
    case Clear => ClearKeeps(log, s);
    case Finish =>
  }

  /** After a crash and any number of recoveries cut short, the disk holds exactly `base`. */
  lemma {:induction false} CrashKeeps(log: nat, s: Store, ks: seq<nat>, s': Store)
    requires Inv(log, s) && Crash(log, s, ks, s')
    ensures Inv(log, s') && Installed(log, s'.disk, s.base) && s'.view == s'.base == s.base
  {
    var d :| && CutShort(log, s.disk, ks, d) && OnDisk(log, d).n <= LOG_MAX
             && s' == Booted(log, s, Attempt(log, d, OnDisk(log, d).n + 1), Wiped(OnDisk(log, d)));
    CrashRecovers(log, s);
    RepeatedRecovery(log, s.disk, ks, d, s.base);
    DecodedWide(Rd(d, log));
    BootedInv(log, s, s'.disk, s'.header);
  }

  lemma {:induction false} BootedInv(log: nat, s: Store, d: Disk, h: Header)
    requires Installed(log, d, s.base) && FullSize(h) && h.n == 0 && Wide(h.nos)
    requires Remembered(log, s.hist, s.persisted, s.phase, s.base, s.view)
    ensures Inv(log, Booted(log, s, d, h))
  {
    var s' := Booted(log, s, d, h);
    assert Transparent(log, s'.cache, d, s.base);
    assert Copying(log, d, h, s.base, s.base, 0);
  }
}
