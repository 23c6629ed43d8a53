/**
What the log of `src/fs/cache.c` is for. A journal notes every block write of every operation
in order, and the points of that order at which a commit has written its header. In every
run, the users of the cache see the effect of the whole journal, and a crash leaves the effect
of the journal up to the last such point: each operation entirely or not at all, and every
operation whose `cache_end_op` has returned.
*/
module Atomicity {
  import opened Bytes
  import opened LogDisk
  import LogStore
  import opened GroupCommit

  datatype Entry = Entry(op: nat, block: nat, data: Block)

  /** `writes[..cuts[k]]` is what commit `k` made durable. */
  datatype Journal = Journal(init: Disk, writes: seq<Entry>, cuts: seq<nat>)

  /** The disk after a sequence of writes. */
  function Replay(d: Disk, w: seq<Entry>): Disk {
    if w == [] then d
    else var last := w[|w| - 1]; Replay(d, w[..|w| - 1])[last.block := last.data]
  }

  function LastCut(cuts: seq<nat>): nat {
    if cuts == [] then 0 else cuts[|cuts| - 1]
  }

  /** The commit writes its header now. */
  predicate WritesHeader(s: State, a: Action) {
    a.Commit? && s.store.phase.Copy? && s.store.phase.i >= s.store.header.n
  }

  function Record(j: Journal, s: State, a: Action): Journal {
    if a.Write? then j.(writes := j.writes + [Entry(a.o, a.b, a.data)])
    else if WritesHeader(s, a) then j.(cuts := j.cuts + [|j.writes|])
    else if a.Crash? && LastCut(j.cuts) <= |j.writes| then j.(writes := j.writes[..LastCut(j.cuts)])
    else j
  }

  // ----- the journal and the store

  ghost predicate CutsOk(n: nat, cuts: seq<nat>) {
    && LastCut(cuts) <= n
    && forall k, l :: 0 <= k <= l < |cuts| ==> cuts[k] <= cuts[l]
  }

  ghost predicate Replays(j: Journal, base: Disk, view: Disk, hist: seq<Disk>)
  {
    && CutsOk(|j.writes|, j.cuts) && |j.cuts| == |hist|
    && view == Replay(j.init, j.writes) && base == Replay(j.init, j.writes[..LastCut(j.cuts)])
    && forall k :: 0 <= k < |hist| ==> j.cuts[k] <= |j.writes| && hist[k] == Replay(j.init, j.writes[..j.cuts[k]])
  }

  lemma {:induction false} WriteReplays(j: Journal, base: Disk, view: Disk, hist: seq<Disk>, e: Entry)
    requires Replays(j, base, view, hist)
    ensures Replays(j.(writes := j.writes + [e]), base, view[e.block := e.data], hist)
  {
    var w' := j.writes + [e];
    assert w'[..|w'| - 1] == j.writes;
    forall c | 0 <= c <= |j.writes| ensures w'[..c] == j.writes[..c] { }
  }

  lemma {:induction false} CutReplays(j: Journal, base: Disk, view: Disk, hist: seq<Disk>)
    requires Replays(j, base, view, hist)
    ensures Replays(j.(cuts := j.cuts + [|j.writes|]), view, view, hist + [view])
  {
    assert j.writes[..|j.writes|] == j.writes;
  }

  lemma {:induction false} CrashReplays(j: Journal, base: Disk, view: Disk, hist: seq<Disk>)
    requires Replays(j, base, view, hist)
    ensures Replays(j.(writes := j.writes[..LastCut(j.cuts)]), base, base, hist)
  {
    var c := LastCut(j.cuts);
    var w' := j.writes[..c];
    assert w'[..c] == w';
    forall k | 0 <= k < |hist| ensures w'[..j.cuts[k]] == j.writes[..j.cuts[k]] { }
  }

  // ----- the journal and the operations

  /** The commit that covers an operation which has left; `done` commits have ended. */
  predicate CoveredBy(x: OpState, done: nat, g: nat) {
    match x
    case Open(_, _) => false
    case Leaving(n) => n == g
    case Asleep(n) => n == g
    case Committing => done == g
    case Done(n, ok) => ok && n == g
  }

  /** No operation has writes on both sides of `c`. */
  ghost predicate NoneSplit(writes: seq<Entry>, c: nat) {
    forall i, k :: 0 <= i < c <= k < |writes| ==> writes[i].op != writes[k].op
  }

  ghost predicate WriteOk(ops: Ops, done: nat, cuts: seq<nat>, i: nat, op: nat) {
    && op in ops
    && (ops[op].Open? ==> LastCut(cuts) <= i)
    && forall g :: 0 <= g < |cuts| && CoveredBy(ops[op], done, g) ==> i < cuts[g]
  }

  ghost predicate Whole(j: Journal, ops: Ops, done: nat) {
    && (forall i :: 0 <= i < |j.writes| ==> WriteOk(ops, done, j.cuts, i, j.writes[i].op))
    && (forall k :: 0 <= k < |j.cuts| ==> NoneSplit(j.writes, j.cuts[k]))
  }

  lemma {:induction false} WriteWhole(j: Journal, ops: Ops, done: nat, e: Entry, x: OpState)
    requires Whole(j, ops, done) && CutsOk(|j.writes|, j.cuts) && e.op in ops && ops[e.op].Open? && x.Open?
    ensures Whole(j.(writes := j.writes + [e]), ops[e.op := x], done)
  {
    var w', ops' := j.writes + [e], ops[e.op := x];
    forall i | 0 <= i < |w'| ensures WriteOk(ops', done, j.cuts, i, w'[i].op) {
      if i < |j.writes| { assert WriteOk(ops, done, j.cuts, i, j.writes[i].op); }
    }
    forall k | 0 <= k < |j.cuts| ensures NoneSplit(w', j.cuts[k]) {
      var c := j.cuts[k];
      assert NoneSplit(j.writes, c);
      forall i, l | 0 <= i < c <= l < |w'| ensures w'[i].op != w'[l].op {
        if l == |j.writes| { assert WriteOk(ops, done, j.cuts, i, j.writes[i].op); }
      }
    }
  }

  /** An operation changes state, and those it may be covered by have not been cut yet. */
  lemma {:induction false} MoveWhole(j: Journal, ops: Ops, done: nat, o: nat, x: OpState, done': nat)
    requires Whole(j, ops, done) && !x.Open?
    requires o in ops && forall g :: 0 <= g < |j.cuts| && CoveredBy(x, done', g) ==> CoveredBy(ops[o], done, g)
    requires forall p :: p in ops && p != o && ops[p].Committing? ==> done' == done
    ensures Whole(j, ops[o := x], done')
  {
    forall i | 0 <= i < |j.writes| ensures WriteOk(ops[o := x], done', j.cuts, i, j.writes[i].op) {
      assert WriteOk(ops, done, j.cuts, i, j.writes[i].op);
    }
  }

  lemma {:induction false} BeginWhole(j: Journal, ops: Ops, done: nat, o: nat)
    requires Whole(j, ops, done) && o !in ops
    ensures Whole(j, ops[o := Open(0, {})], done)
  {
    forall i | 0 <= i < |j.writes| ensures WriteOk(ops[o := Open(0, {})], done, j.cuts, i, j.writes[i].op) {
      assert WriteOk(ops, done, j.cuts, i, j.writes[i].op);
    }
  }

  lemma {:induction false} CutWhole(j: Journal, ops: Ops, done: nat)
    requires Whole(j, ops, done) && forall o :: o in ops ==> !ops[o].Open?
    ensures Whole(j.(cuts := j.cuts + [|j.writes|]), ops, done)
  {
    forall i | 0 <= i < |j.writes| ensures WriteOk(ops, done, j.cuts + [|j.writes|], i, j.writes[i].op) {
      assert WriteOk(ops, done, j.cuts, i, j.writes[i].op);
    }
  }

  lemma {:induction false} CrashWhole(j: Journal, ops: Ops, done: nat, done': nat)
    requires Whole(j, ops, done) && CutsOk(|j.writes|, j.cuts)
    ensures Whole(j.(writes := j.writes[..LastCut(j.cuts)]), Returned(ops), done')
  {
    var w' := j.writes[..LastCut(j.cuts)];
    forall i | 0 <= i < |w'| ensures WriteOk(Returned(ops), done', j.cuts, i, w'[i].op) {
      assert WriteOk(ops, done, j.cuts, i, j.writes[i].op);
    }
    forall k | 0 <= k < |j.cuts| ensures NoneSplit(w', j.cuts[k]) {
      assert NoneSplit(j.writes, j.cuts[k]);
    }
  }

  // ----- every step

  ghost predicate Kept(j: Journal, s: State) {
    Replays(j, s.store.base, s.store.view, s.store.hist) && Whole(j, s.ops, |s.store.persisted|)
  }

  /** `base`, `view` and `hist` change only by a write, by the header of a commit and by a
      crash. */
  lemma {:induction false} StoreEffect(log: nat, s: State, a: Action, s': State)
    requires Step(log, s, a, s')
    ensures (s'.store.base, s'.store.view, s'.store.hist) ==
            if a.Write? then (s.store.base, s.store.view[a.b := a.data], s.store.hist)
            else if WritesHeader(s, a) then (s.store.view, s.store.view, s.store.hist + [s.store.view])
            else if a.Crash? then (s.store.base, s.store.base, s.store.hist)
            else (s.store.base, s.store.view, s.store.hist)
  {
    match a
    case Write(_, b, _) => EntriesFound(s.store.header, b);
    case _ =>
  }

  lemma {:induction false} StoreStep(j: Journal, s: State, a: Action, base: Disk, view: Disk, hist: seq<Disk>)
    requires Replays(j, base, view, hist)
    ensures a.Write? ==> Replays(Record(j, s, a), base, view[a.b := a.data], hist)
    ensures WritesHeader(s, a) ==> Replays(Record(j, s, a), view, view, hist + [view])
    ensures a.Crash? ==> Replays(Record(j, s, a), base, base, hist)
    ensures !a.Write? && !WritesHeader(s, a) && !a.Crash? ==> Record(j, s, a) == j
  {
    if a.Write? {
      WriteReplays(j, base, view, hist, Entry(a.o, a.b, a.data));
    } else if WritesHeader(s, a) {
      CutReplays(j, base, view, hist);
    } else {
      CrashReplays(j, base, view, hist);
    }
  }

  /** What the operations do in one step, as far as the journal is concerned. */
  ghost predicate OpsEffect(s: State, a: Action, s': State) {
    var done, done' := |s.store.persisted|, |s'.store.persisted|;
    match a
    case Begin(o) => done' == done && o !in s.ops && s'.ops == s.ops[o := Open(0, {})]
    case Write(o, _, _) =>
      && done' == done && o in s.ops && s.ops[o].Open?
      && o in s'.ops && s'.ops[o].Open? && s'.ops == s.ops[o := s'.ops[o]]
    case Load(_) => done' == done && s'.ops == s.ops
    case Evict(_) => done' == done && s'.ops == s.ops
    case EndOp(o) =>
      && done' == done && o in s.ops && done == |s.store.hist|
      && (s'.ops == s.ops[o := Leaving(done)] || s'.ops == s.ops[o := Committing])
    case Crash(_) => s'.ops == Returned(s.ops)
    case Commit(o) =>
      if WritesHeader(s, a) then done' == done && s'.ops == s.ops && forall p :: p in s.ops ==> !s.ops[p].Open?
      else if s.store.phase.Finish? then
        && o in s.ops && s.ops[o].Committing? && s'.ops == s.ops[o := Done(done, true)]
        && forall p :: p in s.ops && p != o ==> !s.ops[p].Committing?
      else done' == done && s'.ops == s.ops
    case _ =>
      && done' == done && a.o in s.ops && (s.ops[a.o].Leaving? || s.ops[a.o].Asleep?)
      && a.o in s'.ops && s'.ops == s.ops[a.o := s'.ops[a.o]]
      && (s'.ops[a.o].Asleep? || s'.ops[a.o].Done?) && s'.ops[a.o].g == s.ops[a.o].g
  }

  lemma {:induction false} OpsEffects(log: nat, s: State, a: Action, s': State)
    requires Inv(log, s) && Step(log, s, a, s')
    ensures OpsEffect(s, a, s')
  {
    match a
    case EndOp(o) => OpenMeansQuiet(BooksOf(s), o);
    case _ =>
  }

  lemma {:induction false} OpsStep(s: State, a: Action, s': State, j: Journal)
    requires OpsEffect(s, a, s') && |j.cuts| == |s.store.hist|
    requires Whole(j, s.ops, |s.store.persisted|) && CutsOk(|j.writes|, j.cuts)
    ensures Whole(Record(j, s, a), s'.ops, |s'.store.persisted|)
  {
    var done, done' := |s.store.persisted|, |s'.store.persisted|;
    match a
    case Begin(o) => BeginWhole(j, s.ops, done, o);
    case Write(o, b, data) => WriteWhole(j, s.ops, done, Entry(o, b, data), s'.ops[o]);
    case Load(b) =>
    case Evict(b) =>
    case EndOp(o) => MoveWhole(j, s.ops, done, o, s'.ops[o], done);
    case WaitCheck(o) => MoveWhole(j, s.ops, done, o, s'.ops[o], done);
    case Resume(o) => MoveWhole(j, s.ops, done, o, s'.ops[o], done);
    case Commit(o) =>
      if WritesHeader(s, a) {
        CutWhole(j, s.ops, done);
      } else if s.store.phase.Finish? {
        MoveWhole(j, s.ops, done, o, s'.ops[o], done');
      }
    case Crash(ks) => CrashWhole(j, s.ops, done, done');
  }

  lemma {:induction false} JournalStep(log: nat, s: State, a: Action, s': State, j: Journal)
    requires Inv(log, s) && Step(log, s, a, s') && Kept(j, s)
    ensures Inv(log, s') && Kept(Record(j, s, a), s')
  {
    StepKeeps(log, s, a, s');
    StoreEffect(log, s, a, s');
    StoreStep(j, s, a, s.store.base, s.store.view, s.store.hist);
    OpsEffects(log, s, a, s');
    OpsStep(s, a, s', j);
  }

  // ----- whole runs

  ghost predicate Run(log: nat, ss: seq<State>, acts: seq<Action>) {
    && |ss| == |acts| + 1
    && if acts == [] then Initial(log, ss[0])
       else var n := |acts| - 1; Run(log, ss[..n + 1], acts[..n]) && Step(log, ss[n], acts[n], ss[n + 1])
  }

  function JournalOf(ss: seq<State>, acts: seq<Action>): Journal
    requires |ss| == |acts| + 1
  {
    if acts == [] then Journal(ss[0].store.view, [], [])
    else
      var n := |acts| - 1;
      Record(JournalOf(ss[..n + 1], acts[..n]), ss[n], acts[n])
  }

  lemma {:induction false} StartKept(log: nat, s: State)
    requires Initial(log, s)
    ensures Inv(log, s) && Kept(Journal(s.store.view, [], []), s)
  {
    InitialInv(log, s);
  }

  lemma {:induction false} RunKeeps(log: nat, ss: seq<State>, acts: seq<Action>)
    requires Run(log, ss, acts)
    ensures Inv(log, ss[|acts|]) && Kept(JournalOf(ss, acts), ss[|acts|])
    decreases |acts|
  {
    if acts == [] {
      StartKept(log, ss[0]);
    } else {
      var n := |acts| - 1;
      RunKeeps(log, ss[..n + 1], acts[..n]);
      JournalStep(log, ss[n], acts[n], ss[n + 1], JournalOf(ss[..n + 1], acts[..n]));
    }
  }

  /** In every run, no action that the users of the cache may take panics. */
  lemma {:induction false} NeverPanics(log: nat, ss: seq<State>, acts: seq<Action>, a: Action)
    requires Run(log, ss, acts) && Enabled(log, ss[|acts|], a)
    ensures var s := ss[|acts|]; FullSize(s.store.header) && s.store.header.n <= LOG_MAX && !Panics(s, a)
  {
    RunKeeps(log, ss, acts);
    NoPanic(log, ss[|acts|], a);
  }

  /** In every run, whoever reads a block through the cache sees the last write to it. */
  lemma {:induction false} ReadsLastWrite(log: nat, ss: seq<State>, acts: seq<Action>, b: nat)
    requires Run(log, ss, acts) && Home(log, b)
    ensures var s, j := ss[|acts|], JournalOf(ss, acts);
            LogStore.ContentOf(s.store.cache, s.store.disk, b) == Rd(Replay(j.init, j.writes), b)
  {
    RunKeeps(log, ss, acts);
  }

  /** The operation has returned from `cache_end_op`, and not because it was interrupted. */
  predicate HasReturned(ops: Ops, o: nat) {
    o in ops && ops[o].Done? && ops[o].ok
  }

  lemma {:induction false} ReturnedBefore(j: Journal, ops: Ops, logged: set<nat>, done: nat, i: nat)
    requires Whole(j, ops, done) && CutsOk(|j.writes|, j.cuts) && done <= |j.cuts| && i < |j.writes|
    requires HasReturned(ops, j.writes[i].op) && OpOk(ops[j.writes[i].op], logged, done)
    ensures i < LastCut(j.cuts)
  {
    assert WriteOk(ops, done, j.cuts, i, j.writes[i].op);
    assert CoveredBy(ops[j.writes[i].op], done, ops[j.writes[i].op].g);
  }

  lemma {:induction false} ReturnedDurable(log: nat, s: State, j: Journal, i: nat)
    requires Inv(log, s) && Kept(j, s) && i < |j.writes| && HasReturned(s.ops, j.writes[i].op)
    ensures i < LastCut(j.cuts)
  {
    ReturnedBefore(j, s.ops, BooksOf(s).logged, |s.store.persisted|, i);
  }

  lemma {:induction false} LastSplitsNone(j: Journal, ops: Ops, done: nat)
    requires Whole(j, ops, done) && CutsOk(|j.writes|, j.cuts)
    ensures NoneSplit(j.writes, LastCut(j.cuts))
  {
  }

  /** In every run, a crash and any number of recoveries cut short, followed by one that is
      not, leave the effect of a prefix of the journal. The prefix splits no operation, and it
      has all writes of every operation that has returned from `cache_end_op`. */
  lemma {:induction false} CrashIsAtomic(log: nat, ss: seq<State>, acts: seq<Action>, ks: seq<nat>, s': State)
    requires Run(log, ss, acts) && Step(log, ss[|acts|], Crash(ks), s')
    ensures var j := JournalOf(ss, acts);
            var c := LastCut(j.cuts);
            && c <= |j.writes| && NoneSplit(j.writes, c)
            && Installed(log, s'.store.disk, Replay(j.init, j.writes[..c]))
            && s'.store.view == Replay(j.init, j.writes[..c])
            && forall i :: 0 <= i < |j.writes| && HasReturned(ss[|acts|].ops, j.writes[i].op) ==> i < c
  {
    var s, j := ss[|acts|], JournalOf(ss, acts);
    RunKeeps(log, ss, acts);
    CrashStep(log, s, ks, s');
    LastSplitsNone(j, s.ops, |s.store.persisted|);
    forall i | 0 <= i < |j.writes| && HasReturned(s.ops, j.writes[i].op) ensures i < LastCut(j.cuts) {
      ReturnedDurable(log, s, j, i);
    }
  }

  /** In every run, when an operation has returned, the commit that covers it had put all its
      writes at home and cleared the log. */
  lemma {:induction false} ReturnedInstalled(log: nat, ss: seq<State>, acts: seq<Action>, o: nat)
    requires Run(log, ss, acts) && HasReturned(ss[|acts|].ops, o)
    ensures var s, j := ss[|acts|], JournalOf(ss, acts);
            var g := s.ops[o].g;
            && g < |s.store.persisted| && g < |j.cuts| && j.cuts[g] <= |j.writes|
            && Installed(log, s.store.persisted[g], Replay(j.init, j.writes[..j.cuts[g]]))
            && forall i :: 0 <= i < |j.writes| && j.writes[i].op == o ==> i < j.cuts[g]
  {
    var s, j := ss[|acts|], JournalOf(ss, acts);
    RunKeeps(log, ss, acts);
    assert OpOk(s.ops[o], BooksOf(s).logged, |s.store.persisted|);
    forall i | 0 <= i < |j.writes| && j.writes[i].op == o ensures i < j.cuts[s.ops[o].g] {
      assert WriteOk(s.ops, |s.store.persisted|, j.cuts, i, j.writes[i].op);
      assert CoveredBy(s.ops[o], |s.store.persisted|, s.ops[o].g);
    }
  }

  // ----- the budget of an operation

  /** All blocks that operation `o` writes are among `blocks`. */
  ghost predicate WritesOnly(acts: seq<Action>, o: nat, blocks: set<nat>) {
    forall i :: 0 <= i < |acts| && acts[i].Write? && acts[i].o == o ==> acts[i].b in blocks
  }

  lemma {:induction false} MineStep(log: nat, s: State, a: Action, s': State, o: nat)
    requires Step(log, s, a, s') && o in s'.ops && s'.ops[o].Open?
    ensures || s'.ops[o].mine == {}
            || (&& o in s.ops && s.ops[o].Open?
                && s'.ops[o].mine == s.ops[o].mine + if a.Write? && a.o == o then {a.b} else {})
  {
  }

  /** An open operation has synced nothing but what it has written. */
  lemma {:induction false} MineWithin(log: nat, ss: seq<State>, acts: seq<Action>, o: nat, blocks: set<nat>)
    requires Run(log, ss, acts) && WritesOnly(acts, o, blocks)
    ensures var ops := ss[|acts|].ops; o in ops && ops[o].Open? ==> ops[o].mine <= blocks
    decreases |acts|
  {
    hide Step, Initial;
    if acts == [] {
      NoOps(log, ss[0]);
    } else {
      var n := |acts| - 1;
      MineWithin(log, ss[..n + 1], acts[..n], o, blocks);
      var ops := ss[n + 1].ops;
      if o in ops && ops[o].Open? { MineStep(log, ss[n], acts[n], ss[n + 1], o); }
    }
  }

  lemma {:induction false} NoOps(log: nat, s: State)
    requires Initial(log, s)
    ensures s.ops == map[]
  {
  }

  /** In every run, an operation whose writes stay within ten blocks may write any of them at any time, and
      `cache_sync` does not panic. */
  lemma {:induction false} WithinBudget(log: nat, ss: seq<State>, acts: seq<Action>, o: nat, blocks: set<nat>, b: nat,
                                        data: Block)
    requires Run(log, ss, acts) && o in ss[|acts|].ops && ss[|acts|].ops[o].Open? && WritesOnly(acts, o, blocks)
    requires |blocks| <= OP_MAX && b in blocks && Home(log, b) && b < Pow256(8)
    ensures var s, a := ss[|acts|], Write(o, b, data);
            Enabled(log, s, a) && FullSize(s.store.header) && s.store.header.n <= LOG_MAX && !Panics(s, a)
  {
    MineWithin(log, ss, acts, o, blocks);
    var mine := ss[|acts|].ops[o].mine;
    Subset(mine + {b}, blocks);
    NeverPanics(log, ss, acts, Write(o, b, data));
  }

  lemma {:induction false} Subset(a: set<nat>, b: set<nat>)
    requires a <= b
    ensures |a| <= |b|
    decreases |a|
  {
    if a != {} {
      var x :| x in a;
      Subset(a - {x}, b - {x});
    }
  }
}
