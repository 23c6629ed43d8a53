/**
Operations on the block cache of `src/fs/cache.c` in every interleaving: `cache_begin_op`,
`cache_sync`, `cache_end_op` with its group commit, cache traffic by anybody, and crashes.
*/
module GroupCommit {
  import opened Bytes
  import opened LogDisk
  import LogStore
  import Sems = Semaphores

  /** An operation: open, with its count `rm` and the blocks it has synced; past the lock in
      `cache_end_op` but not asleep yet, asleep on `log.check`, committing, or returned. `g` is
      the number of the commit that covers it, and `ok` is false for an interrupted wait. */
  datatype OpState =
    | Open(rm: nat, mine: set<nat>)
    | Leaving(g: nat)
    | Asleep(g: nat)
    | Committing
    | Done(g: nat, ok: bool)

  type Ops = map<nat, OpState>

  datatype State = State(store: LogStore.Store, ops: Ops, outstanding: int, check: Sems.Sem)

  datatype Action =
    | Begin(o: nat)
    | Write(o: nat, b: nat, data: Block)
    | Load(b: nat)
    | Evict(b: nat)
    | EndOp(o: nat)
    | WaitCheck(o: nat)
    | Resume(o: nat)
    | Commit(o: nat)
    | Crash(ks: seq<nat>)

  /** The blocks in the header. */
  function Entries(h: Header): set<nat>
    requires FullSize(h) && h.n <= LOG_MAX
  {
    set i | 0 <= i < h.n :: h.nos[i]
  }

  /** What the users of the cache may do. A write stays within the operation's own budget of
      distinct blocks, and touches no block of the log. */
  predicate Enabled(log: nat, s: State, a: Action) {
    match a
    case Begin(o) => o !in s.ops && s.store.phase.Quiet? && s.store.header.n + (s.outstanding + 1) * OP_MAX <= LOG_MAX
    case Write(o, b, _) => o in s.ops && s.ops[o].Open? && Home(log, b) && b < Pow256(8) &&
      |s.ops[o].mine + {b}| <= OP_MAX
    case Load(b) => b != log
    case Evict(b) => true
    case EndOp(o) => o in s.ops && s.ops[o].Open?
    case WaitCheck(o) => o in s.ops && s.ops[o].Leaving?
    case Resume(o) => o in s.ops && s.ops[o].Asleep?
    case Commit(o) => o in s.ops && s.ops[o].Committing?
    case Crash(_) => true
  }

  /** Where the code would panic or fail an assertion. */
  predicate Panics(s: State, a: Action)
    requires FullSize(s.store.header) && s.store.header.n <= LOG_MAX
  {
    match a
    case Write(o, b, _) =>
      o in s.ops && s.ops[o].Open? && b !in Entries(s.store.header) &&
        (s.ops[o].rm >= OP_MAX || s.store.header.n >= LOG_MAX)
    case EndOp(o) => !s.store.phase.Quiet?
    case Resume(o) => Sems.ResumeSpec(s.check, o).None?
    case _ => false
  }

  ghost predicate Next(log: nat, s: State, a: Action, s': State)
    requires FullSize(s.store.header) && s.store.header.n <= LOG_MAX && Enabled(log, s, a) && !Panics(s, a)
  {
    var group := |s.store.persisted|;
    match a
    case Begin(o) => s' == s.(ops := s.ops[o := Open(0, {})], outstanding := s.outstanding + 1)
    case Write(o, b, data) =>
      var op := s.ops[o];
      s' == s.(store := LogStore.Write(s.store, b, data),
               ops := s.ops[o := Open(if b in Entries(s.store.header) then op.rm else op.rm + 1, op.mine + {b})])
    case Load(b) => s' == s.(store := LogStore.Load(s.store, b))
    case Evict(b) => s' == s.(store := LogStore.Evict(s.store, b))
    case EndOp(o) =>
      if s.outstanding - 1 > 0 then s' == s.(ops := s.ops[o := Leaving(group)], outstanding := s.outstanding - 1)
      else s' == s.(ops := s.ops[o := Committing], outstanding := s.outstanding - 1, store := LogStore.Start(s.store))
    case WaitCheck(o) =>
      s' == s.(check := Sems.WaitSpec(s.check, o),
               ops := s.ops[o := if s.check.val > 0 then Done(s.ops[o].g, true) else Asleep(s.ops[o].g)])
    case Resume(o) =>
      s' == s.(check := Sems.ResumeSpec(s.check, o).value, ops := s.ops[o := Done(s.ops[o].g, o in s.check.up)])
    case Commit(o) =>
      if s.store.phase.Finish? then
        s' == s.(store := LogStore.Advance(log, s.store), ops := s.ops[o := Done(group, true)],
                 check := Sems.PostAllSpec(s.check))
      else s' == s.(store := LogStore.Advance(log, s.store))
    case Crash(ks) =>
      LogStore.Crash(log, s.store, ks, s'.store) && s' == State(s'.store, Returned(s.ops), 0, Sems.Sem(0, [], {}))
  }

  /** A crash ends every operation; those that had not returned never do. */
  function Returned(ops: Ops): Ops {
    map o | o in ops :: if ops[o].Done? then ops[o] else Done(0, false)
  }

  // ----- counting

  ghost function SumOver(keys: set<nat>, ops: Ops, w: OpState -> nat): nat
    requires keys <= ops.Keys
    decreases |keys|
  {
    if keys == {} then 0 else var o :| o in keys; w(ops[o]) + SumOver(keys - {o}, ops, w)
  }

  ghost function Sum(ops: Ops, w: OpState -> nat): nat {
    SumOver(ops.Keys, ops, w)
  }

  lemma {:induction false} SumSplit(keys: set<nat>, ops: Ops, w: OpState -> nat, o: nat)
    requires keys <= ops.Keys && o in keys
    ensures SumOver(keys, ops, w) == w(ops[o]) + SumOver(keys - {o}, ops, w)
    decreases |keys|
  {
    var p :| p in keys && SumOver(keys, ops, w) == w(ops[p]) + SumOver(keys - {p}, ops, w);
    if p != o {
      SumSplit(keys - {p}, ops, w, o);
      SumSplit(keys - {o}, ops, w, p);
      assert keys - {p} - {o} == keys - {o} - {p};
    }
  }

  lemma {:induction false} SumSame(keys: set<nat>, ops: Ops, ops': Ops, w: OpState -> nat)
    requires keys <= ops.Keys && keys <= ops'.Keys && forall o :: o in keys ==> ops[o] == ops'[o]
    ensures SumOver(keys, ops, w) == SumOver(keys, ops', w)
    decreases |keys|
  {
    if keys != {} {
      var o :| o in keys;
      SumSplit(keys, ops, w, o);
      SumSplit(keys, ops', w, o);
      SumSame(keys - {o}, ops, ops', w);
    }
  }

  lemma {:induction false} SumUpdate(ops: Ops, w: OpState -> nat, o: nat, x: OpState)
    ensures Sum(ops[o := x], w) == Sum(ops, w) + w(x) - if o in ops then w(ops[o]) else 0
  {
    var ops' := ops[o := x];
    var rest := ops.Keys - {o};
    SumSplit(ops'.Keys, ops', w, o);
    assert ops'.Keys - {o} == rest;
    SumSame(rest, ops, ops', w);
    if o in ops { SumSplit(ops.Keys, ops, w, o); } else { assert rest == ops.Keys; }
  }

  function One(x: OpState): nat { if x.Open? then 1 else 0 }

  /** The log entries an open operation may still ask for. */
  function Credit(x: OpState): nat { if x.Open? && x.rm <= OP_MAX then OP_MAX - x.rm else 0 }

  lemma {:induction false} CreditBound(keys: set<nat>, ops: Ops)
    requires keys <= ops.Keys
    ensures SumOver(keys, ops, Credit) <= OP_MAX * SumOver(keys, ops, One)
    decreases |keys|
  {
    if keys != {} {
      var o :| o in keys;
      SumSplit(keys, ops, Credit, o);
      SumSplit(keys, ops, One, o);
      CreditBound(keys - {o}, ops);
    }
  }

  /** With no open operation there is nothing to count. */
  lemma {:induction false} SumNone(keys: set<nat>, ops: Ops)
    requires keys <= ops.Keys && forall o :: o in keys ==> !ops[o].Open?
    ensures SumOver(keys, ops, One) == 0 && SumOver(keys, ops, Credit) == 0
    decreases |keys|
  {
    if keys != {} {
      var o :| o in keys;
      SumSplit(keys, ops, Credit, o);
      SumSplit(keys, ops, One, o);
      SumNone(keys - {o}, ops);
    }
  }

  // ----- what every action keeps

  /** The log has room for all that the open operations may still write, and nothing is open
      during a commit. */
  ghost predicate Admitted(ops: Ops, outstanding: int, n: nat, quiet: bool) {
    && outstanding == Sum(ops, One)
    && (quiet ==> n + Sum(ops, Credit) <= LOG_MAX)
    && (!quiet ==> forall o :: o in ops ==> !ops[o].Open?)
  }

  ghost predicate OpOk(x: OpState, logged: set<nat>, done: nat) {
    match x
    case Open(rm, mine) => rm <= |mine| <= OP_MAX && mine <= logged
    case Leaving(g) => g <= done
    case Asleep(g) => g <= done
    case Committing => true
    case Done(g, ok) => ok ==> g < done
  }

  /** The sleepers of `log.check`; nobody has left a token there, and whoever has been woken
      belongs to a commit that has ended. */
  ghost predicate Waiters(ops: Ops, check: Sems.Sem, done: nat) {
    && Sems.Balanced(check) && check.val <= 0
    && (forall o :: o in ops && ops[o].Asleep? <==> !Sems.Free(check, o))
    && (forall o :: o in check.up ==> o in ops && ops[o].Asleep? && ops[o].g < done)
  }

  ghost predicate OneCommitter(ops: Ops, quiet: bool) {
    && (quiet ==> forall o :: o in ops ==> !ops[o].Committing?)
    && (forall o, p :: o in ops && p in ops && ops[o].Committing? && ops[p].Committing? ==> o == p)
  }

  /** What the operations depend on: the blocks in the header, whether a commit is going on,
      and how many commits have ended. */
  datatype Books = Books(ops: Ops, outstanding: int, check: Sems.Sem, logged: set<nat>, n: nat, quiet: bool, done: nat)

  ghost function BooksOf(s: State): Books
    requires FullSize(s.store.header) && s.store.header.n <= LOG_MAX
  {
    Books(s.ops, s.outstanding, s.check, Entries(s.store.header), s.store.header.n, s.store.phase.Quiet?,
          |s.store.persisted|)
  }

  ghost predicate InOrder(v: Books) {
    && Admitted(v.ops, v.outstanding, v.n, v.quiet)
    && (forall o :: o in v.ops ==> OpOk(v.ops[o], v.logged, v.done))
    && Waiters(v.ops, v.check, v.done)
    && OneCommitter(v.ops, v.quiet)
  }

  ghost predicate Inv(log: nat, s: State) {
    LogStore.Inv(log, s.store) && InOrder(BooksOf(s))
  }

  lemma {:induction false} OpenMeansQuiet(v: Books, o: nat)
    requires InOrder(v) && o in v.ops && v.ops[o].Open?
    ensures v.quiet && v.outstanding >= 1 && v.n + OP_MAX - v.ops[o].rm <= LOG_MAX && OpOk(v.ops[o], v.logged, v.done)
  {
    SumSplit(v.ops.Keys, v.ops, One, o);
    SumSplit(v.ops.Keys, v.ops, Credit, o);
  }

  /** An operation within its budget never finds the log full, nobody ends an operation during
      a commit, and the semaphore's assertion holds. */
  lemma {:induction false} NoPanic(log: nat, s: State, a: Action)
    requires FullSize(s.store.header) && s.store.header.n <= LOG_MAX && InOrder(BooksOf(s)) && Enabled(log, s, a)
    ensures !Panics(s, a)
  {
    match a
    case Write(o, b, _) =>
      OpenMeansQuiet(BooksOf(s), o);
      Grow(s.ops[o].mine, b);
    case EndOp(o) => OpenMeansQuiet(BooksOf(s), o);
    case Resume(o) => Sems.ResumeKeeps(s.check, o);
    case _ =>
  }

  lemma {:induction false} BeginBooks(v: Books, o: nat)
    requires InOrder(v) && v.quiet && o !in v.ops && v.n + (v.outstanding + 1) * OP_MAX <= LOG_MAX
    ensures InOrder(v.(ops := v.ops[o := Open(0, {})], outstanding := v.outstanding + 1))
  {
    SumUpdate(v.ops, One, o, Open(0, {}));
    SumUpdate(v.ops, Credit, o, Open(0, {}));
    CreditBound(v.ops.Keys, v.ops);
  }

  lemma {:induction false} Grow(s: set<nat>, b: nat)
    ensures |s + {b}| == |s| + if b in s then 0 else 1
  {
    if b in s { assert s + {b} == s; }
  }

  function Wrote(v: Books, o: nat, b: nat): Books
    requires o in v.ops && v.ops[o].Open?
  {
    var grown := if b in v.logged then 0 else 1;
    v.(ops := v.ops[o := Open(v.ops[o].rm + grown, v.ops[o].mine + {b})], logged := v.logged + {b}, n := v.n + grown)
  }

  lemma {:induction false} WriteBooks(v: Books, o: nat, b: nat)
    requires InOrder(v) && o in v.ops && v.ops[o].Open? && |v.ops[o].mine + {b}| <= OP_MAX
    ensures InOrder(Wrote(v, o, b))
  {
    var x := Wrote(v, o, b).ops[o];
    OpenMeansQuiet(v, o);
    Grow(v.ops[o].mine, b);
    SumUpdate(v.ops, One, o, x);
    SumUpdate(v.ops, Credit, o, x);
    forall p | p in v.ops && p != o ensures OpOk(v.ops[p], v.logged + {b}, v.done) {
      assert OpOk(v.ops[p], v.logged, v.done);
    }
  }

  /** Leaving an operation, as anything but the last. */
  lemma {:induction false} LeaveBooks(v: Books, o: nat)
    requires InOrder(v) && o in v.ops && v.ops[o].Open?
    ensures InOrder(v.(ops := v.ops[o := Leaving(v.done)], outstanding := v.outstanding - 1))
  {
    OpenMeansQuiet(v, o);
    SumUpdate(v.ops, One, o, Leaving(v.done));
    SumUpdate(v.ops, Credit, o, Leaving(v.done));
  }

  lemma {:induction false} LastBooks(v: Books, o: nat)
    requires InOrder(v) && o in v.ops && v.ops[o].Open? && v.outstanding == 1
    ensures InOrder(v.(ops := v.ops[o := Committing], outstanding := 0, quiet := false))
  {
    var ops' := v.ops[o := Committing];
    OpenMeansQuiet(v, o);
    SumUpdate(v.ops, One, o, Committing);
    forall p | p in ops' ensures !ops'[p].Open? {
      if ops'[p].Open? { SumSplit(ops'.Keys, ops', One, p); }
    }
  }

  lemma {:induction false} WaitBooks(v: Books, o: nat)
    requires InOrder(v) && o in v.ops && v.ops[o].Leaving?
    ensures v.check.val <= 0 && InOrder(v.(ops := v.ops[o := Asleep(v.ops[o].g)], check := Sems.WaitSpec(v.check, o)))
  {
    SumUpdate(v.ops, One, o, Asleep(v.ops[o].g));
    SumUpdate(v.ops, Credit, o, Asleep(v.ops[o].g));
    assert OpOk(v.ops[o], v.logged, v.done);
  }

  lemma {:induction false} ResumeBooks(v: Books, o: nat)
    requires InOrder(v) && o in v.ops && v.ops[o].Asleep?
    ensures Sems.ResumeSpec(v.check, o).Some?
    ensures InOrder(v.(ops := v.ops[o := Done(v.ops[o].g, o in v.check.up)],
                       check := Sems.ResumeSpec(v.check, o).value))
  {
    Sems.ResumeKeeps(v.check, o);
    SumUpdate(v.ops, One, o, Done(v.ops[o].g, o in v.check.up));
    SumUpdate(v.ops, Credit, o, Done(v.ops[o].g, o in v.check.up));
    assert OpOk(v.ops[o], v.logged, v.done);
  }

  /** The end of a commit: whoever waits belongs to it or to an earlier one. */
  lemma {:induction false} FinishBooks(v: Books, o: nat)
    requires InOrder(v) && !v.quiet && o in v.ops && v.ops[o].Committing? && v.n == 0
    ensures InOrder(v.(ops := v.ops[o := Done(v.done, true)], check := Sems.PostAllSpec(v.check), quiet := true,
                       done := v.done + 1))
  {
    var ops' := v.ops[o := Done(v.done, true)];
    SumNone(v.ops.Keys, v.ops);
    SumNone(ops'.Keys, ops');
    forall p | p in ops' ensures OpOk(ops'[p], v.logged, v.done + 1) {
      if p != o { assert OpOk(v.ops[p], v.logged, v.done); }
    }
    forall p | p in v.check.sleep || p in v.check.up ensures p in v.ops && v.ops[p].Asleep? && v.ops[p].g < v.done + 1 {
      assert !Sems.Free(v.check, p);
      assert OpOk(v.ops[p], v.logged, v.done);
    }
  }

  /** During a commit, the books depend on the header only through what nobody needs. */
  lemma {:induction false} CommitBooks(v: Books, logged: set<nat>, n: nat)
    requires InOrder(v) && !v.quiet
    ensures InOrder(v.(logged := logged, n := n))
  {
    forall p | p in v.ops ensures OpOk(v.ops[p], logged, v.done) {
      assert OpOk(v.ops[p], v.logged, v.done);
    }
  }

  lemma {:induction false} CrashBooks(v: Books, v': Books)
    requires InOrder(v) && v.done <= v'.done && v'.n == 0 && v'.quiet
    requires v'.ops == Returned(v.ops) && v'.outstanding == 0 && v'.check == Sems.Sem(0, [], {})
    ensures InOrder(v')
  {
    SumNone(v'.ops.Keys, v'.ops);
    forall p | p in v'.ops ensures OpOk(v'.ops[p], v'.logged, v'.done) {
      assert OpOk(v.ops[p], v.logged, v.done);
    }
  }

  // ----- every action keeps the invariant

  lemma {:induction false} EntriesFound(h: Header, b: nat)
    requires FullSize(h) && h.n <= LOG_MAX
    ensures b in Entries(h) <==> Find(h, b, 0) < h.n
  {
    if b in Entries(h) {
      var i :| 0 <= i < h.n && h.nos[i] == b;
      assert !(i < Find(h, b, 0));
    }
  }

  lemma {:induction false} EntriesAppended(h: Header, b: nat)
    requires FullSize(h) && h.n < LOG_MAX
    ensures Entries(LogStore.Append(h, b)) == Entries(h) + {b}
  {
    var h' := LogStore.Append(h, b);
    forall x | x in Entries(h) ensures x in Entries(h') {
      var i :| 0 <= i < h.n && h.nos[i] == x;
      assert h'.nos[i] == x;
    }
    assert h'.nos[h.n] == b;
  }

  /** The header after `cache_sync` of block `b`. */
  function Relogged(h: Header, b: nat): (h': Header)
    requires FullSize(h) && h.n <= LOG_MAX && (h.n < LOG_MAX || Find(h, b, 0) < h.n)
    ensures FullSize(h') && h'.n <= LOG_MAX
  {
    if Find(h, b, 0) < h.n then h else LogStore.Append(h, b)
  }

  lemma {:induction false} ReloggedEntries(h: Header, b: nat)
    requires FullSize(h) && h.n <= LOG_MAX && (h.n < LOG_MAX || Find(h, b, 0) < h.n)
    ensures Entries(Relogged(h, b)) == Entries(h) + {b}
    ensures Relogged(h, b).n == if b !in Entries(h) then h.n + 1 else h.n
  {
    EntriesFound(h, b);
    if b in Entries(h) {
      assert Entries(h) + {b} == Entries(h);
    } else {
      EntriesAppended(h, b);
    }
  }

  /** The books after a write that does not panic. */
  lemma {:induction false} WriteStepBooks(log: nat, s: State, o: nat, b: nat, data: Block, s': State)
    requires FullSize(s.store.header) && s.store.header.n <= LOG_MAX
    requires Enabled(log, s, Write(o, b, data)) && !Panics(s, Write(o, b, data)) && Next(log, s, Write(o, b, data), s')
    ensures s'.store.header.n <= LOG_MAX && FullSize(s'.store.header) && BooksOf(s') == Wrote(BooksOf(s), o, b)
  {
    EntriesFound(s.store.header, b);
    ReloggedEntries(s.store.header, b);
    assert s'.store.header == Relogged(s.store.header, b);
  }

  lemma {:induction false} WriteStep(log: nat, s: State, o: nat, b: nat, data: Block, s': State)
    requires Inv(log, s) && Enabled(log, s, Write(o, b, data)) && !Panics(s, Write(o, b, data))
    requires Next(log, s, Write(o, b, data), s')
    ensures Inv(log, s')
  {
    EntriesFound(s.store.header, b);
    OpenMeansQuiet(BooksOf(s), o);
    LogStore.WriteKeeps(log, s.store, b, data);
    WriteStepBooks(log, s, o, b, data, s');
    WriteBooks(BooksOf(s), o, b);
  }

  lemma {:induction false} EndStep(log: nat, s: State, o: nat, s': State)
    requires Inv(log, s) && Enabled(log, s, EndOp(o)) && !Panics(s, EndOp(o)) && Next(log, s, EndOp(o), s')
    ensures Inv(log, s')
  {
    OpenMeansQuiet(BooksOf(s), o);
    if s.outstanding - 1 > 0 {
      LeaveBooks(BooksOf(s), o);
    } else {
      LastBooks(BooksOf(s), o);
    }
  }

  lemma {:induction false} CommitStep(log: nat, s: State, o: nat, s': State)
    requires Inv(log, s) && Enabled(log, s, Commit(o)) && Next(log, s, Commit(o), s')
    ensures Inv(log, s')
  {
    hide InOrder, LogStore.Inv;
    Proceeds(log, s.store);
    CommitterBusy(BooksOf(s), o);
    if s.store.phase.Finish? {
      FinishBooks(BooksOf(s), o);
    } else {
      CommitBooks(BooksOf(s), Entries(s'.store.header), s'.store.header.n);
    }
  }

  lemma {:induction false} CommitterBusy(v: Books, o: nat)
    requires InOrder(v) && o in v.ops && v.ops[o].Committing?
    ensures !v.quiet
  {
  }

  lemma {:induction false} Proceeds(log: nat, s: LogStore.Store)
    requires LogStore.Inv(log, s)
    ensures FullSize(s.header) && s.header.n <= LOG_MAX && (s.phase.Finish? ==> s.header.n == 0)
    ensures LogStore.Inv(log, LogStore.Advance(log, s))
    ensures var r := LogStore.Advance(log, s); FullSize(r.header) && r.header.n <= LOG_MAX
  {
    LogStore.AdvanceKeeps(log, s);
  }

  lemma {:induction false} CrashStep(log: nat, s: State, ks: seq<nat>, s': State)
    requires Inv(log, s) && Next(log, s, Crash(ks), s')
    ensures Inv(log, s') && Installed(log, s'.store.disk, s.store.base) && s'.store.view == s.store.base
  {
    LogStore.CrashKeeps(log, s.store, ks, s'.store);
    CrashBooks(BooksOf(s), BooksOf(s'));
  }

  lemma {:induction false} StepKeeps(log: nat, s: State, a: Action, s': State)
    requires Inv(log, s) && Enabled(log, s, a) && !Panics(s, a) && Next(log, s, a, s')
    ensures Inv(log, s')
  {
    hide InOrder, Proper, Wide, LogStore.Transparent, LogStore.OnTrack, LogStore.Remembered, LogStore.Crash,
      LogStore.Advance;
    match a
    case Begin(o) => BeginBooks(BooksOf(s), o);
    case Write(o, b, data) => WriteStep(log, s, o, b, data, s');
    case Load(b) => LogStore.LoadKeeps(log, s.store, b);
    case Evict(b) => LogStore.EvictKeeps(log, s.store, b);
    case EndOp(o) => EndStep(log, s, o, s');
    case WaitCheck(o) => WaitBooks(BooksOf(s), o);
    case Resume(o) => ResumeBooks(BooksOf(s), o);
    case Commit(o) => CommitStep(log, s, o, s');
    case Crash(ks) => CrashStep(log, s, ks, s');
  }

  // ----- who commits, and who is woken

  /** The operation that ends last commits, and no other. */
  lemma {:induction false} LastCommits(log: nat, s: State, o: nat, s': State)
    requires Inv(log, s) && Step(log, s, EndOp(o), s')
    ensures s'.ops[o].Committing? <==> forall p :: p in s.ops && s.ops[p].Open? ==> p == o
    ensures !s'.ops[o].Committing? ==> s'.ops[o] == Leaving(|s.store.persisted|) && s'.store == s.store
  {
    hide LogStore.Inv, LogStore.Start;
    var ops := s.ops;
    SumSplit(ops.Keys, ops, One, o);
    if p :| p in ops && ops[p].Open? && p != o {
      SumSplit(ops.Keys - {o}, ops, One, p);
    } else {
      var rest := ops - {o};
      SumSame(ops.Keys - {o}, ops, rest, One);
      SumNone(ops.Keys - {o}, ops);
    }
  }

  /** The end of a commit wakes everybody who is asleep. Whoever is on the way to sleep then, though its commit has
      ended, goes to sleep all the same. */
  lemma {:induction false} CommitWakes(log: nat, s: State, o: nat, s': State, p: nat)
    requires Inv(log, s) && Step(log, s, Commit(o), s') && s.store.phase.Finish? && p in s.ops && p != o
    ensures s'.ops[o] == Done(|s.store.persisted|, true) && s'.ops[p] == s.ops[p]
    ensures s.ops[p].Asleep? ==> p in s'.check.up
    ensures s.ops[p].Leaving? ==> forall s'' :: Step(log, s', WaitCheck(p), s'') ==>
              s''.ops[p] == Asleep(s.ops[p].g) && p !in s''.check.up && s.ops[p].g < |s''.store.persisted|
  {
    hide LogStore.Inv;
    assert InOrder(BooksOf(s)) && OpOk(s.ops[p], Entries(s.store.header), |s.store.persisted|);
    assert s.ops[p].Asleep? <==> !Sems.Free(s.check, p);
  }

  // ----- runs

  /** A file system that has just been recovered. */
  ghost predicate Initial(log: nat, s: State) {
    && FullSize(s.store.header) && s.store.header.n == 0 && Wide(s.store.header.nos)
    && Installed(log, s.store.disk, s.store.view) && s.store.base == s.store.view
    && s.store.cache == map[] && s.store.phase == LogStore.Quiet && s.store.hist == [] && s.store.persisted == []
    && s.ops == map[] && s.outstanding == 0 && s.check == Sems.Sem(0, [], {})
  }

  lemma {:induction false} InitialInv(log: nat, s: State)
    requires Initial(log, s)
    ensures Inv(log, s)
  {
    LogStore.BootedInv(log, s.store, s.store.disk, s.store.header);
    SumNone({}, s.ops);
  }

  ghost predicate Step(log: nat, s: State, a: Action, s': State) {
    && FullSize(s.store.header) && s.store.header.n <= LOG_MAX
    && Enabled(log, s, a) && !Panics(s, a) && Next(log, s, a, s')
  }
}
