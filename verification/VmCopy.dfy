/**
`vm_copy` of `src/kernel/pt.c`: a second address space with the same pages, in new frames with
equal contents.
*/
module VmCopy {
  import opened Basics
  import opened Bits
  import opened Pages
  import opened PageTable

  type Refs = map<nat, int>

  // ----- how far the copy is

  /** The assertions on a page entry: `PTE_USER`, and some bit of `PTE_NORMAL`. */
  predicate UserPage(e: nat) {
    Bit(e, 6) && (Bit(e, 2) || Bit(e, 9) || Bit(e, 10))
  }

  /** The page at `p` is in both address spaces, with equal contents. `home` has the new frame. */
  ghost predicate PageCopied(tables: Tables, from: map<Path, nat>, to: map<Path, nat>, frames0: Frames,
                             frames: Frames, home: map<nat, Path>, p: Path)
    requires |p| == 4
  {
    var e, e' := Lookup(tables, from, p), Lookup(tables, to, p);
    && IsValid(e) && UserPage(e) && IsValid(e') && e' == Entry(PageOf(e'), USER_DATA)
    && PageOf(e) in frames0 && PageOf(e') in frames && frames[PageOf(e')] == frames0[PageOf(e)]
    && PageOf(e') in home && home[PageOf(e')] == p
  }

  /** The new address space has exactly the pages `done`, and they are copies. */
  ghost predicate Copies(tables: Tables, from: map<Path, nat>, to: map<Path, nat>, frames0: Frames, frames: Frames,
                         home: map<nat, Path>, done: set<Path>) {
    forall p {:trigger p in done} {:trigger Lookup(tables, to, p)} :: |p| == 4 ==>
      if p in done then PageCopied(tables, from, to, frames0, frames, home, p) else !IsValid(Lookup(tables, to, p))
  }

  /** References that were there stay; what is new was free. */
  ghost predicate RefsGrow(ref0: Refs, ref: Refs, home: map<nat, Path>, role: map<nat, Path>) {
    && (forall x :: x in ref0 && ref0[x] > 0 ==> x in ref && ref[x] == ref0[x])
    && (forall x :: x in home ==> x in ref0 && ref0[x] == 0 && x in ref && ref[x] == 1 && x !in role)
  }

  /** The frames that were in use keep their contents. */
  ghost predicate FramesKept(ref0: Refs, frames0: Frames, frames: Frames) {
    forall x :: x in frames0 && x in ref0 && ref0[x] > 0 ==> x in frames && frames[x] == frames0[x]
  }

  /** The pages of the old address space are in use. */
  ghost predicate Backed(ref0: Refs, frames0: Frames, tables: Tables, from: map<Path, nat>) {
    forall p {:trigger Lookup(tables, from, p)} :: |p| == 4 && IsValid(Lookup(tables, from, p)) ==>
      var x := PageOf(Lookup(tables, from, p)); x in frames0 && x in ref0 && ref0[x] > 0
  }

  datatype Old = Old(ref: Refs, frames: Frames, tables: Tables, at: map<Path, nat>, role: map<nat, Path>)

  datatype Now = Now(ref: Refs, frames: Frames, tables: Tables, pt: nat, at: map<Path, nat>, role: map<nat, Path>)

  ghost predicate Copying(o: Old, n: Now, home: map<nat, Path>, done: set<Path>) {
    && Tree(n.tables, o.at, o.role) && Held(o.ref, o.role) && SpaceOk(n.ref, n.tables, n.pt, n.at, n.role)
    && (forall x :: x in o.ref ==> o.ref[x] >= 0) && n.ref.Keys == o.ref.Keys
    && (forall x :: x in n.role ==> x !in o.role) && SameEntries(o.tables, n.tables, o.at, o.at)
    && Backed(o.ref, o.frames, n.tables, o.at) && FramesKept(o.ref, o.frames, n.frames) &&
         RefsGrow(o.ref, n.ref, home, n.role)
    && n.pt != 0 && Copies(n.tables, o.at, n.at, o.frames, n.frames, home, done)
  }

  /** Frame `x` is new and not entered yet. */
  ghost predicate Pending(o: Old, n: Now, home: map<nat, Path>, x: nat) {
    && x in n.ref && n.ref[x] == 1 && x in o.ref && o.ref[x] == 0 && 0 < x < 0x10_0000_0000
    && x in n.frames && x !in home && x !in n.role
  }

  /** A free page becomes a frame. */
  lemma {:induction false} FrameAdded(o: Old, n: Now, home: map<nat, Path>, done: set<Path>, x: nat, content: seq<nat>)
    requires Copying(o, n, home, done) && x in n.ref && n.ref[x] == 0 && 0 < x < 0x10_0000_0000
    ensures var n' := n.(ref := n.ref[x := 1], frames := n.frames[x := content]);
            Copying(o, n', home, done) && Pending(o, n', home, x)
  {
    assert n.ref[x := 1].Keys == n.ref.Keys;
    var frames' := n.frames[x := content];
    forall p | |p| == 4 && p in done ensures PageCopied(n.tables, o.at, n.at, o.frames, frames', home, p) {
      assert PageCopied(n.tables, o.at, n.at, o.frames, n.frames, home, p);
    }
    forall p | |p| == 4 && p !in done ensures !IsValid(Lookup(n.tables, n.at, p)) { }
  }

  /** The old address space does not notice what happens to other pages. */
  lemma {:induction false} OldKept(o: Old, tables: Tables, tables': Tables)
    requires Tree(tables, o.at, o.role) && Backed(o.ref, o.frames, tables, o.at)
    requires forall x :: x in o.role ==> x in tables' && (x in tables ==> tables'[x] == tables[x])
    ensures Tree(tables', o.at, o.role) && Backed(o.ref, o.frames, tables', o.at)
    ensures SameEntries(tables, tables', o.at, o.at)
  {
    TreeKept(tables, tables', o.at, o.role);
  }

  lemma {:induction false} SameCopies(tables: Tables, tables': Tables, from: map<Path, nat>, to: map<Path, nat>,
                                      to': map<Path, nat>,
                                      frames0: Frames, frames: Frames, home: map<nat, Path>, done: set<Path>)
    requires Copies(tables, from, to, frames0, frames, home, done) && SameEntries(tables, tables', to, to')
    requires SameEntries(tables, tables', from, from)
    ensures Copies(tables', from, to', frames0, frames, home, done)
  {
    forall p | |p| == 4
      ensures if p in done then PageCopied(tables', from, to', frames0, frames, home, p)
          else !IsValid(Lookup(tables', to', p)) {
      assert Lookup(tables', to', p) == Lookup(tables, to, p) && Lookup(tables', from, p) == Lookup(tables, from, p);
      if p in done { assert PageCopied(tables, from, to, frames0, frames, home, p); }
    }
  }

  lemma {:induction false} OldTables(o: Old, n: Now, home: map<nat, Path>, done: set<Path>, x: nat)
    requires Copying(o, n, home, done) && x in o.role
    ensures x in n.tables && x in n.ref && n.ref[x] == 1 && x !in n.role
  {
    assert Node(n.tables, o.at, o.role, o.role[x]);
  }

  /** The new address space gets tables. */
  lemma {:induction false} TablesGrown(o: Old, n: Now, home: map<nat, Path>, done: set<Path>, n': Now, x: nat)
    requires Copying(o, n, home, done) && n'.frames == n.frames && SpaceOk(n'.ref, n'.tables, n'.pt, n'.at, n'.role)
    requires Grown(n.ref, n'.ref, n.tables, n'.tables, n.at, n'.at, n.role, n'.role)
    requires Pending(o, n, home, x) && n'.ref.Keys == n.ref.Keys
    ensures Copying(o, n', home, done) && Pending(o, n', home, x)
  {
    forall y | y in o.role ensures y in n.tables && y in n'.tables && n'.tables[y] == n.tables[y] {
      OldTables(o, n, home, done, y);
    }
    OldKept(o, n.tables, n'.tables);
    SameCopies(n.tables, n'.tables, o.at, n.at, n'.at, o.frames, n.frames, home, done);
    forall y | y in n'.role ensures y !in o.role {
      if y in o.role { OldTables(o, n, home, done, y); }
    }
    assert RefsGrow(o.ref, n'.ref, home, n'.role) by {
      forall y | y in o.ref && o.ref[y] > 0 ensures y in n'.ref && n'.ref[y] == o.ref[y] {
        assert n.ref[y] == o.ref[y];
        if y in n.role { assert n.ref[y] == 1 == n'.ref[y]; }
      }
    }
  }

  /** The new address space gets the page at `p`, in frame `x`. */
  lemma {:induction false} PageEntered(o: Old, n: Now, home: map<nat, Path>, done: set<Path>, p: Path, x: nat)
    requires Copying(o, n, home, done) && |p| == 4 && p[..3] in n.at && p[3] < ENTRIES
    requires Pending(o, n, home, x) && IsValid(Lookup(o.tables, o.at, p)) && UserPage(Lookup(o.tables, o.at, p))
    requires var y := PageOf(Lookup(o.tables, o.at, p)); y in o.frames && n.frames[x] == o.frames[y]
    ensures Sized(n.tables, n.at[p[..3]])
    ensures Copying(o, n.(tables := Put(n.tables, n.at[p[..3]], p[3], Entry(x, USER_DATA))), home[x := p], done + {p})
  {
    var t, e := n.at[p[..3]], Entry(x, USER_DATA);
    assert Node(n.tables, n.at, n.role, p[..3]);
    EntryFields(x, USER_DATA);
    EntryWritten(n.tables, n.at, n.role, p, e);
    var tables', home', done' := Put(n.tables, t, p[3], e), home[x := p], done + {p};
    forall y | y in o.role ensures y in n.tables && y in tables' && tables'[y] == n.tables[y] {
      OldTables(o, n, home, done, y);
    }
    OldKept(o, n.tables, tables');
    forall q | |q| == 4
      ensures if q in done' then PageCopied(tables', o.at, n.at, o.frames, n.frames, home', q)
          else !IsValid(Lookup(tables', n.at, q)) {
      assert Lookup(n.tables, o.at, q) == Lookup(o.tables, o.at, q);
      if q != p && q in done { assert PageCopied(n.tables, o.at, n.at, o.frames, n.frames, home, q); }
    }
  }

  // ----- what has been copied

  predicate IsPage(q: Path) {
    |q| == 4 && q[0] < ENTRIES && q[1] < ENTRIES && q[2] < ENTRIES && q[3] < ENTRIES
  }

  /** All valid pages at or below `p` have been copied. */
  ghost predicate All(o: Old, p: Path, done: set<Path>) {
    forall q {:trigger q in done} :: IsPage(q) && AtOrBelow(q, p) && IsValid(Lookup(o.tables, o.at, q)) ==> q in done
  }

  /** All valid pages below the first `i` entries of table `p` have been copied. */
  ghost predicate UpTo(o: Old, p: Path, i: nat, done: set<Path>) {
    forall q {:trigger q in done} :: IsPage(q) && Beneath(q, p, i) && IsValid(Lookup(o.tables, o.at, q)) ==> q in done
  }

  lemma {:induction false} UpToNext(o: Old, p: Path, i: nat, done: set<Path>, done': set<Path>)
    requires UpTo(o, p, i, done) && done <= done' && All(o, p + [i], done')
    ensures UpTo(o, p, i + 1, done')
  {
    forall q | IsPage(q) && Beneath(q, p, i + 1) && IsValid(Lookup(o.tables, o.at, q)) ensures q in done' {
      Beneaths(q, p, i);
      assert Beneath(q, p, i) ==> q in done;
    }
  }

  lemma {:induction false} UpToAll(o: Old, p: Path, done: set<Path>)
    requires UpTo(o, p, ENTRIES, done) && |p| <= 3
    ensures All(o, p, done)
  {
    forall q | IsPage(q) && AtOrBelow(q, p) && IsValid(Lookup(o.tables, o.at, q)) ensures q in done {
      assert q[|p|] == q[0] || q[|p|] == q[1] || q[|p|] == q[2] || q[|p|] == q[3];
      assert Beneath(q, p, ENTRIES);
    }
  }

  /** Where there is no table, there is no page. */
  lemma {:induction false} NothingBelow(o: Old, n: Now, p: Path, i: nat, done: set<Path>)
    requires Tree(n.tables, o.at, o.role) && SameEntries(o.tables, n.tables, o.at, o.at) && |p| < 3 && p + [i] !in o.at
    ensures All(o, p + [i], done)
  {
    forall q | IsPage(q) && AtOrBelow(q, p + [i]) ensures !IsValid(Lookup(o.tables, o.at, q)) {
      assert Lookup(n.tables, o.at, q) == Lookup(o.tables, o.at, q) && q[..3][..|p| + 1] == q[..|p| + 1];
      if q[..3] in o.at { PrefixIn(n.tables, o.at, o.role, q[..3], |p| + 1); }
    }
  }

  /** The last-level entry of a page. */
  lemma {:induction false} LastLevel(o: Old, n: Now, p: Path, i: nat)
    requires Tree(n.tables, o.at, o.role) && SameEntries(o.tables, n.tables, o.at, o.at) && p in o.at && |p| == 3
    requires i < ENTRIES
    ensures Sized(n.tables, o.at[p]) && Lookup(o.tables, o.at, p + [i]) == n.tables[o.at[p]][i]
    ensures forall q :: |q| == 4 && AtOrBelow(q, p + [i]) ==> q == p + [i]
  {
    assert Node(n.tables, o.at, o.role, p);
    assert (p + [i])[..3] == p;
    assert Lookup(n.tables, o.at, p + [i]) == Lookup(o.tables, o.at, p + [i]);
    forall q | |q| == 4 && AtOrBelow(q, p + [i]) ensures q == p + [i] { assert q[..4] == q; }
  }

  lemma {:induction false} PathIndices(o: Old, n: Now, p: Path)
    requires Tree(n.tables, o.at, o.role) && p in o.at
    ensures |p| <= 3 && forall j :: 0 <= j < |p| ==> p[j] < ENTRIES
    decreases |p|
  {
    assert Node(n.tables, o.at, o.role, p);
    if p != [] {
      PathIndices(o, n, p[..|p| - 1]);
      assert p == p[..|p| - 1] + [p[|p| - 1]];
    }
  }

  // ----- the code

  /** Where `vm_copy` stops: no page is free, or some page fails an assertion. */
  ghost predicate Refused(o: Old, stack: seq<nat>) {
    stack == [] || exists p :: IsPage(p) && IsValid(Lookup(o.tables, o.at, p)) && !UserPage(Lookup(o.tables, o.at, p))
  }

  ghost function NowOf(d: Pgdir): Now
    reads d, d.m, d.m.pages
  {
    Now(d.m.pages.ref, d.m.frames, d.m.tables, d.pt, d.at, d.role)
  }

  /** A new frame with the content of the page of `e`. */
  method CopyFrame(d: Pgdir, e: nat, ghost p: Path, ghost o: Old, ghost home: map<nat, Path>, ghost done: set<Path>)
    returns (r: Option<nat>)
    requires d.Valid() && Copying(o, NowOf(d), home, done) && |p| == 4 && e == Lookup(o.tables, o.at, p) && IsValid(e)
    modifies d.m`frames, d.m.pages
    ensures d.Valid() && (r.None? ==> d.m.pages.stack == [])
    ensures r.Some? ==> Copying(o, NowOf(d), home, done) && Pending(o, NowOf(d), home, r.value)
    ensures r.Some? ==> PageOf(e) in o.frames && d.m.frames[r.value] == o.frames[PageOf(e)]
  {
    hide Copies, Tree;
    ghost var n := NowOf(d);
    assert Lookup(n.tables, o.at, p) == e;
    r := d.m.NewFrame();
    if r.Some? {
      FrameAdded(o, n, home, done, r.value, n.frames[PageOf(e)]);
      d.m.frames := d.m.frames[r.value := d.m.frames[PageOf(e)]];
    }
  }

  /** The entry of page `p` in the new address space: frame `x`. */
  method EnterPage(d: Pgdir, p: Path, x: nat, ghost o: Old, ghost home: map<nat, Path>, ghost done: set<Path>)
    returns (ok: bool)
    requires d.Valid() && Copying(o, NowOf(d), home, done) && Pending(o, NowOf(d), home, x) && |p| == 4
    requires (forall i :: 0 <= i < 4 ==> p[i] < ENTRIES)
    requires IsValid(Lookup(o.tables, o.at, p)) && UserPage(Lookup(o.tables, o.at, p))
    requires var y := PageOf(Lookup(o.tables, o.at, p)); y in o.frames && d.m.frames[x] == o.frames[y]
    modifies d, d.m`tables, d.m.pages
    ensures d.Valid() && (ok ==> Copying(o, NowOf(d), home[x := p], done + {p})) && (!ok ==> d.m.pages.stack == [])
  {
    hide Copies, Tree, Grown, SameEntries, Backed, FramesKept, RefsGrow, Held;
    ghost var n := NowOf(d);
    PartsOfAddress(p);
    var r := d.GetPte(Address(p), true);
    ok := r.Slot?;
    if ok {
      TablesGrown(o, n, home, done, NowOf(d), x);
      PageEntered(o, NowOf(d), home, done, p, x);
      d.m.tables := Put(d.m.tables, r.table, r.index, Entry(x, USER_DATA));
    }
  }

  /** One entry of the last level. */
  method CopyPage(d: Pgdir, t: nat, i: nat, p: Path, ghost o: Old, ghost home: map<nat, Path>, ghost done: set<Path>)
    returns (ok: bool, ghost home': map<nat, Path>, ghost done': set<Path>)
    requires d.Valid() && Copying(o, NowOf(d), home, done) && p in o.at && o.at[p] == t && |p| == 3 && i < ENTRIES
    modifies d, d.m`tables, d.m`frames, d.m.pages
    ensures d.Valid() && (ok ==> Copying(o, NowOf(d), home', done') && done <= done' && All(o, p + [i], done'))
    ensures !ok ==> Refused(o, d.m.pages.stack)
  {
    ok, home', done' := true, home, done;
    LastLevel(o, NowOf(d), p, i);
    PathIndices(o, NowOf(d), p);
    var e := d.m.tables[t][i];
    if IsValid(e) {
      if !UserPage(e) {
        assert IsPage(p + [i]) && Lookup(o.tables, o.at, p + [i]) == e;
        ok := false;
        return;
      }
      var x := CopyFrame(d, e, p + [i], o, home, done);
      if x.None? {
        ok := false;
        return;
      }
      ok := EnterPage(d, p + [i], x.value, o, home, done);
      home', done' := home[x.value := p + [i]], done + {p + [i]};
    }
  }

  /** One round of a loop: an entry of the table at `p`, which is page `t`. */
  method CopyEntry(d: Pgdir, t: nat, i: nat, p: Path, ghost o: Old, ghost home: map<nat, Path>, ghost done: set<Path>)
    returns (ok: bool, ghost home': map<nat, Path>, ghost done': set<Path>)
    requires d.Valid() && Copying(o, NowOf(d), home, done) && p in o.at && o.at[p] == t && |p| <= 3 && i < ENTRIES
    modifies d, d.m`tables, d.m`frames, d.m.pages
    ensures d.Valid() && (ok ==> Copying(o, NowOf(d), home', done') && done <= done' && All(o, p + [i], done'))
    ensures !ok ==> Refused(o, d.m.pages.stack)
    decreases 3 - |p|, 0
  {
    if |p| == 3 {
      ok, home', done' := CopyPage(d, t, i, p, o, home, done);
      return;
    }
    assert Node(d.m.tables, o.at, o.role, p) && Link(d.m.tables, o.at, p, i);
    var e := d.m.tables[t][i];
    if IsValid(e) {
      ok, home', done' := CopyTable(d, PageOf(e), p + [i], o, home, done);
    } else {
      NothingBelow(o, NowOf(d), p, i, done);
      ok, home', done' := true, home, done;
    }
  }

  /** The loop over the table at `p`, which is page `t`; one of four that lie in each other. */
  method CopyTable(d: Pgdir, t: nat, p: Path, ghost o: Old, ghost home: map<nat, Path>, ghost done: set<Path>)
    returns (ok: bool, ghost home': map<nat, Path>, ghost done': set<Path>)
    requires d.Valid() && Copying(o, NowOf(d), home, done) && p in o.at && o.at[p] == t && |p| <= 3
    modifies d, d.m`tables, d.m`frames, d.m.pages
    ensures d.Valid() && (ok ==> Copying(o, NowOf(d), home', done') && done <= done' && All(o, p, done'))
    ensures !ok ==> Refused(o, d.m.pages.stack)
    decreases 3 - |p|, 1
  {
    ok, home', done' := true, home, done;
    var i := 0;
    while i < ENTRIES
      invariant i <= ENTRIES && d.Valid() && Copying(o, NowOf(d), home', done') && done <= done' && UpTo(o, p, i, done')
    {
      ghost var done1 := done';
      ok, home', done' := CopyEntry(d, t, i, p, o, home', done');
      if !ok {
        return;
      }
      UpToNext(o, p, i, done1, done');
      i := i + 1;
    }
    UpToAll(o, p, done');
    ok := true;
  }

  /** Before anything has been copied. */
  lemma {:induction false} CopyStarts(o: Old, n: Now)
    requires Tree(o.tables, o.at, o.role) && Held(o.ref, o.role) && (forall x :: x in o.ref ==> o.ref[x] >= 0)
    requires n.ref.Keys == o.ref.Keys
    requires Backed(o.ref, o.frames, o.tables, o.at) && n.frames == o.frames
    requires SpaceOk(n.ref, n.tables, n.pt, n.at, n.role) && n.pt != 0
    requires Grown(o.ref, n.ref, o.tables, n.tables, map[], n.at, map[], n.role)
    ensures Copying(o, n, map[], {})
  {
    forall y | y in o.role ensures y in o.tables && y in n.tables && n.tables[y] == o.tables[y] {
      assert Node(o.tables, o.at, o.role, o.role[y]);
    }
    OldKept(o, o.tables, n.tables);
    forall p | |p| == 4 ensures !IsValid(Lookup(n.tables, n.at, p)) {
      assert Lookup(n.tables, n.at, p) == Lookup(o.tables, map[], p) == 0;
    }
  }

  /** Two address spaces with the same pages: equal contents, and for each page a frame of its own that
      nobody used before. */
  ghost predicate SamePages(o: Old, n: Now, home: map<nat, Path>) {
    forall p {:trigger Lookup(n.tables, n.at, p)} :: IsPage(p) ==>
      var e, e' := Lookup(o.tables, o.at, p), Lookup(n.tables, n.at, p);
      && (IsValid(e') <==> IsValid(e))
      && (IsValid(e) ==> && UserPage(e) && UserPage(e') && IsUserData(e') && e' / PAGE_SIZE == PageOf(e')
                         && PageOf(e) in o.frames && PageOf(e') in n.frames &&
                              n.frames[PageOf(e')] == o.frames[PageOf(e)]
                         && PageOf(e') in o.ref && o.ref[PageOf(e')] == 0 && PageOf(e') in home &&
                              home[PageOf(e')] == p)
  }

  lemma {:induction false} CopyEnds(o: Old, n: Now, home: map<nat, Path>, done: set<Path>)
    requires Copying(o, n, home, done) && All(o, [], done)
    ensures SamePages(o, n, home) && SameEntries(o.tables, n.tables, o.at, o.at)
    ensures FramesKept(o.ref, o.frames, n.frames)
  {
    forall p | IsPage(p)
      ensures var e, e' := Lookup(o.tables, o.at, p), Lookup(n.tables, n.at, p);
              && (IsValid(e') <==> IsValid(e))
              && (IsValid(e) ==> && UserPage(e) && UserPage(e') && IsUserData(e') && e' / PAGE_SIZE == PageOf(e')
                                 && PageOf(e) in o.frames && PageOf(e') in n.frames &&
                                      n.frames[PageOf(e')] == o.frames[PageOf(e)]
                                 && PageOf(e') in o.ref && o.ref[PageOf(e')] == 0 && PageOf(e') in home &&
                                      home[PageOf(e')] == p)
    {
      assert AtOrBelow(p, []) && Lookup(n.tables, o.at, p) == Lookup(o.tables, o.at, p);
      if p in done {
        assert PageCopied(n.tables, o.at, n.at, o.frames, n.frames, home, p);
        Flags(PageOf(Lookup(n.tables, n.at, p)));
      }
    }
  }

  /** Both address spaces can be copied in turn. */
  lemma {:induction false} BothBacked(o: Old, n: Now, home: map<nat, Path>, done: set<Path>)
    requires Copying(o, n, home, done)
    ensures Backed(n.ref, n.frames, n.tables, o.at) && Backed(n.ref, n.frames, n.tables, n.at)
    ensures Tree(n.tables, o.at, o.role) && Held(n.ref, o.role) && n.pt != 0
  {
    forall p | |p| == 4 && IsValid(Lookup(n.tables, n.at, p))
      ensures var x := PageOf(Lookup(n.tables, n.at, p)); x in n.frames && x in n.ref && n.ref[x] > 0
    {
      assert p in done && PageCopied(n.tables, o.at, n.at, o.frames, n.frames, home, p);
    }
  }

  /** Whoever copies a copy only ever fails for lack of pages. */
  lemma {:induction false} CopyOfCopy(o: Old, n: Now, home: map<nat, Path>, frames: Frames, stack: seq<nat>)
    requires SamePages(o, n, home) && Refused(Old(n.ref, frames, n.tables, n.at, n.role), stack)
    ensures stack == []
  {
  }

  /** `vm_copy` */
  method Copy(src: Pgdir) returns (ok: bool, d: Pgdir, ghost home: map<nat, Path>)
    requires src.Valid() && src.pt != 0 && Backed(src.m.pages.ref, src.m.frames, src.m.tables, src.at)
    modifies src.m`tables, src.m`frames, src.m.pages
    ensures fresh(d) && d.m == src.m && d.Valid()
    ensures ok ==> src.Valid() && d.pt != 0
    ensures ok ==> Backed(src.m.pages.ref, src.m.frames, src.m.tables, src.at)
    ensures ok ==> Backed(src.m.pages.ref, src.m.frames, src.m.tables, d.at)
    ensures !ok ==>
        Refused(Old(old(src.m.pages.ref), old(src.m.frames), old(src.m.tables), src.at, src.role), src.m.pages.stack)
    ensures ok ==> var o := Old(old(src.m.pages.ref), old(src.m.frames), old(src.m.tables), src.at, src.role);
                   && SamePages(o, NowOf(d), home) && SameEntries(o.tables, src.m.tables, src.at, src.at)
                   && FramesKept(o.ref, o.frames, src.m.frames)
  {
    hide Copying, SamePages, Backed, SameEntries, FramesKept, All;
    ghost var o := Old(src.m.pages.ref, src.m.frames, src.m.tables, src.at, src.role);
    d := new Pgdir(src.m);
    home := map[];
    var r := d.Root(true);
    if !r.Slot? {
      ok := false;
      return;
    }
    CopyStarts(o, NowOf(d));
    ghost var done;
    ok, home, done := CopyTable(d, src.pt, [], o, map[], {});
    if ok {
      CopyEnds(o, NowOf(d), home, done);
      BothBacked(o, NowOf(d), home, done);
    }
  }
}
