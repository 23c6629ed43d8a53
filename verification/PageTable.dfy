/**
The page tables of `src/kernel/pt.c`: four levels of 512 entries each (VMSAv8-64, 4 KB granule,
48-bit addresses), seen as a map from page numbers to entries.
*/
module PageTable {
  import opened Basics
  import opened Bits
  import opened Pages

  const ENTRIES: nat := 512

  /** A virtual page as the four indices of the walk, or the first few of them. */
  type Path = seq<nat>

  /** The table pages, by page number. */
  type Tables = map<nat, seq<nat>>

  // ----- addresses and entries

  /** `VA_PART0` to `VA_PART3` */
  function Parts(va: nat): (p: Path)
    ensures |p| == 4 && forall i :: 0 <= i < 4 ==> p[i] < ENTRIES
  {
    [va / 0x80_0000_0000 % ENTRIES, va / 0x4000_0000 % ENTRIES, va / 0x20_0000 % ENTRIES, va / 0x1000 % ENTRIES]
  }

  lemma {:induction false} Shift(va: nat)
    ensures va / 0x20_0000 == va / 0x1000 / ENTRIES
    ensures va / 0x4000_0000 == va / 0x1000 / ENTRIES / ENTRIES
    ensures va / 0x80_0000_0000 == va / 0x1000 / ENTRIES / ENTRIES / ENTRIES
  {
    var n := va / 0x1000;
    var n1 := n / ENTRIES;
    var n2 := n1 / ENTRIES;
    var n3 := n2 / ENTRIES;
    assert va == 0x20_0000 * n1 + (0x1000 * (n % ENTRIES) + va % 0x1000);
    assert va == 0x4000_0000 * n2 + (0x20_0000 * (n1 % ENTRIES) + 0x1000 * (n % ENTRIES) + va % 0x1000);
    assert va == 0x80_0000_0000 * n3 + (0x4000_0000 * (n2 % ENTRIES) + 0x20_0000 * (n1 % ENTRIES) +
                                        0x1000 * (n % ENTRIES) + va % 0x1000);
  }

  lemma {:induction false} Powers()
    ensures Pow2(9) == 512 && Pow2(12) == 0x1000 && Pow2(36) == 0x10_0000_0000
  {
    assert Pow2(9) == 512;
    assert Pow2(12) == 8 * Pow2(9);
    assert Pow2(21) == 512 * Pow2(12);
    assert Pow2(30) == 512 * Pow2(21);
    assert Pow2(36) == 64 * Pow2(30);
  }

  lemma {:induction false} NineBits(x: nat)
    ensures Shifted(x, 9) == x / ENTRIES && Masked(x, 9) == x % ENTRIES
  {
    hide Pow2, Shifted, Masked;
    Powers();
    Divided(x, 9, 512);
  }

  /** Index `i` of the walk is the nine bits of the address from bit `39 - 9 * i` on. */
  lemma {:induction false} PartsBits(va: nat, i: nat, k: nat)
    requires i < 4
    ensures Bit(Parts(va)[i], k) <==> k < 9 && Bit(va, 39 - 9 * i + k)
  {
    hide Pow2, Shifted, Masked, Bit;
    Powers();
    Shift(va);
    Divided(va, 12, 0x1000);
    var n := va / 0x1000;
    assert n == Shifted(va, 12);
    ShiftedTwice(va, 12, 9);
    ShiftedTwice(va, 21, 9);
    ShiftedTwice(va, 30, 9);
    NineBits(n);
    NineBits(n / ENTRIES);
    NineBits(n / ENTRIES / ENTRIES);
    NineBits(n / ENTRIES / ENTRIES / ENTRIES);
    BitField(va, 39 - 9 * i, 9, k);
  }

  /** Two 48-bit addresses have the same indices exactly if they are in the same page. */
  lemma {:induction false} SamePage(va: nat, vb: nat)
    requires va < 0x1_0000_0000_0000 && vb < 0x1_0000_0000_0000
    ensures Parts(va) == Parts(vb) <==> va / PAGE_SIZE == vb / PAGE_SIZE
  {
    Shift(va);
    Shift(vb);
    PageNumber(va);
    PageNumber(vb);
    var p, q := Parts(va), Parts(vb);
    assert Parts(va) == Parts(vb) <==> p[0] == q[0] && p[1] == q[1] && p[2] == q[2] && p[3] == q[3];
  }

  lemma {:induction false} PageNumber(va: nat)
    requires va < 0x1_0000_0000_0000
    ensures va / PAGE_SIZE == ((Parts(va)[0] * ENTRIES + Parts(va)[1]) * ENTRIES + Parts(va)[2]) * ENTRIES +
        Parts(va)[3]
  {
    Shift(va);
  }

  /** The address that `vm_copy` puts together from four indices. */
  function Address(p: Path): nat
    requires |p| == 4
  {
    (((p[0] * ENTRIES + p[1]) * ENTRIES + p[2]) * ENTRIES + p[3]) * PAGE_SIZE
  }

  lemma {:induction false} PartsOfAddress(p: Path)
    requires |p| == 4 && forall i :: 0 <= i < 4 ==> p[i] < ENTRIES
    ensures Parts(Address(p)) == p
  {
    var n2 := p[0] * ENTRIES + p[1];
    var n1 := n2 * ENTRIES + p[2];
    var n := n1 * ENTRIES + p[3];
    Shift(Address(p));
    assert Address(p) / 0x1000 == n;
    assert n / ENTRIES == n1 && n % ENTRIES == p[3];
    assert n1 / ENTRIES == n2 && n1 % ENTRIES == p[2];
    assert n2 / ENTRIES == p[0] && n2 % ENTRIES == p[1];
  }

  /** `PTE_VALID` */
  predicate IsValid(e: nat) { e % 2 == 1 }

  /** The page of `PTE_ADDRESS`, bits 12 to 47. */
  function PageOf(e: nat): nat { e / PAGE_SIZE % 0x10_0000_0000 }

  /** `K2P(page) | flags` */
  function Entry(page: nat, flags: nat): nat { page * PAGE_SIZE + flags }

  const TABLE: nat := 3
  const USER_DATA: nat := 0x647

  lemma {:induction false} PageOfBits(e: nat, k: nat)
    ensures Bit(PageOf(e), k) <==> k < 36 && Bit(e, 12 + k)
  {
    hide Pow2, Shifted, Masked, Bit;
    Powers();
    Divided(e, 12, 0x1000);
    Divided(Shifted(e, 12), 36, 0x10_0000_0000);
    BitField(e, 12, 36, k);
  }

  /** The sum is the bitwise or. */
  lemma {:induction false} EntryBits(page: nat, flags: nat, k: nat)
    requires flags < PAGE_SIZE
    ensures Bit(Entry(page, flags), k) <==> if k < 12 then Bit(flags, k) else Bit(page, k - 12)
  {
    assert Pow2(12) == PAGE_SIZE;
    BitJoined(page, 12, flags, k);
  }

  /** `PTE_TABLE`: the two lowest bits say that the entry is valid and no block. */
  predicate IsTable(e: nat) { Bit(e, 0) && Bit(e, 1) }

  /** `PTE_PAGE`, normal memory (attribute 1 of three bits from bit 2 on, outer shareable in bits 8 and 9, access
      flag in bit 10), for the user (bit 6) and not read-only (bit 7). */
  predicate IsUserData(e: nat) {
    && Bit(e, 0) && Bit(e, 1)
    && Bit(e, 2) && !Bit(e, 3) && !Bit(e, 4) && !Bit(e, 5)
    && Bit(e, 6) && !Bit(e, 7)
    && !Bit(e, 8) && Bit(e, 9) && Bit(e, 10) && !Bit(e, 11)
  }

  lemma {:induction false} Flags(page: nat)
    ensures IsTable(Entry(page, TABLE)) && IsUserData(Entry(page, USER_DATA))
  {
    assert Bit(3, 0) && Bit(3, 1);
    assert Bit(0x647, 0) && Bit(0x647, 1) && Bit(0x647, 2) && !Bit(0x647, 3) && !Bit(0x647, 4) && !Bit(0x647, 5);
    assert Bit(0x647, 6) && !Bit(0x647, 7) && !Bit(0x647, 8) && Bit(0x647, 9) && Bit(0x647, 10);
    assert Pow2(11) == 0x800;
    BitsBelow(0x647, 11, 11);
    hide Bit;
    forall k | 0 <= k < 12
      ensures Bit(Entry(page, TABLE), k) == Bit(TABLE, k) && Bit(Entry(page, USER_DATA), k) == Bit(USER_DATA, k)
    {
      EntryBits(page, TABLE, k);
      EntryBits(page, USER_DATA, k);
    }
  }

  lemma {:induction false} EntryFields(page: nat, flags: nat)
    requires page < 0x10_0000_0000 && flags < PAGE_SIZE && flags % 2 == 1
    ensures IsValid(Entry(page, flags)) && PageOf(Entry(page, flags)) == page
  {
  }

  // ----- the tables as a tree

  ghost predicate Sized(tables: Tables, page: nat) {
    page in tables && |tables[page]| == ENTRIES
  }

  /** `table[i] = e` */
  function Put(tables: Tables, x: nat, i: nat, e: nat): (r: Tables)
    requires x in tables && i < |tables[x]|
    ensures r.Keys == tables.Keys && |r[x]| == |tables[x]|
  {
    var t: seq<nat> := tables[x][i := e];
    tables[x := t]
  }

  /** `at` says which page holds the table at a path, and `role` the other way round, so no page is
      in two places. */
  ghost predicate Tree(tables: Tables, at: map<Path, nat>, role: map<nat, Path>) {
    && [] in at
    && (forall p {:trigger Node(tables, at, role, p)} :: p in at ==> Node(tables, at, role, p))
    && (forall p, i {:trigger Link(tables, at, p, i)} ::
        p in at && |p| < 3 && 0 <= i < ENTRIES ==> Link(tables, at, p, i))
    && (forall x :: x in role ==> role[x] in at && at[role[x]] == x)
  }

  ghost predicate Node(tables: Tables, at: map<Path, nat>, role: map<nat, Path>, p: Path)
    requires p in at
  {
    && |p| <= 3 && Sized(tables, at[p]) && at[p] in role && role[at[p]] == p
    && (p != [] ==> p[..|p| - 1] in at && p[|p| - 1] < ENTRIES)
  }

  /** Entry `i` of an upper table: the table below, or zero. */
  ghost predicate Link(tables: Tables, at: map<Path, nat>, p: Path, i: nat)
    requires p in at && i < ENTRIES
  {
    Sized(tables, at[p]) &&
    var e := tables[at[p]][i];
    if p + [i] in at then IsTable(e) && PageOf(e) == at[p + [i]] else e == 0
  }

  /** The entry of a page; zero if there is no table for it. */
  ghost function Lookup(tables: Tables, at: map<Path, nat>, p: Path): nat
    requires |p| == 4
  {
    if p[..3] in at && Sized(tables, at[p[..3]]) && p[3] < ENTRIES then tables[at[p[..3]]][p[3]] else 0
  }

  /** Different pages have their entries in different places. */
  lemma {:induction false} SlotsDiffer(tables: Tables, at: map<Path, nat>, role: map<nat, Path>, p: Path, q: Path)
    requires Tree(tables, at, role) && |p| == |q| == 4 && p[..3] in at && q[..3] in at && p != q
    ensures (at[p[..3]], p[3]) != (at[q[..3]], q[3])
  {
    assert Node(tables, at, role, p[..3]) && Node(tables, at, role, q[..3]);
    assert p == p[..3] + [p[3]] && q == q[..3] + [q[3]];
  }

  /** Changes to other pages do not matter. */
  lemma {:induction false} TreeKept(tables: Tables, tables': Tables, at: map<Path, nat>, role: map<nat, Path>)
    requires Tree(tables, at, role)
    requires forall x :: x in role ==> x in tables' && (x in tables ==> tables'[x] == tables[x])
    ensures Tree(tables', at, role) && forall p :: |p| == 4 ==> Lookup(tables', at, p) == Lookup(tables, at, p)
  {
    forall p | p in at ensures Node(tables', at, role, p) { assert Node(tables, at, role, p); }
    forall p, i | p in at && |p| < 3 && 0 <= i < ENTRIES ensures Link(tables', at, p, i) {
      assert Node(tables, at, role, p) && Link(tables, at, p, i);
    }
    forall p | |p| == 4 && p[..3] in at ensures Lookup(tables', at, p) == Lookup(tables, at, p) {
      assert Node(tables, at, role, p[..3]);
    }
  }

  /** Writing an entry of a last-level table changes the entry of that page only. */
  lemma {:induction false} EntryWritten(tables: Tables, at: map<Path, nat>, role: map<nat, Path>, p: Path, e: nat)
    requires Tree(tables, at, role) && |p| == 4 && p[..3] in at && p[3] < ENTRIES
    ensures Sized(tables, at[p[..3]])
    ensures var t := at[p[..3]];
            var tables' := Put(tables, t, p[3], e);
            && Tree(tables', at, role)
            && forall q :: |q| == 4 ==> Lookup(tables', at, q) == if q == p then e else Lookup(tables, at, q)
  {
    var t := at[p[..3]];
    assert Node(tables, at, role, p[..3]);
    var tables' := Put(tables, t, p[3], e);
    forall q | q in at ensures Node(tables', at, role, q) { assert Node(tables, at, role, q); }
    forall q, i | q in at && |q| < 3 && 0 <= i < ENTRIES ensures Link(tables', at, q, i) {
      assert Node(tables, at, role, q) && Link(tables, at, q, i);
    }
    forall q | |q| == 4 ensures Lookup(tables', at, q) == if q == p then e else Lookup(tables, at, q) {
      if q[..3] in at {
        assert Node(tables, at, role, q[..3]);
        if q != p { SlotsDiffer(tables, at, role, p, q); }
      }
    }
  }

  function Empty(): (t: seq<nat>)
    ensures |t| == ENTRIES && forall i :: 0 <= i < ENTRIES ==> t[i] == 0
  {
    seq(ENTRIES, _ => 0)
  }

  /** A new, empty table at `p + [i]`. No page gets another entry. */
  lemma {:induction false} TableAdded(tables: Tables, at: map<Path, nat>, role: map<nat, Path>, p: Path, i: nat, x: nat)
    requires Tree(tables, at, role) && p in at && |p| < 3 && i < ENTRIES && p + [i] !in at && x !in role
    requires x < 0x10_0000_0000
    ensures Sized(tables, at[p])
    ensures var tables' := Put(tables, at[p], i, Entry(x, TABLE))[x := Empty()];
            var at' := at[p + [i] := x];
            && Tree(tables', at', role[x := p + [i]])
            && forall q :: |q| == 4 ==> Lookup(tables', at', q) == Lookup(tables, at, q)
  {
    var t := at[p];
    assert Node(tables, at, role, p);
    EntryFields(x, TABLE);
    Flags(x);
    var tables', at', role' := Put(tables, t, i, Entry(x, TABLE))[x := Empty()], at[p + [i] := x], role[x := p + [i]];
    forall q | q in at' ensures Node(tables', at', role', q) {
      if q == p + [i] { assert q[..|q| - 1] == p; } else { assert Node(tables, at, role, q); }
    }
    forall q, j | q in at' && |q| < 3 && 0 <= j < ENTRIES ensures Link(tables', at', q, j) {
      NewLink(tables, at, role, p, i, x, q, j);
    }
    forall q | |q| == 4 ensures Lookup(tables', at', q) == Lookup(tables, at, q) {
      if q[..3] in at { assert Node(tables, at, role, q[..3]); }
    }
  }

  lemma {:induction false} NewLink(tables: Tables, at: map<Path, nat>, role: map<nat, Path>, p: Path, i: nat, x: nat,
                                   q: Path, j: nat)
    requires Tree(tables, at, role) && p in at && |p| < 3 && i < ENTRIES && p + [i] !in at && x !in role
    requires x < 0x10_0000_0000
    requires Sized(tables, at[p]) && (q in at || q == p + [i]) && |q| < 3 && j < ENTRIES
    ensures Link(Put(tables, at[p], i, Entry(x, TABLE))[x := Empty()], at[p + [i] := x], q, j)
  {
    EntryFields(x, TABLE);
    Flags(x);
    assert q + [j] == p + [i] ==> q == p && j == i by {
      if q + [j] == p + [i] { assert (q + [j])[..|q|] == q && (p + [i])[..|p|] == p; }
    }
    if q in at {
      assert Node(tables, at, role, q) && Link(tables, at, q, j) && Node(tables, at, role, p);
    } else {
      assert q + [j] in at ==> Node(tables, at, role, q + [j]);
      assert (q + [j])[..|q + [j]| - 1] == q;
    }
  }

  // ----- the code

  /** The contents of pages that hold data. */
  type Frames = map<nat, seq<nat>>

  /** The pages of the machine: which are free, and the contents of the others. */
  class Machine {
    const pages: PageAllocator
    var tables: Tables
    var frames: Frames

    constructor (pages: PageAllocator, frames: Frames)
      ensures this.pages == pages && tables == map[] && this.frames == frames
    {
      this.pages := pages;
      this.frames := frames;
      tables := map[];
    }

    ghost predicate Ok()
      reads this, pages
    {
      pages.Valid() && forall x :: x in pages.ref ==> 0 < x < 0x10_0000_0000
    }

    /** `kalloc_page`, or nothing when memory is full. */
    method NewFrame() returns (r: Option<nat>)
      requires Ok()
      modifies pages
      ensures Ok() && pages.ref.Keys == old(pages.ref).Keys
      ensures r.None? ==> pages.ref == old(pages.ref) && pages.stack == old(pages.stack) == []
      ensures r.Some? ==> r.value in old(pages.ref) && old(pages.ref)[r.value] == 0 && 0 < r.value < 0x10_0000_0000
      ensures r.Some? ==> pages.ref == old(pages.ref)[r.value := 1]
    {
      assert forall x :: x in pages.idle ==> x in pages.stack;
      r := pages.Alloc();
    }

    /** `kkalloc`: a zeroed page, or nothing when memory is full. */
    method NewTable() returns (r: Option<nat>)
      requires Ok()
      modifies this`tables, pages
      ensures Ok()
      ensures r.None? ==> tables == old(tables) && pages.ref == old(pages.ref) && pages.stack == old(pages.stack) == []
      ensures r.Some? ==> r.value in old(pages.ref) && old(pages.ref)[r.value] == 0 && 0 < r.value < 0x10_0000_0000
      ensures r.Some? ==> pages.ref == old(pages.ref)[r.value := 1] && tables == old(tables)[r.value := Empty()]
    {
      r := NewFrame();
      if r.Some? {
        tables := tables[r.value := Empty()];
      }
    }
  }

  /** Every table page has one reference. */
  ghost predicate Held(ref: map<nat, int>, role: map<nat, Path>) {
    forall x :: x in role ==> x in ref && ref[x] == 1
  }

  /** Pages in use that are none of these tables stay as they are. */
  ghost predicate Elsewhere(ref: map<nat, int>, ref': map<nat, int>, tables: Tables, tables': Tables,
                            role: map<nat, Path>) {
    forall x :: x in ref && ref[x] > 0 && x !in role ==>
      x in ref' && ref'[x] == ref[x] && (x in tables ==> x in tables' && tables'[x] == tables[x])
  }

  /** An address space: no tables at all, or a tree of them from `pt` on. */
  ghost predicate SpaceOk(ref: map<nat, int>, tables: Tables, pt: nat, at: map<Path, nat>, role: map<nat, Path>) {
    && Held(ref, role)
    && if pt == 0 then at == map[] && role == map[] else Tree(tables, at, role) && at[[]] == pt
  }

  ghost predicate SameEntries(tables: Tables, tables': Tables, at: map<Path, nat>, at': map<Path, nat>) {
    forall p :: |p| == 4 ==> Lookup(tables', at', p) == Lookup(tables, at, p)
  }

  ghost predicate Extends(at: map<Path, nat>, at': map<Path, nat>, role: map<nat, Path>, role': map<nat, Path>) {
    role.Keys <= role'.Keys && forall p :: p in at ==> p in at' && at'[p] == at[p]
  }

  /** More tables, but the same entries. */
  ghost predicate Grown(ref: map<nat, int>, ref': map<nat, int>, tables: Tables, tables': Tables,
                        at: map<Path, nat>, at': map<Path, nat>, role: map<nat, Path>, role': map<nat, Path>) {
    SameEntries(tables, tables', at, at') && Extends(at, at', role, role') &&
      Elsewhere(ref, ref', tables, tables', role) && Fresh(ref, role, role')
  }

  /** The new tables are in pages that nobody used. */
  ghost predicate Fresh(ref: map<nat, int>, role: map<nat, Path>, role': map<nat, Path>) {
    forall x :: x in role' && x !in role ==> x in ref && ref[x] == 0
  }

  lemma {:induction false} GrownTwice(r: map<nat, int>, r1: map<nat, int>, r2: map<nat, int>, t: Tables, t1: Tables,
                                      t2: Tables,
                                      a: map<Path, nat>, a1: map<Path, nat>, a2: map<Path, nat>, o: map<nat, Path>,
                                      o1: map<nat, Path>, o2: map<nat, Path>)
    requires Grown(r, r1, t, t1, a, a1, o, o1) && Grown(r1, r2, t1, t2, a1, a2, o1, o2)
    requires (forall x :: x in r ==> r[x] >= 0) && r1.Keys == r.Keys
    ensures Grown(r, r2, t, t2, a, a2, o, o2)
  {
    assert forall x :: x in r && r[x] > 0 && x !in o ==> x !in o1;
  }

  lemma {:induction false} PathBelow(tables: Tables, at: map<Path, nat>, role: map<nat, Path>, p: Path)
    requires Tree(tables, at, role) && |p| == 4 && p[..3] in at
    ensures p[..2] in at && p[..1] in at
  {
    assert Node(tables, at, role, p[..3]) && p[..3][..2] == p[..2];
    assert Node(tables, at, role, p[..2]) && p[..2][..1] == p[..1];
  }

  lemma {:induction false} SpaceGrows(ref: map<nat, int>, tables: Tables, pt: nat, at: map<Path, nat>,
                                      role: map<nat, Path>, p: Path, i: nat, x: nat)
    requires SpaceOk(ref, tables, pt, at, role) && pt != 0 && p in at && |p| < 3 && i < ENTRIES && p + [i] !in at
    requires x in ref && ref[x] == 0 && x < 0x10_0000_0000
    ensures at[p] in tables[x := Empty()] && i < |tables[x := Empty()][at[p]]|
    ensures var tables', at', role' := Put(tables[x := Empty()], at[p], i, Entry(x, TABLE)), at[p + [i] := x],
        role[x := p + [i]];
            SpaceOk(ref[x := 1], tables', pt, at', role') &&
              Grown(ref, ref[x := 1], tables, tables', at, at', role, role')
  {
    assert Node(tables, at, role, p);
    TableAdded(tables, at, role, p, i, x);
    assert Put(tables[x := Empty()], at[p], i, Entry(x, TABLE)) == Put(tables, at[p], i, Entry(x, TABLE))[x := Empty()];
  }

  lemma {:induction false} SpaceStarts(ref: map<nat, int>, tables: Tables, x: nat)
    requires x in ref && ref[x] == 0 && x > 0
    ensures SpaceOk(ref[x := 1], tables[x := Empty()], x, map[[] := x], map[x := []])
    ensures Grown(ref, ref[x := 1], tables, tables[x := Empty()], map[], map[[] := x], map[], map[x := []])
  {
  }

  // ----- freeing

  /** Table `q` is below entry `j` of table `p`, for some `j < i`. */
  predicate Beneath(q: Path, p: Path, i: nat) {
    |q| > |p| && q[..|p|] == p && q[|p|] < i
  }

  predicate AtOrBelow(q: Path, p: Path) { |q| >= |p| && q[..|p|] == p }

  /** The pages of the table at `p` and of those below it. */
  ghost function Sub(at: map<Path, nat>, p: Path): set<nat> {
    set q | q in at && AtOrBelow(q, p) :: at[q]
  }

  /** The pages of the tables below the first `i` entries of `p`. */
  ghost function SubUpTo(at: map<Path, nat>, p: Path, i: nat): set<nat> {
    set q | q in at && Beneath(q, p, i) :: at[q]
  }

  lemma {:induction false} PrefixIn(tables: Tables, at: map<Path, nat>, role: map<nat, Path>, q: Path, n: nat)
    requires Tree(tables, at, role) && q in at && n <= |q|
    ensures q[..n] in at
    decreases |q|
  {
    assert Node(tables, at, role, q);
    if n == |q| { assert q[..n] == q; } else {
      PrefixIn(tables, at, role, q[..|q| - 1], n);
      assert q[..|q| - 1][..n] == q[..n];
    }
  }

  /** A table at or below `p + [i]`. */
  lemma {:induction false} Beneaths(q: Path, p: Path, i: nat)
    ensures Beneath(q, p, i + 1) <==> Beneath(q, p, i) || AtOrBelow(q, p + [i])
    ensures !(Beneath(q, p, i) && AtOrBelow(q, p + [i]))
  {
    if |q| > |p| { assert q[..|p| + 1] == q[..|p|] + [q[|p|]]; }
    if AtOrBelow(q, p + [i]) { assert q[..|p| + 1][..|p|] == q[..|p|] == p && q[..|p| + 1][|p|] == i; }
  }

  lemma {:induction false} SubNext(tables: Tables, at: map<Path, nat>, role: map<nat, Path>, p: Path, i: nat)
    requires Tree(tables, at, role) && p in at
    ensures SubUpTo(at, p, i + 1) == SubUpTo(at, p, i) + Sub(at, p + [i])
    ensures p + [i] !in at ==> Sub(at, p + [i]) == {}
    ensures Sub(at, p + [i]) !! SubUpTo(at, p, i) && at[p] !in Sub(at, p + [i]) && Sub(at, p + [i]) <= Sub(at, p)
  {
    forall q ensures Beneath(q, p, i + 1) <==> Beneath(q, p, i) || AtOrBelow(q, p + [i]) { Beneaths(q, p, i); }
    forall q | q in at && AtOrBelow(q, p + [i])
      ensures p + [i] in at && AtOrBelow(q, p) && q != p && !Beneath(q, p, i) {
      Beneaths(q, p, i);
      PrefixIn(tables, at, role, q, |p| + 1);
    }
    forall q | q in at ensures at[q] in role && role[at[q]] == q { assert Node(tables, at, role, q); }
  }

  lemma {:induction false} SameLength(q: Path, p: Path)
    requires AtOrBelow(q, p) && q != p
    ensures |q| > |p|
  {
    assert q[..|q|] == q;
  }

  lemma {:induction false} SubAll(tables: Tables, at: map<Path, nat>, role: map<nat, Path>, p: Path)
    requires Tree(tables, at, role) && p in at
    ensures Sub(at, p) == SubUpTo(at, p, ENTRIES) + {at[p]} && at[p] !in SubUpTo(at, p, ENTRIES)
    ensures |p| == 3 ==> SubUpTo(at, p, ENTRIES) == {}
  {
    forall q | q in at ensures at[q] in role && role[at[q]] == q && |q| <= 3 { assert Node(tables, at, role, q); }
    forall q | q in at && AtOrBelow(q, p) && q != p ensures Beneath(q, p, ENTRIES) {
      SameLength(q, p);
      PrefixIn(tables, at, role, q, |p| + 1);
      assert Node(tables, at, role, q[..|p| + 1]);
    }
    assert AtOrBelow(p, p);
  }

  lemma {:induction false} AllTables(tables: Tables, at: map<Path, nat>, role: map<nat, Path>)
    requires Tree(tables, at, role)
    ensures Sub(at, []) == role.Keys && Intact(tables, tables, role.Keys)
  {
    forall x | x in role ensures x in tables { assert Node(tables, at, role, role[x]); }
    forall q | q in at ensures at[q] in role && AtOrBelow(q, []) { assert Node(tables, at, role, q); }
    forall x | x in role ensures x in Sub(at, []) { assert at[role[x]] == x && AtOrBelow(role[x], []); }
  }

  /** Exactly these pages have lost their reference. */
  ghost predicate Lost(ref: map<nat, int>, ref': map<nat, int>, gone: set<nat>) {
    ref'.Keys == ref.Keys && forall x :: x in ref ==> ref'[x] == if x in gone then 0 else ref[x]
  }

  /** The tables in `pages` are as they were. */
  ghost predicate Intact(tables: Tables, tables': Tables, pages: set<nat>) {
    forall x :: x in pages ==> x in tables && x in tables' && tables'[x] == tables[x]
  }

  ghost predicate Outside(tables: Tables, tables': Tables, pages: set<nat>) {
    forall x :: x in tables && x !in pages ==> x in tables' && tables'[x] == tables[x]
  }

  /** Where the loop of `freePTEntry` is: of the pages `all`, it has freed `done`, and in the table `t` it
      has come to entry `i`. `tables` are the tables before anything was freed. */
  ghost predicate Freeing(ref: map<nat, int>, ref': map<nat, int>, tables: Tables, before: Tables, now: Tables,
                          all: set<nat>, done: set<nat>, t: nat, i: nat) {
    && Lost(ref, ref', done) && Intact(tables, now, all - done - {t}) && Outside(before, now, all)
    && Sized(now, t) && Sized(tables, t) && forall j :: i <= j < ENTRIES ==> now[t][j] == tables[t][j]
  }

  lemma {:induction false} FreeingNext(ref: map<nat, int>, ref1: map<nat, int>, ref2: map<nat, int>, tables: Tables,
                                       before: Tables, now: Tables, later: Tables,
                                       all: set<nat>, done: set<nat>, sub: set<nat>, t: nat, i: nat)
    requires Freeing(ref, ref1, tables, before, now, all, done, t, i) && Lost(ref1, ref2, sub)
    requires Outside(now, later, sub)
    requires sub <= all && t !in sub && t in all && i < ENTRIES
    ensures Sized(later, t) && Freeing(ref, ref2, tables, before, Put(later, t, i, 0), all, done + sub, t, i + 1)
  {
  }

  /** The result of a walk: no such entry, no memory for a table, or where the entry is. */
  datatype Walk = Null | NoMemory | Slot(table: nat, index: nat)

  class Pgdir {
    const m: Machine
    var pt: nat
    ghost var at: map<Path, nat>
    ghost var role: map<nat, Path>

    ghost predicate Valid()
      reads this, m, m.pages
    {
      m.Ok() && SpaceOk(m.pages.ref, m.tables, pt, at, role)
    }

    /** An address space without tables. */
    constructor (m: Machine)
      requires m.Ok()
      ensures Valid() && this.m == m && pt == 0
    {
      this.m := m;
      pt, at, role := 0, map[], map[];
    }

    /** The first table. */
    method Root(alloc: bool) returns (r: Walk)
      requires Valid()
      modifies this, m`tables, m.pages
      ensures Valid() && (r.Slot? ==> pt != 0 && r.table == pt) && (r.NoMemory? ==> m.pages.stack == [])
      ensures Grown(old(m.pages.ref), m.pages.ref, old(m.tables), m.tables, old(at), at, old(role), role)
      ensures m.pages.ref.Keys == old(m.pages.ref).Keys
      ensures r.Null? <==> !alloc && old(pt) == 0
      ensures !alloc || old(pt) != 0 ==>
          at == old(at) && m.tables == old(m.tables) && m.pages.ref == old(m.pages.ref) && !r.NoMemory?
    {
      if pt == 0 {
        if !alloc {
          return Null;
        }
        ghost var ref, tables := m.pages.ref, m.tables;
        var x := m.NewTable();
        if x.None? {
          return NoMemory;
        }
        SpaceStarts(ref, tables, x.value);
        pt, at, role := x.value, map[[] := x.value], map[x.value := []];
      }
      r := Slot(pt, 0);
    }

    /** A new table below entry `i` of the table at `p`, which is page `t`. */
    method AddTable(t: nat, i: nat, ghost p: Path) returns (ok: bool)
      requires Valid() && pt != 0 && p in at && at[p] == t && |p| < 3 && i < ENTRIES && p + [i] !in at
      modifies this`at, this`role, m`tables, m.pages
      ensures Valid() && (ok ==> p + [i] in at) && (!ok ==> m.pages.stack == [])
      ensures Grown(old(m.pages.ref), m.pages.ref, old(m.tables), m.tables, old(at), at, old(role), role)
      ensures m.pages.ref.Keys == old(m.pages.ref).Keys
    {
      ghost var ref, tables := m.pages.ref, m.tables;
      var x := m.NewTable();
      if x.None? {
        return false;
      }
      SpaceGrows(ref, tables, pt, at, role, p, i, x.value);
      ghost var at', role' := at[p + [i] := x.value], role[x.value := p + [i]];
      var tables' := Put(m.tables, t, i, Entry(x.value, TABLE));
      m.tables, at, role := tables', at', role';
      return true;
    }

    /** The table below entry `i` of the table at `p`, which is page `t`. */
    method Below(t: nat, i: nat, alloc: bool, ghost p: Path) returns (r: Walk)
      requires Valid() && pt != 0 && p in at && at[p] == t && |p| < 3 && i < ENTRIES
      modifies this`at, this`role, m`tables, m.pages
      ensures Valid() && (r.Slot? ==> p + [i] in at && r.table == at[p + [i]]) && (r.NoMemory? ==> m.pages.stack == [])
      ensures Grown(old(m.pages.ref), m.pages.ref, old(m.tables), m.tables, old(at), at, old(role), role)
      ensures m.pages.ref.Keys == old(m.pages.ref).Keys
      ensures r.Null? <==> !alloc && p + [i] !in old(at)
      ensures !alloc || p + [i] in old(at) ==>
          at == old(at) && m.tables == old(m.tables) && m.pages.ref == old(m.pages.ref) && !r.NoMemory?
    {
      assert Node(m.tables, at, role, p) && Link(m.tables, at, p, i);
      if !IsValid(m.tables[t][i]) {
        if !alloc {
          return Null;
        }
        var ok := AddTable(t, i, p);
        if !ok {
          return NoMemory;
        }
        assert Node(m.tables, at, role, p) && Link(m.tables, at, p, i);
      }
      r := Slot(PageOf(m.tables[t][i]), 0);
    }

    /** One more level of the walk, after a part of it that only added tables. */
    method Step(t: nat, i: nat, alloc: bool, ghost p: Path, ghost ref: map<nat, int>, ghost tables: Tables,
                ghost at0: map<Path, nat>, ghost role0: map<nat, Path>) returns (r: Walk)
      requires Valid() && pt != 0 && p in at && at[p] == t && |p| < 3 && i < ENTRIES
      requires Grown(ref, m.pages.ref, tables, m.tables, at0, at, role0, role) && m.pages.ref.Keys == ref.Keys
      requires forall x :: x in ref ==> ref[x] >= 0
      modifies this`at, this`role, m`tables, m.pages
      ensures Valid() && (r.Slot? ==> p + [i] in at && r.table == at[p + [i]]) && (r.NoMemory? ==> m.pages.stack == [])
      ensures Grown(ref, m.pages.ref, tables, m.tables, at0, at, role0, role) && m.pages.ref.Keys == ref.Keys
      ensures r.Null? <==> !alloc && p + [i] !in old(at)
      ensures !alloc ==> at == old(at) && m.tables == old(m.tables) && m.pages.ref == old(m.pages.ref) && !r.NoMemory?
    {
      ghost var ref1, tables1, at1, role1 := m.pages.ref, m.tables, at, role;
      r := Below(t, i, alloc, p);
      GrownTwice(ref, ref1, m.pages.ref, tables, tables1, m.tables, at0, at1, at, role0, role1, role);
    }

    /** `get_pte`: where the entry of the page of `va` is. Allocating tables changes no page's entry. */
    method GetPte(va: nat, alloc: bool) returns (r: Walk)
      requires Valid()
      modifies this, m`tables, m.pages
      ensures Valid() && Grown(old(m.pages.ref), m.pages.ref, old(m.tables), m.tables, old(at), at, old(role), role)
      ensures m.pages.ref.Keys == old(m.pages.ref).Keys && (r.Slot? ==> pt != 0)
      ensures (r.NoMemory? ==> m.pages.stack == [])
      ensures r.Slot? ==> Parts(va)[..3] in at && r.table == at[Parts(va)[..3]] && r.index == Parts(va)[3]
      ensures r.Null? <==> !alloc && Parts(va)[..3] !in old(at)
      ensures !alloc ==> at == old(at) && m.tables == old(m.tables) && m.pages.ref == old(m.pages.ref) && !r.NoMemory?
    {
      var p := Parts(va);
      ghost var ref, tables, at0, role0 := m.pages.ref, m.tables, at, role;
      if pt != 0 && p[..3] in at { PathBelow(m.tables, at, role, p); }
      assert p[..1] == [] + [p[0]] && p[..2] == p[..1] + [p[1]] && p[..3] == p[..2] + [p[2]];
      r := Root(alloc);
      if !r.Slot? { return; }
      r := Step(r.table, p[0], alloc, [], ref, tables, at0, role0);
      if !r.Slot? { return; }
      r := Step(r.table, p[1], alloc, p[..1], ref, tables, at0, role0);
      if !r.Slot? { return; }
      r := Step(r.table, p[2], alloc, p[..2], ref, tables, at0, role0);
      if !r.Slot? { return; }
      r := Slot(r.table, p[3]);
    }

    /** `freePTEntry` on the table at `p`, which is page `t`. */
    method FreeEntry(t: nat, deep: nat, ghost p: Path, ghost tables: Tables)
      requires m.Ok() && Tree(tables, at, role) && p in at && at[p] == t && deep == |p|
      requires Intact(tables, m.tables, Sub(at, p))
      requires forall x :: x in Sub(at, p) ==> x in m.pages.ref && m.pages.ref[x] == 1
      modifies m`tables, m.pages
      ensures m.Ok() && Lost(old(m.pages.ref), m.pages.ref, Sub(at, p))
      ensures Outside(old(m.tables), m.tables, Sub(at, p))
      decreases 3 - deep
    {
      assert Node(tables, at, role, p);
      SubAll(tables, at, role, p);
      if deep == 3 {
        m.pages.Free(t);
        return;
      }
      FreeBelow(t, deep, p, tables);
      m.pages.Free(t);
    }

    /** One round of the loop of `freePTEntry`. */
    method FreeSlot(t: nat, deep: nat, i: nat, ghost p: Path, ghost tables: Tables, ghost ref: map<nat, int>,
                    ghost before: Tables, ghost done: set<nat>)
      requires m.Ok() && Tree(tables, at, role) && p in at && at[p] == t && deep == |p| < 3 && i < ENTRIES
      requires done == SubUpTo(at, p, i) && Freeing(ref, m.pages.ref, tables, before, m.tables, Sub(at, p), done, t, i)
      requires t in Sub(at, p) && forall x :: x in Sub(at, p) ==> x in ref && ref[x] == 1
      modifies m`tables, m.pages
      ensures m.Ok() && Freeing(ref, m.pages.ref, tables, before, m.tables, Sub(at, p), SubUpTo(at, p, i + 1), t, i + 1)
      decreases 3 - deep, 0
    {
      assert Link(tables, at, p, i);
      SubNext(tables, at, role, p, i);
      if m.tables[t][i] != 0 {
        ghost var ref1, now := m.pages.ref, m.tables;
        FreeEntry(PageOf(m.tables[t][i]), deep + 1, p + [i], tables);
        FreeingNext(ref, ref1, m.pages.ref, tables, before, now, m.tables, Sub(at, p), done, Sub(at, p + [i]), t, i);
        m.tables := Put(m.tables, t, i, 0);
      }
    }

    /** The loop of `freePTEntry`. */
    method FreeBelow(t: nat, deep: nat, ghost p: Path, ghost tables: Tables)
      requires m.Ok() && Tree(tables, at, role) && p in at && at[p] == t && deep == |p| < 3
      requires Intact(tables, m.tables, Sub(at, p))
      requires forall x :: x in Sub(at, p) ==> x in m.pages.ref && m.pages.ref[x] == 1
      modifies m`tables, m.pages
      ensures m.Ok() && Lost(old(m.pages.ref), m.pages.ref, SubUpTo(at, p, ENTRIES))
      ensures Outside(old(m.tables), m.tables, Sub(at, p))
      decreases 3 - deep, 1
    {
      assert Node(tables, at, role, p);
      SubAll(tables, at, role, p);
      ghost var ref, before := m.pages.ref, m.tables;
      assert SubUpTo(at, p, 0) == {};
      var i := 0;
      while i < ENTRIES
        invariant i <= ENTRIES && m.Ok()
        invariant Freeing(ref, m.pages.ref, tables, before, m.tables, Sub(at, p), SubUpTo(at, p, i), t, i)
      {
        FreeSlot(t, deep, i, p, tables, ref, before, SubUpTo(at, p, i));
        i := i + 1;
      }
    }

    /** `free_pgdir`: every table page loses its one reference, and so is free, and no other page does. */
    method FreePgdir()
      requires Valid()
      modifies this, m`tables, m.pages
      ensures Valid() && pt == 0
      ensures Lost(old(m.pages.ref), m.pages.ref, old(role).Keys)
      ensures Outside(old(m.tables), m.tables, old(role).Keys)
    {
      if pt == 0 {
        return;
      }
      AllTables(m.tables, at, role);
      FreeEntry(pt, 0, [], m.tables);
      pt, at, role := 0, map[], map[];
    }
  }
}
