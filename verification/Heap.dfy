/**
The heap of `src/kernel/mem.c`: `kalloc` and `kfree` on lists of headers that live in the pages
themselves, with splitting, merging and shrunken sizes, on top of `kalloc_page` and
`kfree_page`.
*/
module Heap {
  import opened Basics
  import opened Pages

  /** `sizeof(node)` */
  const HEADER: nat := 16

  /** An address: a page and an offset in it. */
  datatype Ptr = Ptr(page: nat, off: nat)

  const NULL: Ptr := Ptr(0, 0)

  /** `node`, a header. */
  datatype Node = Node(next: Ptr, size: nat, free: bool)

  type Nodes = map<Ptr, Node>

  /** The block behind a header. */
  function BlockOf(h: Ptr): Ptr { Ptr(h.page, h.off + HEADER) }

  function EndOf(a: Ptr, n: Node): nat { a.off + HEADER + n.size }

  // ----- what `kalloc` and `kfree` keep

  /** A header and its block lie in one page. */
  predicate Fits(a: Ptr, n: Node) {
    0 < a.page && a.off % 8 == 0 && n.size % 8 == 0 && EndOf(a, n) <= PAGE_SIZE
  }

  ghost predicate AllFit(nodes: Nodes) {
    forall a :: a in nodes ==> Fits(a, nodes[a])
  }

  /** Where the one pointer to a header is: in a list head, or in another header. */
  datatype Source = Head(c: nat) | After(a: Ptr)

  ghost predicate Linked(nodes: Nodes, heads: seq<Ptr>, source: map<Ptr, Source>) {
    && (forall a :: a in nodes && nodes[a].next != NULL ==>
          nodes[a].next in nodes && nodes[a].next in source && source[nodes[a].next] == After(a))
    && (forall c :: 0 <= c < |heads| && heads[c] != NULL ==>
          heads[c] in nodes && heads[c] in source && source[heads[c]] == Head(c))
  }

  /** If `a` is before `b` in a page, its block ends there. */
  ghost predicate Before(nodes: Nodes, a: Ptr, b: Ptr)
    requires a in nodes
  {
    a.page == b.page && a.off < b.off ==> EndOf(a, nodes[a]) <= b.off
  }

  /** No two blocks overlap. */
  ghost predicate Apart(nodes: Nodes) {
    forall a, b {:trigger Before(nodes, a, b)} :: a in nodes && b in nodes ==> Before(nodes, a, b)
  }

  /** The list goes on in the same page. */
  predicate Joins(a: Ptr, n: Node) { n.next != NULL && n.next.page == a.page }

  /** Header `b` does not lie between `a` and the next one in the list. */
  ghost predicate Beside(nodes: Nodes, a: Ptr, b: Ptr)
    requires a in nodes
  {
    Joins(a, nodes[a]) && b.page == a.page ==>
      a.off < nodes[a].next.off && (b.off <= a.off || nodes[a].next.off <= b.off)
  }

  /** A header whose list goes on in the same page points to the next one of that page. */
  ghost predicate Neighbours(nodes: Nodes) {
    forall a, b {:trigger Beside(nodes, a, b)} :: a in nodes && b in nodes ==> Beside(nodes, a, b)
  }

  /** The lists have an end: ranks fall along them. */
  ghost predicate Ranked(nodes: Nodes, rank: map<Ptr, real>, top: real) {
    && (forall a :: a in nodes ==> a in rank && rank[a] < top)
    && (forall a :: a in nodes && nodes[a].next != NULL ==> nodes[a].next in rank && rank[nodes[a].next] < rank[a])
  }

  // ----- merging a block with its neighbour

  function Merged(nodes: Nodes, h: Ptr, p: Ptr): Nodes
    requires h in nodes && p in nodes
  {
    (nodes - {p})[h := Node(nodes[p].next, nodes[h].size + nodes[p].size + HEADER, true)]
  }

  lemma {:induction false} MergedApart(nodes: Nodes, h: Ptr, p: Ptr)
    requires AllFit(nodes) && Apart(nodes) && Neighbours(nodes)
    requires h in nodes && p in nodes && nodes[h].next == p && Joins(h, nodes[h])
    ensures AllFit(Merged(nodes, h, p)) && Apart(Merged(nodes, h, p))
  {
    var nodes' := Merged(nodes, h, p);
    assert Before(nodes, h, p) && Beside(nodes, h, p) && Fits(h, nodes[h]) && Fits(p, nodes[p]);
    forall a, b | a in nodes' && b in nodes' ensures Before(nodes', a, b) {
      assert Before(nodes, a, b);
      if a == h { assert Beside(nodes, h, b) && Before(nodes, p, b); }
    }
  }

  lemma {:induction false} MergedNeighbours(nodes: Nodes, h: Ptr, p: Ptr)
    requires Neighbours(nodes) && h in nodes && p in nodes && nodes[h].next == p && Joins(h, nodes[h])
    ensures Neighbours(Merged(nodes, h, p))
  {
    var nodes' := Merged(nodes, h, p);
    forall a, b | a in nodes' && b in nodes' ensures Beside(nodes', a, b) {
      assert Beside(nodes, a, b);
      if a == h { assert Beside(nodes, p, b) && Beside(nodes, h, p); }
    }
  }

  lemma {:induction false} MergedLinks(nodes: Nodes, heads: seq<Ptr>, source: map<Ptr, Source>, rank: map<Ptr, real>,
                                       top: real, h: Ptr, p: Ptr)
    requires Linked(nodes, heads, source) && Ranked(nodes, rank, top) && h in nodes && p in nodes
    requires nodes[h].next == p && p != NULL && h != p
    ensures var q := nodes[p].next;
            var source' := if q == NULL then source else source[q := After(h)];
            Linked(Merged(nodes, h, p), heads, source') && Ranked(Merged(nodes, h, p), rank, top)
  {
  }

  // ----- splitting a block

  /** A block of `size` bytes at `h`, and a header with the rest behind it. */
  function Split(nodes: Nodes, h: Ptr, size: nat): Nodes
    requires h in nodes && size + HEADER <= nodes[h].size
  {
    var n, p := nodes[h], Ptr(h.page, h.off + HEADER + size);
    nodes[p := Node(n.next, n.size - size - HEADER, true)][h := Node(p, size, false)]
  }

  lemma {:induction false} SplitApart(nodes: Nodes, h: Ptr, size: nat)
    requires AllFit(nodes) && Apart(nodes) && h in nodes && size % 8 == 0 && size + HEADER <= nodes[h].size
    ensures AllFit(Split(nodes, h, size)) && Apart(Split(nodes, h, size))
    ensures Ptr(h.page, h.off + HEADER + size) !in nodes
  {
    var nodes', p := Split(nodes, h, size), Ptr(h.page, h.off + HEADER + size);
    assert p in nodes ==> Before(nodes, h, p);
    assert Fits(h, nodes[h]);
    forall a, b | a in nodes' && b in nodes' ensures Before(nodes', a, b) {
      var a0, b0 := if a == p then h else a, if b == p then h else b;
      assert Before(nodes, a0, b0) && Before(nodes, b0, a0);
    }
  }

  lemma {:induction false} SplitNeighbours(nodes: Nodes, h: Ptr, size: nat)
    requires Apart(nodes) && Neighbours(nodes) && h in nodes && size + HEADER <= nodes[h].size
    requires forall a :: a in nodes && nodes[a].next != NULL ==> nodes[a].next in nodes
    ensures Neighbours(Split(nodes, h, size))
  {
    var nodes', p := Split(nodes, h, size), Ptr(h.page, h.off + HEADER + size);
    if Joins(h, nodes[h]) { assert Beside(nodes, h, h) && Before(nodes, h, nodes[h].next); }
    forall a, b | a in nodes' && b in nodes' ensures Beside(nodes', a, b) {
      var a0, b0 := if a == p then h else a, if b == p then h else b;
      assert Beside(nodes, a0, b0) && Before(nodes, a0, b0) && Before(nodes, b0, a0);
      if b == p && a0 != h && Joins(a, nodes[a]) { assert Before(nodes, h, nodes[a].next); }
    }
  }

  /** A rank between that of `h` and that of the next one. */
  ghost function RankAfter(nodes: Nodes, rank: map<Ptr, real>, h: Ptr): real
    requires h in nodes && h in rank
  {
    var q := nodes[h].next;
    if q in rank then (rank[h] + rank[q]) / 2.0 else rank[h] - 1.0
  }

  lemma {:induction false} SplitLinks(nodes: Nodes, heads: seq<Ptr>, source: map<Ptr, Source>, rank: map<Ptr, real>,
                                      top: real, h: Ptr, size: nat)
    requires Linked(nodes, heads, source) && Ranked(nodes, rank, top) && h in nodes && size + HEADER <= nodes[h].size
    requires h.page > 0 && NULL !in rank && Ptr(h.page, h.off + HEADER + size) !in nodes
    ensures var p, q := Ptr(h.page, h.off + HEADER + size), nodes[h].next;
            var source' := source[p := After(h)];
            && Linked(Split(nodes, h, size), heads, if q == NULL then source' else source'[q := After(p)])
            && Ranked(Split(nodes, h, size), rank[p := RankAfter(nodes, rank, h)], top)
  {
  }

  // ----- a block of another size at the same place, and a new page

  lemma {:induction false} Resized(nodes: Nodes, h: Ptr, n: Node)
    requires AllFit(nodes) && Apart(nodes) && Neighbours(nodes) && h in nodes
    requires n.next == nodes[h].next && n.size <= nodes[h].size && n.size % 8 == 0
    ensures AllFit(nodes[h := n]) && Apart(nodes[h := n]) && Neighbours(nodes[h := n])
  {
    assert Fits(h, nodes[h]);
    forall a, b | a in nodes && b in nodes ensures Before(nodes[h := n], a, b) && Beside(nodes[h := n], a, b) {
      assert Before(nodes, a, b) && Beside(nodes, a, b);
    }
  }

  /** The header of a page that is all one free block. */
  function Pushed(nodes: Nodes, p: Ptr, head: Ptr): Nodes {
    nodes[p := Node(head, PAGE_SIZE - HEADER, true)]
  }

  lemma {:induction false} PushedApart(nodes: Nodes, p: Ptr, head: Ptr)
    requires AllFit(nodes) && Apart(nodes) && Neighbours(nodes) && (head == NULL || head in nodes)
    requires p.page > 0 && p.off == 0 && forall a :: a in nodes ==> a.page != p.page
    ensures AllFit(Pushed(nodes, p, head)) && Apart(Pushed(nodes, p, head)) && Neighbours(Pushed(nodes, p, head))
  {
    var nodes' := Pushed(nodes, p, head);
    forall a, b | a in nodes' && b in nodes' ensures Before(nodes', a, b) && Beside(nodes', a, b) {
      assert a != p && b != p ==> Before(nodes, a, b) && Beside(nodes, a, b);
    }
  }

  lemma {:induction false} PushedLinks(nodes: Nodes, heads: seq<Ptr>, source: map<Ptr, Source>, rank: map<Ptr, real>,
                                       top: real, c: nat, p: Ptr)
    requires Linked(nodes, heads, source) && Ranked(nodes, rank, top) && c < |heads| && p != NULL && p !in nodes
    ensures var source' := if heads[c] == NULL then source else source[heads[c] := After(p)];
            Linked(Pushed(nodes, p, heads[c]), heads[c := p], source'[p := Head(c)])
    ensures Ranked(Pushed(nodes, p, heads[c]), rank[p := top], top + 1.0)
  {
  }

  // ----- the blocks that are in use

  /** Block `live[h]` bytes long behind header `h` has been given out. */
  ghost predicate InUse(nodes: Nodes, live: map<Ptr, nat>) {
    forall h :: h in live ==> h in nodes && !nodes[h].free && live[h] <= nodes[h].size
  }

  /** The bytes from `i` to `j` and those from `k` to `l` of a page have none in common. */
  predicate Disjoint(i: nat, j: nat, k: nat, l: nat) { j <= k || l <= i }

  /** Blocks in use do not overlap each other or any header, are aligned, and stay in their page. */
  lemma {:induction false} BlocksAreSafe(nodes: Nodes, live: map<Ptr, nat>)
    requires AllFit(nodes) && Apart(nodes) && InUse(nodes, live)
    ensures forall h :: h in live ==> (h.off + HEADER) % 8 == 0 && h.off + HEADER + live[h] <= PAGE_SIZE
    ensures forall g, h :: g in live && h in live && g != h && g.page == h.page ==>
              Disjoint(g.off + HEADER, g.off + HEADER + live[g], h.off + HEADER, h.off + HEADER + live[h])
    ensures forall g, h :: g in live && h in nodes && g.page == h.page ==>
              Disjoint(g.off + HEADER, g.off + HEADER + live[g], h.off, h.off + HEADER)
  {
    forall h | h in live ensures (h.off + HEADER) % 8 == 0 && h.off + HEADER + live[h] <= PAGE_SIZE {
      assert Fits(h, nodes[h]);
    }
    forall g, h | g in live && h in nodes && g.page == h.page
      ensures Disjoint(g.off + HEADER, g.off + HEADER + live[g], h.off, h.off + HEADER)
      ensures h in live && g != h ==>
          Disjoint(g.off + HEADER, g.off + HEADER + live[g], h.off + HEADER, h.off + HEADER + live[h])
    {
      assert Before(nodes, g, h) && Before(nodes, h, g);
    }
  }

  // ----- the heap

  /** Sizes are rounded up to a multiple of 8. */
  function Rounded(size: nat): (r: nat)
    ensures size <= r < size + 8 && r % 8 == 0
  {
    (size / 8 + if size % 8 != 0 then 1 else 0) * 8
  }

  lemma {:induction false} RoundedFits(size: nat)
    ensures Rounded(size) <= PAGE_SIZE - HEADER <==> size <= PAGE_SIZE - HEADER
  {
  }

  /** Everything about the lists. */
  ghost predicate ListsOk(nodes: Nodes, heads: seq<Ptr>, source: map<Ptr, Source>, rank: map<Ptr, real>, top: real,
                          live: map<Ptr, nat>) {
    && AllFit(nodes) && Apart(nodes) && Neighbours(nodes)
    && Linked(nodes, heads, source) && Ranked(nodes, rank, top) && NULL !in rank && InUse(nodes, live)
  }

  lemma {:induction false} MergedOk(nodes: Nodes, heads: seq<Ptr>, source: map<Ptr, Source>, rank: map<Ptr, real>,
                                    top: real, live: map<Ptr, nat>, h: Ptr)
    requires ListsOk(nodes, heads, source, rank, top, live) && h in nodes && h !in live
    requires Joins(h, nodes[h]) && nodes[h].next in nodes && nodes[nodes[h].next].free
    ensures var p := nodes[h].next;
            var source' := if nodes[p].next == NULL then source else source[nodes[p].next := After(h)];
            ListsOk(Merged(nodes, h, p), heads, source', rank, top, live)
  {
    var p := nodes[h].next;
    assert Beside(nodes, h, h);
    MergedApart(nodes, h, p);
    MergedNeighbours(nodes, h, p);
    MergedLinks(nodes, heads, source, rank, top, h, p);
  }

  /** Another size or state at the same place: freeing a block, or taking one as it is. */
  lemma {:induction false} ResizedOk(nodes: Nodes, heads: seq<Ptr>, source: map<Ptr, Source>, rank: map<Ptr, real>,
                                     top: real, live: map<Ptr, nat>,
                                     h: Ptr, n: Node)
    requires ListsOk(nodes, heads, source, rank, top, live) && h in nodes && h !in live
    requires n.next == nodes[h].next && n.size <= nodes[h].size && n.size % 8 == 0
    ensures ListsOk(nodes[h := n], heads, source, rank, top, live)
  {
    Resized(nodes, h, n);
    assert Linked(nodes[h := n], heads, source) && Ranked(nodes[h := n], rank, top);
  }

  lemma {:induction false} TakenOk(nodes: Nodes, heads: seq<Ptr>, source: map<Ptr, Source>, rank: map<Ptr, real>,
                                   top: real, live: map<Ptr, nat>,
                                   h: Ptr, size: nat, asked: nat)
    requires ListsOk(nodes, heads, source, rank, top, live) && h in nodes && h !in live
    requires asked <= size <= nodes[h].size && size % 8 == 0
    ensures ListsOk(nodes[h := nodes[h].(size := size, free := false)], heads, source, rank, top, live[h := asked])
  {
    ResizedOk(nodes, heads, source, rank, top, live, h, nodes[h].(size := size, free := false));
  }

  lemma {:induction false} SplitOk(nodes: Nodes, heads: seq<Ptr>, source: map<Ptr, Source>, rank: map<Ptr, real>,
                                   top: real, live: map<Ptr, nat>,
                                   h: Ptr, size: nat, asked: nat)
    requires ListsOk(nodes, heads, source, rank, top, live) && h in nodes && h !in live
    requires size % 8 == 0 && size + HEADER <= nodes[h].size && asked <= size
    ensures var p, q := Ptr(h.page, h.off + HEADER + size), nodes[h].next;
            var source' := source[p := After(h)];
            ListsOk(Split(nodes, h, size), heads, if q == NULL then source' else source'[q := After(p)],
                    rank[p := RankAfter(nodes, rank, h)], top, live[h := asked])
    ensures Ptr(h.page, h.off + HEADER + size) !in nodes
  {
    assert Fits(h, nodes[h]);
    SplitApart(nodes, h, size);
    SplitNeighbours(nodes, h, size);
    SplitLinks(nodes, heads, source, rank, top, h, size);
  }

  lemma {:induction false} PushedOk(nodes: Nodes, heads: seq<Ptr>, source: map<Ptr, Source>, rank: map<Ptr, real>,
                                    top: real, live: map<Ptr, nat>,
                                    c: nat, p: Ptr)
    requires ListsOk(nodes, heads, source, rank, top, live) && c < |heads|
    requires p.page > 0 && p.off == 0 && forall a :: a in nodes ==> a.page != p.page
    ensures var source' := if heads[c] == NULL then source else source[heads[c] := After(p)];
            ListsOk(Pushed(nodes, p, heads[c]), heads[c := p], source'[p := Head(c)], rank[p := top], top + 1.0, live)
    ensures p !in live
  {
    PushedApart(nodes, p, heads[c]);
    PushedLinks(nodes, heads, source, rank, top, c, p);
  }

  /** What the lists say about one header. */
  lemma {:induction false} AtHeader(nodes: Nodes, heads: seq<Ptr>, source: map<Ptr, Source>, rank: map<Ptr, real>,
                                    top: real, live: map<Ptr, nat>,
                                    h: Ptr)
    requires ListsOk(nodes, heads, source, rank, top, live) && h in nodes
    ensures var p := nodes[h].next; h in rank && (p != NULL ==> p in nodes && p in rank && rank[p] < rank[h])
    ensures Ranked(nodes, rank, top) && (nodes[h].free ==> h !in live) && nodes[h].size % 8 == 0
  {
  }

  lemma {:induction false} SizeBound(nodes: Nodes, heads: seq<Ptr>, source: map<Ptr, Source>, rank: map<Ptr, real>,
                                     top: real, live: map<Ptr, nat>,
                                     h: Ptr)
    requires ListsOk(nodes, heads, source, rank, top, live) && h in nodes
    ensures nodes[h].size <= PAGE_SIZE - HEADER
  {
  }

  lemma {:induction false} HeadIn(nodes: Nodes, heads: seq<Ptr>, source: map<Ptr, Source>, rank: map<Ptr, real>,
                                  top: real, live: map<Ptr, nat>,
                                  c: nat)
    requires ListsOk(nodes, heads, source, rank, top, live) && c < |heads| && heads[c] != NULL
    ensures heads[c] in nodes
  {
  }

  /** A block that is given back. */
  lemma {:induction false} GivenBack(nodes: Nodes, heads: seq<Ptr>, source: map<Ptr, Source>, rank: map<Ptr, real>,
                                     top: real, live: map<Ptr, nat>,
                                     h: Ptr)
    requires ListsOk(nodes, heads, source, rank, top, live) && h in live
    ensures h in nodes && !nodes[h].free && ListsOk(nodes, heads, source, rank, top, live - {h})
    ensures nodes[h].next != NULL ==> nodes[h].next in nodes
  {
  }

  /** `merge`, which leaves the last block of a list as it is. */
  function AfterMerge(nodes: Nodes, h: Ptr): Nodes
    requires h in nodes && (nodes[h].next != NULL ==> nodes[h].next in nodes)
  {
    var p := nodes[h].next;
    if p == NULL then nodes
    else if nodes[p].free && h.page == p.page then Merged(nodes, h, p)
    else nodes[h := nodes[h].(free := true)]
  }

  /** `kalloc` takes `size` bytes of the block at `h`. */
  function AfterTake(nodes: Nodes, h: Ptr, size: nat): Nodes
    requires h in nodes && size <= nodes[h].size
  {
    if nodes[h].size - size > HEADER then Split(nodes, h, size) else nodes[h := nodes[h].(size := size, free := false)]
  }

  /** Cutting a block and merging it again gives the block back, whole. */
  lemma {:induction false} SplitBack(nodes: Nodes, h: Ptr, size: nat)
    requires h in nodes && size < nodes[h].size - HEADER && h.page > 0
    requires Ptr(h.page, h.off + HEADER + size) !in nodes
    ensures var taken := AfterTake(nodes, h, size);
            && !taken[h].free && taken[h].size == size && taken[h].next in taken && taken[taken[h].next].free
            && AfterMerge(taken, h) == nodes[h := nodes[h].(free := true)]
  {
  }

  /** Where the loop of `kalloc` stops, from header `h` on, and the headers by then. It goes over `left` only. */
  ghost function Found(nodes: Nodes, h: Ptr, size: nat, left: set<Ptr>): (r: (Nodes, Ptr))
    ensures r.1 != NULL ==> r.1 in r.0 && r.0[r.1].free && r.0[r.1].size >= size
    decreases left
  {
    if h == NULL || h !in left || h !in nodes || (nodes[h].next != NULL && nodes[h].next !in nodes) then (nodes, NULL)
    else if nodes[h].free then
      var merged := AfterMerge(nodes, h);
      if merged[h].size >= size then (merged, h) else Found(merged, merged[h].next, size, left - {h})
    else Found(nodes, nodes[h].next, size, left - {h})
  }

  /** One round of the loop. */
  lemma {:induction false} FoundOver(nodes: Nodes, h: Ptr, size: nat, left: set<Ptr>)
    requires h != NULL ==> h in left && h in nodes && (nodes[h].next != NULL ==> nodes[h].next in nodes)
    ensures Found(nodes, h, size, left) ==
            if h == NULL then (nodes, NULL)
            else
              var nodes' := if nodes[h].free then AfterMerge(nodes, h) else nodes;
              if nodes[h].free && nodes'[h].size >= size then (nodes', h)
              else Found(nodes', nodes'[h].next, size, left - {h})
  {
  }

  datatype Outcome = Outcome(nodes: Nodes, heads: seq<Ptr>, at: Ptr, fromPage: bool)

  /** `kalloc` of `size` bytes, a multiple of 8; the next page is the one of header `p`. */
  ghost function AfterKalloc(nodes: Nodes, heads: seq<Ptr>, c: nat, size: nat, p: Ptr): Outcome
    requires c < |heads| && size <= PAGE_SIZE - HEADER
  {
    var (nodes', h) := Found(nodes, heads[c], size, nodes.Keys);
    if h != NULL then Outcome(AfterTake(nodes', h, size), heads, h, false)
    else Outcome(AfterTake(Pushed(nodes', p, heads[c]), p, size), heads[c := p], p, true)
  }

  /** Two requests that fit in a page together take one page of an empty list, and lie one behind the other. */
  lemma {:induction false} TwoInOnePage(nodes: Nodes, heads: seq<Ptr>, c: nat, p: Ptr, a: nat, b: nat)
    requires c < |heads| && heads[c] == NULL && p.page > 0 && p.off == 0 && b > 0
    requires Rounded(a) + Rounded(b) + 32 <= 4096
    ensures var one := AfterKalloc(nodes, heads, c, Rounded(a), p);
            && one.fromPage && BlockOf(one.at) == Ptr(p.page, 16)
            && forall p' :: var two := AfterKalloc(one.nodes, one.heads, c, Rounded(b), p');
                 !two.fromPage && BlockOf(two.at) == Ptr(p.page, 32 + Rounded(a))
  {
    var size, q := Rounded(a), Ptr(p.page, 16 + Rounded(a));
    assert size % 8 == 0 && Rounded(b) >= 8;
    var one := AfterKalloc(nodes, heads, c, size, p);
    assert one.nodes[p] == Node(q, size, false) && one.nodes[q] == Node(NULL, 4064 - size, true);
    var left := one.nodes.Keys;
    assert Found(one.nodes, q, Rounded(b), left - {p}) == (one.nodes, q);
    assert Found(one.nodes, p, Rounded(b), left) == (one.nodes, q);
  }

  /** A request that fits in the first block of a list, or would if it were merged with the free one behind it in
      the page, is served there. */
  lemma {:induction false} FirstBlockFits(nodes: Nodes, heads: seq<Ptr>, c: nat, page: Ptr, size: nat)
    requires c < |heads| && heads[c] != NULL && heads[c] in nodes && size <= PAGE_SIZE - HEADER
    requires var n := nodes[heads[c]];
             && n.free && (n.next != NULL ==> n.next in nodes)
             && (n.size >= size || (n.next != NULL && n.next.page == heads[c].page && nodes[n.next].free
                                    && n.size + 16 + nodes[n.next].size >= size))
    ensures var out := AfterKalloc(nodes, heads, c, size, page); out.at == heads[c] && !out.fromPage
  {
    FoundOver(nodes, heads[c], size, nodes.Keys);
  }

  /** The headers `seen` lead from one to the next, up to `h`, and no free block behind them has `size`
      bytes. */
  ghost predicate TooSmall(nodes: Nodes, size: nat, seen: set<Ptr>, h: Ptr) {
    forall a :: a in seen ==>
      a in nodes && (nodes[a].next == h || nodes[a].next in seen) && (nodes[a].free ==> nodes[a].size < size)
  }

  /** The header `h` comes after all of `seen`. */
  ghost predicate Behind(rank: map<Ptr, real>, seen: set<Ptr>, h: Ptr) {
    forall a :: a in seen ==> a in rank && (h != NULL ==> h in rank && rank[h] < rank[a])
  }

  lemma {:induction false} SeenNext(nodes: Nodes, rank: map<Ptr, real>, size: nat, seen: set<Ptr>, h: Ptr)
    requires TooSmall(nodes, size, seen, h) && Behind(rank, seen, h) && h != NULL && h in nodes && h in rank
    requires nodes[h].free ==> nodes[h].size < size
    requires var p := nodes[h].next; p != NULL ==> p in rank && rank[p] < rank[h]
    ensures TooSmall(nodes, size, seen + {h}, nodes[h].next) && Behind(rank, seen + {h}, nodes[h].next) && h !in seen
  {
  }

  lemma {:induction false} MergeKeeps(nodes: Nodes, rank: map<Ptr, real>, top: real, size: nat, seen: set<Ptr>, h: Ptr)
    requires Ranked(nodes, rank, top) && TooSmall(nodes, size, seen, h) && h in nodes
    requires nodes[h].next != NULL ==> nodes[h].next in nodes
    requires Behind(rank, seen, h) && h in rank && h != NULL
    ensures TooSmall(AfterMerge(nodes, h), size, seen, h) && AfterMerge(nodes, h).Keys <= nodes.Keys
    ensures nodes[h].free ==> h in AfterMerge(nodes, h) && AfterMerge(nodes, h)[h].free
  {
  }

  /** `kalloc` and then `kfree` on an empty list: a page is taken, and it can be used again if and only if the
      block was split. Otherwise it is the last of the list, which `merge` leaves as it is, and no later search
      of the list finds anything, whatever the size. */
  lemma {:induction false} LastBlockLost(p: Ptr, size: nat, again: nat)
    requires p.page > 0 && size <= PAGE_SIZE - HEADER
    ensures Rounded(size) <= PAGE_SIZE - HEADER
    ensures var taken := AfterTake(Pushed(map[], p, NULL), p, Rounded(size));
            && p in taken && (taken[p].next != NULL ==> taken[p].next in taken)
            && var freed := AfterMerge(taken, p);
               && (freed[p].free <==> PAGE_SIZE - HEADER - Rounded(size) > HEADER)
               && (freed[p].free ==> freed == Pushed(map[], p, NULL))
               && (!freed[p].free ==> TooSmall(freed, again, {p}, NULL))
  {
    assert Rounded(size) % 8 == 0 && (PAGE_SIZE - HEADER) % 8 == 0;
    var page := Pushed(map[], p, NULL);
    assert page[p] == Node(NULL, PAGE_SIZE - HEADER, true);
    if PAGE_SIZE - HEADER - Rounded(size) > HEADER { SplitBack(page, p, Rounded(size)); }
  }

  ghost predicate InPages(nodes: Nodes, held: set<nat>) {
    forall a :: a in nodes ==> a.page in held
  }

  /** The result of `kalloc`: the block, no page for it, or a header written behind the end of a page. */
  datatype Allocation = At(block: Ptr) | NoPage | Overrun

  class Memory {
    const pages: PageAllocator
    var nodes: Nodes
    /** `free[4]`, one list for every CPU. */
    var heads: seq<Ptr>

    ghost var source: map<Ptr, Source>
    ghost var rank: map<Ptr, real>
    ghost var top: real
    /** The pages of the heap. */
    ghost var held: set<nat>
    /** The blocks that have been given out, by their headers, and the sizes asked for. */
    ghost var live: map<Ptr, nat>

    ghost predicate Lists()
      reads this
    {
      ListsOk(nodes, heads, source, rank, top, live)
    }

    /** The heap has its pages for itself. */
    ghost predicate Owns()
      reads this, pages
    {
      pages.Valid() && held !! pages.idle && InPages(nodes, held)
    }

    constructor (pages: PageAllocator, cpus: nat)
      requires pages.Valid()
      ensures Lists() && Owns() && this.pages == pages && nodes == map[] && live == map[] && |heads| == cpus
    {
      this.pages := pages;
      nodes := map[];
      heads := seq(cpus, _ => NULL);
      source, rank, top, held, live := map[], map[], 0.0, {}, map[];
    }

    /** `merge` */
    method Merge(h: Ptr)
      requires Lists() && h in nodes && h !in live
      modifies this`nodes, this`source
      ensures Lists() && h in nodes && nodes == AfterMerge(old(nodes), h)
      ensures var n, p := old(nodes)[h], old(nodes)[h].next;
              if p == NULL then nodes == old(nodes)
              else if old(nodes)[p].free && p.page == h.page then
                nodes == (old(nodes) - {p})[h := Node(old(nodes)[p].next, n.size + 16 + old(nodes)[p].size, true)]
              else nodes == old(nodes)[h := Node(p, n.size, true)]
    {
      hide ListsOk;
      AtHeader(nodes, heads, source, rank, top, live, h);
      var p := nodes[h].next;
      if p == NULL {
        return;
      }
      if nodes[p].free && h.page == p.page {
        MergedOk(nodes, heads, source, rank, top, live, h);
        source := if nodes[p].next == NULL then source else source[nodes[p].next := After(h)];
        nodes := Merged(nodes, h, p);
      } else {
        ResizedOk(nodes, heads, source, rank, top, live, h, nodes[h].(free := true));
        nodes := nodes[h := nodes[h].(free := true)];
      }
    }

    /** The loop of `kalloc`: the first free block that is, or becomes by merging, large enough; NULL
        only when the list, whose headers are `seen`, has none. */
    method Search(c: nat, size: nat) returns (h: Ptr, ghost seen: set<Ptr>)
      requires Lists() && c < |heads|
      modifies this`nodes, this`source
      ensures Lists() && nodes.Keys <= old(nodes).Keys
      ensures h != NULL ==> h in nodes && nodes[h].free && nodes[h].size >= size && h !in live
      ensures TooSmall(nodes, size, seen, h) && (heads[c] == h || heads[c] in seen)
      ensures (nodes, h) == Found(old(nodes), heads[c], size, old(nodes).Keys)
    {
      hide ListsOk, AfterMerge, Found;
      h := heads[c];
      seen := {};
      assert old(nodes).Keys - {} == old(nodes).Keys;
      if h != NULL { HeadIn(nodes, heads, source, rank, top, live, c); }
      while h != NULL
        invariant Lists() && nodes.Keys <= old(nodes).Keys && (h == NULL || h in nodes)
        invariant Behind(rank, seen, h) && TooSmall(nodes, size, seen, h) && (heads[c] == h || heads[c] in seen)
        invariant Found(nodes, h, size, old(nodes).Keys - seen) == Found(old(nodes), heads[c], size, old(nodes).Keys)
        decreases nodes.Keys - seen
      {
        AtHeader(nodes, heads, source, rank, top, live, h);
        FoundOver(nodes, h, size, old(nodes).Keys - seen);
        if nodes[h].free {
          MergeKeeps(nodes, rank, top, size, seen, h);
          Merge(h);
          AtHeader(nodes, heads, source, rank, top, live, h);
          if nodes[h].size >= size {
            break;
          }
        }
        SeenNext(nodes, rank, size, seen, h);
        assert old(nodes).Keys - (seen + {h}) == old(nodes).Keys - seen - {h};
        seen := seen + {h};
        h := nodes[h].next;
      }
      if h == NULL { FoundOver(nodes, h, size, old(nodes).Keys - seen); }
    }

    /** `kalloc` puts a new page in front of a list. */
    method AddPage(c: nat) returns (r: Option<Ptr>)
      requires Lists() && Owns() && c < |heads|
      modifies this`nodes, this`heads, this`source, this`rank, this`top, this`held, pages
      ensures Lists() && Owns()
      ensures r.None? <==> old(pages.stack) == []
      ensures r.None? ==> pages.stack == [] && nodes == old(nodes) && heads == old(heads)
      ensures r.Some? ==> r.value.off == 0 && r.value !in live && r.value !in old(nodes)
      ensures r.Some? ==> heads == old(heads)[c := r.value] && nodes == Pushed(old(nodes), r.value, old(heads)[c])
      ensures r.Some? ==> r.value.page == old(pages.stack)[0] && pages.stack == old(pages.stack)[1..]
    {
      hide ListsOk;
      var pg := pages.Alloc();
      if pg.None? {
        return None;
      }
      var p := Ptr(pg.value, 0);
      var nodes', heads' := Pushed(nodes, p, heads[c]), heads[c := p];
      ghost var source1 := if heads[c] == NULL then source else source[heads[c] := After(p)];
      ghost var source', rank', held' := source1[p := Head(c)], rank[p := top], held + {pg.value};
      assert ListsOk(nodes', heads', source', rank', top + 1.0, live) && p !in live by {
        PushedOk(nodes, heads, source, rank, top, live, c, p);
      }
      assert InPages(nodes', held');
      nodes, heads, source, rank, top, held := nodes', heads', source', rank', top + 1.0, held';
      r := Some(p);
    }

    /** `kalloc` cuts `size` bytes off a free block, with a new header if the rest has room for one. */
    method Take(h: Ptr, size: nat, ghost asked: nat)
      requires Lists() && h in nodes && h !in live && asked <= size <= nodes[h].size && size % 8 == 0
      modifies this`nodes, this`source, this`rank, this`live
      ensures Lists() && live == old(live)[h := asked] && nodes == AfterTake(old(nodes), h, size)
      ensures var n, p := old(nodes)[h], Ptr(h.page, h.off + 16 + size);
              if n.size - size > 16 then
                p !in old(nodes) && nodes == old(nodes)[p := Node(n.next, n.size - size - 16, true)][h := Node(p,
                  size, false)]
              else nodes == old(nodes)[h := Node(n.next, size, false)]
      ensures InPages(old(nodes), held) ==> InPages(nodes, held)
    {
      hide ListsOk;
      AtHeader(nodes, heads, source, rank, top, live, h);
      if nodes[h].size - size > HEADER {
        ghost var p, q := Ptr(h.page, h.off + HEADER + size), nodes[h].next;
        ghost var source1, rank' := source[p := After(h)], rank[p := RankAfter(nodes, rank, h)];
        ghost var source' := if q == NULL then source1 else source1[q := After(p)];
        var nodes' := Split(nodes, h, size);
        assert ListsOk(nodes', heads, source', rank', top, live[h := asked]) && p !in nodes by {
          SplitOk(nodes, heads, source, rank, top, live, h, size, asked);
        }
        nodes, source, rank, live := nodes', source', rank', live[h := asked];
      } else {
        var nodes' := nodes[h := nodes[h].(size := size, free := false)];
        assert ListsOk(nodes', heads, source, rank, top, live[h := asked]) by {
          TakenOk(nodes, heads, source, rank, top, live, h, size, asked);
        }
        nodes, live := nodes', live[h := asked];
      }
    }

    /** `kalloc` finds a block with at least `size` bytes; a new page is taken only when the list, whose
        headers are `seen`, has no such block. */
    method Find(c: nat, size: nat) returns (r: Option<Ptr>, ghost seen: set<Ptr>)
      requires Lists() && Owns() && c < |heads|
      modifies this`nodes, this`heads, this`source, this`rank, this`top, this`held, pages
      ensures Lists() && Owns()
      ensures r.None? ==> old(pages.stack) == []
      ensures r.Some? ==> r.value in nodes && r.value !in live
      ensures r.Some? ==> (nodes[r.value].size >= size <==> size <= PAGE_SIZE - HEADER)
      ensures size > PAGE_SIZE - HEADER ==> (r.Some? <==> old(pages.stack) != []) && (r.Some? ==> r.value.off == 0)
      ensures r.Some? ==>
        var (nodes', h) := Found(old(nodes), old(heads)[c], size, old(nodes).Keys);
        if h != NULL then
          r.value == h && nodes == nodes' && heads == old(heads) && pages.stack == old(pages.stack)
        else
          && old(pages.stack) != [] && r.value == Ptr(old(pages.stack)[0], 0) && pages.stack == old(pages.stack)[1..]
          && nodes == Pushed(nodes', r.value, old(heads)[c]) && heads == old(heads)[c := r.value]
      ensures pages.stack != old(pages.stack) ==>
          TooSmall(nodes, size, seen, NULL) && (old(heads)[c] == NULL || old(heads)[c] in seen)
    {
      hide ListsOk, Found;
      var b;
      b, seen := Search(c, size);
      if b != NULL {
        SizeBound(nodes, heads, source, rank, top, live, b);
        return Some(b), seen;
      }
      r := AddPage(c);
    }

    /** `kalloc`: a block that was not in use, or nothing when there is no page left. Sizes that no page has room
        for get a fresh page all the same, and the code goes on to write a header behind it. */
    method Kalloc(c: nat, size: nat) returns (r: Allocation, ghost h: Ptr)
      requires Lists() && Owns() && c < |heads|
      modifies this, pages
      ensures Lists() && Owns()
      ensures r.NoPage? ==> live == old(live) && old(pages.stack) == []
      ensures r.Overrun? <==> size > PAGE_SIZE - HEADER && old(pages.stack) != []
      ensures r.Overrun? ==> live == old(live) && h in nodes && h.off == 0
      ensures r.At? ==> r.block == BlockOf(h) && h !in old(live) && live == old(live)[h := size]
      ensures r.At? <==> size <= PAGE_SIZE - HEADER && !r.NoPage?
      ensures r.At? ==>
        var page := if old(pages.stack) == [] then NULL else Ptr(old(pages.stack)[0], 0);
        var out := AfterKalloc(old(nodes), old(heads), c, Rounded(size), page);
        && nodes == out.nodes && heads == out.heads && h == out.at
        && (if out.fromPage then old(pages.stack) != [] && pages.stack == old(pages.stack)[1..]
            else pages.stack == old(pages.stack))
    {
      hide ListsOk, Found;
      RoundedFits(size);
      var b, _ := Find(c, Rounded(size));
      if b.None? {
        return NoPage, NULL;
      }
      h := b.value;
      if nodes[b.value].size < Rounded(size) {
        return Overrun, h;
      }
      Take(b.value, Rounded(size), size);
      r := At(BlockOf(b.value));
    }

    /** `kfree` of a block that is in use. It can be used again exactly if it was not the last of
        its list, because `merge` leaves that one as it is. */
    method Kfree(p: Ptr, ghost header: Ptr)
      requires Lists() && Owns() && header in live && p == BlockOf(header)
      modifies this
      ensures Lists() && Owns() && live == old(live) - {header} && nodes == AfterMerge(old(nodes), header)
      ensures header in nodes && (nodes[header].free <==> old(nodes)[header].next != NULL)
    {
      hide ListsOk;
      var h := Ptr(p.page, p.off - HEADER);
      GivenBack(nodes, heads, source, rank, top, live, h);
      live := live - {h};
      Merge(h);
    }
  }
}
