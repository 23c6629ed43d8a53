/**
The run queues of `src/kernel/sched.c`: one for every container, with processes and groups
(containers below it), and the search that `find_proc` makes through them, which moves the
groups it goes through to the back.
*/
module SchedQueues {
  import opened Basics

  datatype ProcState = Unused | Runnable | Running | Sleeping | DeepSleeping | Zombie

  datatype Proc = Proc(state: ProcState, container: nat, killed: bool, idle: bool)

  /** An entry of a queue, the first one next to the head. */
  datatype Item = P(pid: nat) | G(group: nat)

  type Procs = map<nat, Proc>
  type Queue = seq<Item>
  type Queues = map<nat, Queue>

  /** Containers form a tree: ranks fall from a container to the groups in its queue. */
  ghost predicate Tree(procs: Procs, queues: Queues, rank: map<nat, nat>) {
    && (forall c :: c in queues ==> c in rank)
    && (forall c, i :: c in queues && 0 <= i < |queues[c]| ==> ItemOk(procs, queues, rank, c, queues[c][i]))
  }

  ghost predicate ItemOk(procs: Procs, queues: Queues, rank: map<nat, nat>, c: nat, x: Item)
    requires c in rank
  {
    match x
    case P(p) => p in procs && !procs[p].idle
    case G(g) => g in queues && g in rank && rank[g] < rank[c]
  }

  // ----- lists

  function MoveToBack(q: Queue, i: nat): Queue
    requires i < |q|
  {
    q[..i] + q[i + 1..] + [q[i]]
  }

  ghost predicate NoDups(q: Queue) {
    forall i, j :: 0 <= i < j < |q| ==> q[i] != q[j]
  }

  ghost predicate SameItems(q: Queue, q': Queue) {
    NoDups(q') && forall x :: x in q' <==> x in q
  }

  lemma {:induction false} MovedToBack(q: Queue, i: nat)
    requires NoDups(q) && i < |q|
    ensures SameItems(q, MoveToBack(q, i))
  {
    var r := MoveToBack(q, i);
    forall k | 0 <= k < |q| ensures q[k] in r {
      if k < i { assert r[k] == q[k]; } else if k > i { assert r[k - 1] == q[k]; } else { assert r[|q| - 1] == q[i]; }
    }
  }

  // ----- the search

  datatype Pick = Pick(proc: Option<nat>, queues: Queues)

  /** `find_proc` on the queue of container `c`, from position `i` on. */
  ghost function Find(procs: Procs, queues: Queues, rank: map<nat, nat>, c: nat, i: nat): (r: Pick)
    requires Tree(procs, queues, rank) && c in queues && i <= |queues[c]|
    ensures r.proc.None? ==> r.queues == queues
    ensures r.queues.Keys == queues.Keys
    ensures forall d :: d in queues && rank[c] < rank[d] ==> r.queues[d] == queues[d]
    ensures r.proc.Some? ==> r.proc.value in procs && procs[r.proc.value].state == Runnable && !procs[r.proc.value].idle
    decreases rank[c], |queues[c]| - i
  {
    if i == |queues[c]| then Pick(None, queues)
    else
      match queues[c][i]
      case P(p) =>
        assert ItemOk(procs, queues, rank, c, queues[c][i]);
        if procs[p].state == Runnable then Pick(Some(p), queues) else Find(procs, queues, rank, c, i + 1)
      case G(g) =>
        assert ItemOk(procs, queues, rank, c, queues[c][i]);
        var r := Find(procs, queues, rank, g, 0);
        if r.proc.Some? then Pick(r.proc, r.queues[c := MoveToBack(queues[c], i)])
          else Find(procs, queues, rank, c, i + 1)
  }

  /** The search only reorders queues. */
  lemma {:induction false} FindKeepsItems(procs: Procs, queues: Queues, rank: map<nat, nat>, c: nat, i: nat)
    requires Tree(procs, queues, rank) && c in queues && i <= |queues[c]|
    requires forall d :: d in queues ==> NoDups(queues[d])
    ensures forall d :: d in queues ==> SameItems(queues[d], Find(procs, queues, rank, c, i).queues[d])
    decreases rank[c], |queues[c]| - i
  {
    if i < |queues[c]| {
      var x := queues[c][i];
      assert ItemOk(procs, queues, rank, c, x);
      if x.G? {
        FindKeepsItems(procs, queues, rank, x.group, 0);
        MovedToBack(queues[c], i);
      }
      FindKeepsItems(procs, queues, rank, c, i + 1);
    }
  }

  /** A search without a result has seen every entry. */
  lemma {:induction false} FindNone(procs: Procs, queues: Queues, rank: map<nat, nat>, c: nat, i: nat, j: nat)
    requires Tree(procs, queues, rank) && c in queues && i <= j < |queues[c]|
    requires Find(procs, queues, rank, c, i).proc.None?
    ensures ItemOk(procs, queues, rank, c, queues[c][j])
    ensures match queues[c][j]
            case P(p) => procs[p].state != Runnable
            case G(g) => Find(procs, queues, rank, g, 0).proc.None?
    decreases j - i
  {
    assert ItemOk(procs, queues, rank, c, queues[c][i]);
    if i < j { FindNone(procs, queues, rank, c, i + 1, j); }
  }

  /** A way down the tree of containers, each queued in the one before. */
  ghost predicate Leads(queues: Queues, path: seq<nat>) {
    && path != [] && (forall i :: 0 <= i < |path| ==> path[i] in queues)
    && forall i :: 0 <= i < |path| - 1 ==> G(path[i + 1]) in queues[path[i]]
  }

  /** Nothing is found only if nothing below the container is runnable. */
  lemma {:induction false} NoneRunnable(procs: Procs, queues: Queues, rank: map<nat, nat>, path: seq<nat>, p: nat)
    requires Tree(procs, queues, rank) && Leads(queues, path) && P(p) in queues[path[|path| - 1]]
    requires Find(procs, queues, rank, path[0], 0).proc.None?
    ensures p in procs && procs[p].state != Runnable
    decreases |path|
  {
    var q := queues[path[0]];
    if |path| == 1 {
      var j :| 0 <= j < |q| && q[j] == P(p);
      FindNone(procs, queues, rank, path[0], 0, j);
    } else {
      assert G(path[1]) in q;
      var j :| 0 <= j < |q| && q[j] == G(path[1]);
      FindNone(procs, queues, rank, path[0], 0, j);
      NoneRunnable(procs, queues, rank, path[1..], p);
    }
  }

  /** Container `c` is queued, through others, below `top`. */
  ghost predicate InTree(queues: Queues, top: nat, c: nat) {
    exists path :: Leads(queues, path) && path[0] == top && path[|path| - 1] == c
  }

  /** What is found is in the queue of a container below. */
  lemma {:induction false} FindPath(procs: Procs, queues: Queues, rank: map<nat, nat>, c: nat, i: nat)
    returns (path: seq<nat>)
    requires Tree(procs, queues, rank) && c in queues && i <= |queues[c]| && Find(procs, queues, rank, c, i).proc.Some?
    ensures Leads(queues, path) && path[0] == c
    ensures P(Find(procs, queues, rank, c, i).proc.value) in queues[path[|path| - 1]]
    decreases rank[c], |queues[c]| - i
  {
    var x := queues[c][i];
    assert ItemOk(procs, queues, rank, c, x);
    if x.P? && procs[x.pid].state == Runnable {
      path := [c];
    } else if x.G? && Find(procs, queues, rank, x.group, 0).proc.Some? {
      var p := FindPath(procs, queues, rank, x.group, 0);
      path := [c] + p;
    } else {
      path := FindPath(procs, queues, rank, c, i + 1);
    }
  }

  // ----- how long a process waits

  /** Entries that can be picked: groups and runnable processes. */
  function Counts(procs: Procs, x: Item): nat {
    if x.G? || (x.pid in procs && procs[x.pid].state == Runnable) then 1 else 0
  }

  /** How many such entries are ahead of `x`. */
  function Ahead(procs: Procs, q: Queue, x: Item): nat {
    if q == [] || q[0] == x then 0 else Counts(procs, q[0]) + Ahead(procs, q[1..], x)
  }

  lemma {:induction false} AheadAppended(procs: Procs, q: Queue, x: Item, y: Item)
    requires x in q
    ensures Ahead(procs, q + [y], x) == Ahead(procs, q, x)
    decreases |q|
  {
    assert (q + [y])[0] == q[0];
    if q[0] != x {
      assert (q + [y])[1..] == q[1..] + [y];
      AheadAppended(procs, q[1..], x, y);
    }
  }

  lemma {:induction false} MovedTail(q: Queue, i: nat)
    requires 0 < i < |q|
    ensures MoveToBack(q, i)[0] == q[0] && MoveToBack(q, i)[1..] == MoveToBack(q[1..], i - 1)
  {
  }

  lemma {:induction false} Later(q: Queue, i: nat, x: Item)
    requires i < |q| && x in q[i + 1..] && x !in q[..i + 1]
    ensures q[0] != x && (i > 0 ==> x in q[1..][i..] && x !in q[1..][..i] && q[1..][i - 1] == q[i])
  {
    assert q[0] in q[..i + 1];
    if i > 0 { assert q[1..][i..] == q[i + 1..] && q[1..][..i] == q[1..i + 1]; }
  }

  /** Moving an entry ahead of `x` to the back. */
  lemma {:induction false} AheadMoved(procs: Procs, q: Queue, i: nat, x: Item)
    requires i < |q| && x in q[i + 1..] && x !in q[..i + 1]
    ensures Ahead(procs, MoveToBack(q, i), x) + Counts(procs, q[i]) == Ahead(procs, q, x)
    decreases i
  {
    Later(q, i, x);
    if i == 0 {
      assert MoveToBack(q, 0) == q[1..] + [q[0]];
      AheadAppended(procs, q[1..], x, q[0]);
    } else {
      MovedTail(q, i);
      AheadMoved(procs, q[1..], i - 1, x);
    }
  }

  /** When fewer entries count, fewer are ahead. */
  lemma {:induction false} AheadFewer(procs: Procs, procs': Procs, q: Queue, x: Item)
    requires forall i :: 0 <= i < |q| ==> Counts(procs', q[i]) <= Counts(procs, q[i])
    ensures Ahead(procs', q, x) <= Ahead(procs, q, x)
    ensures forall i :: (0 <= i < |q| && x in q[i + 1..] && x !in q[..i + 1]
                         && Counts(procs', q[i]) < Counts(procs, q[i])) ==>
              Ahead(procs', q, x) < Ahead(procs, q, x)
    decreases |q|
  {
    if q != [] && q[0] != x {
      var r := q[1..];
      AheadFewer(procs, procs', r, x);
      forall i | 0 <= i < |q| && x in q[i + 1..] && x !in q[..i + 1] && Counts(procs', q[i]) < Counts(procs, q[i])
        ensures Ahead(procs', q, x) < Ahead(procs, q, x)
      {
        if i > 0 {
          assert r[i - 1] == q[i] && r[i..] == q[i + 1..] && r[..i] == q[1..i + 1];
        }
      }
    }
  }

  function SetState(procs: Procs, p: nat, state: ProcState): Procs
    requires p in procs
  {
    procs[p := procs[p].(state := state)]
  }

  /** Every pick from a container that is not `p` brings the runnable `p` nearer to the front. */
  lemma {:induction false} PickCloser(procs: Procs, queues: Queues, rank: map<nat, nat>, c: nat, i: nat, p: nat)
    requires Tree(procs, queues, rank) && c in queues && NoDups(queues[c])
    requires i <= |queues[c]| && P(p) in queues[c][i..] && p in procs && procs[p].state == Runnable
    ensures var r := Find(procs, queues, rank, c, i);
            && r.proc.Some?
            && (r.proc.value != p ==>
                  Ahead(SetState(procs, r.proc.value, Running), r.queues[c], P(p)) < Ahead(procs, queues[c], P(p)))
    decreases |queues[c]| - i
  {
    var q, x := queues[c], queues[c][i];
    var r := Find(procs, queues, rank, c, i);
    assert ItemOk(procs, queues, rank, c, x);
    if x != P(p) { assert q[i..] == [x] + q[i + 1..]; }
    if x.P? && procs[x.pid].state == Runnable {
      if x.pid != p {
        BehindOnly(q, i, P(p));
        AheadFewer(procs, SetState(procs, x.pid, Running), q, P(p));
      }
    } else if x.G? && Find(procs, queues, rank, x.group, 0).proc.Some? {
      BehindOnly(q, i, P(p));
      AheadMoved(procs, q, i, P(p));
      AheadFewer(procs, SetState(procs, r.proc.value, Running), MoveToBack(q, i), P(p));
    } else {
      PickCloser(procs, queues, rank, c, i + 1, p);
    }
  }

  lemma {:induction false} BehindOnly(q: Queue, i: nat, x: Item)
    requires NoDups(q) && i < |q| && x in q[i + 1..]
    ensures x !in q[..i + 1]
  {
  }

  /** The search from container `top` has its result from the queue of container `c`. */
  ghost predicate Through(procs: Procs, queues: Queues, rank: map<nat, nat>, top: nat, i: nat, c: nat)
    requires Tree(procs, queues, rank) && top in queues && i <= |queues[top]|
    decreases rank[top], |queues[top]| - i
  {
    || top == c
    || (i < |queues[top]| && ItemOk(procs, queues, rank, top, queues[top][i]) &&
        match queues[top][i]
        case P(p) => procs[p].state != Runnable && Through(procs, queues, rank, top, i + 1, c)
        case G(g) =>
          if Find(procs, queues, rank, g, 0).proc.Some? then Through(procs, queues, rank, g, 0, c)
          else Through(procs, queues, rank, top, i + 1, c))
  }

  /** What the search does to the queue of a container it goes through, and to others. */
  lemma {:induction false} FindThrough(procs: Procs, queues: Queues, rank: map<nat, nat>, top: nat, i: nat, c: nat)
    requires Tree(procs, queues, rank) && top in queues && i <= |queues[top]| && c in queues && (top == c ==> i == 0)
    requires Find(procs, queues, rank, top, i).proc.Some?
    ensures var r, f := Find(procs, queues, rank, top, i), Find(procs, queues, rank, c, 0);
            if Through(procs, queues, rank, top, i, c)
              then f.proc == r.proc && r.queues[c] == f.queues[c] else r.queues[c] == queues[c]
    decreases rank[top], |queues[top]| - i
  {
    if top != c {
      var x := queues[top][i];
      assert ItemOk(procs, queues, rank, top, x);
      if x.G? && Find(procs, queues, rank, x.group, 0).proc.Some? {
        FindThrough(procs, queues, rank, x.group, 0, c);
      } else if !(x.P? && procs[x.pid].state == Runnable) {
        FindThrough(procs, queues, rank, top, i + 1, c);
      }
    }
  }

  // ----- taking an entry out

  lemma {:induction false} WithoutItems(q: Queue, y: Item)
    requires NoDups(q)
    ensures NoDups(Without(q, y)) && forall x :: x in Without(q, y) <==> x in q && x != y
    decreases |q|
  {
    if q != [] {
      var r := q[1..];
      assert q == [q[0]] + r && NoDups(r) && q[0] !in r;
      WithoutItems(r, y);
      if q[0] != y { Prepended(Without(r, y), q[0]); }
    }
  }

  lemma {:induction false} Prepended(q: Queue, y: Item)
    requires NoDups(q) && y !in q
    ensures NoDups([y] + q) && forall x :: x in [y] + q <==> x in q || x == y
  {
  }

  lemma {:induction false} Appended(q: Queue, y: Item)
    requires NoDups(q) && y !in q
    ensures NoDups(q + [y]) && forall x :: x in q + [y] <==> x in q || x == y
  {
  }

  lemma {:induction false} AheadWithout(procs: Procs, q: Queue, x: Item, y: Item)
    requires x in q && x != y
    ensures x in Without(q, y) && Ahead(procs, Without(q, y), x) <= Ahead(procs, q, x)
    decreases |q|
  {
    if q[0] != x && q[0] != y {
      AheadWithout(procs, q[1..], x, y);
      assert ([q[0]] + Without(q[1..], y))[1..] == Without(q[1..], y);
    }
  }
}
