/**
The scheduler of `src/kernel/sched.c` in every interleaving over all CPUs: `_activate_proc`,
`activate_group` and `simple_sched`, each one step under the scheduler's lock.
*/
module Scheduler {
  import opened Basics
  import opened SchedQueues

  datatype Cpu = Cpu(cur: nat, idle: nat)

  datatype State = State(procs: Procs, queues: Queues, cpus: seq<Cpu>, panic: bool)

  /** All containers there will ever be: where each one hangs, and the root. Ranks fall downwards. */
  datatype Shape = Shape(root: nat, parent: map<nat, nat>, rank: map<nat, nat>)

  // ----- what every step keeps

  predicate Ready(x: Proc) { x.state == Runnable || x.state == Running }

  /** `x` may be in the queue of `c`: a process of that container that is ready, or a group. */
  predicate Belongs(t: Shape, procs: Procs, queues: Queues, c: nat, x: Item) {
    match x
    case P(p) => p in procs && !procs[p].idle && procs[p].container == c && Ready(procs[p])
    case G(g) => g in queues && g in t.parent && t.parent[g] == c && g in t.rank && c in t.rank && t.rank[g] < t.rank[c]
  }

  ghost predicate Queued(t: Shape, procs: Procs, queues: Queues) {
    && t.root in queues
    && (forall c :: c in queues ==> c in t.rank && NoDups(queues[c]))
    && (forall c, x :: c in queues && x in queues[c] ==> Belongs(t, procs, queues, c, x))
    && (forall p :: p in procs ==> procs[p].container in queues && (procs[p].idle ==> Ready(procs[p])))
    && (forall p :: p in procs && !procs[p].idle && Ready(procs[p]) ==> P(p) in queues[procs[p].container])
  }

  /** A CPU runs its idle process or one that is not idle; while it does not run its idle
      process, that one is runnable. */
  predicate CpuOk(procs: Procs, u: Cpu) {
    && u.cur in procs && procs[u.cur].state == Running && u.idle in procs && procs[u.idle].idle
    && (u.cur != u.idle ==> !procs[u.cur].idle && procs[u.idle].state == Runnable)
  }

  ghost predicate Cpus(procs: Procs, cpus: seq<Cpu>) {
    && (forall k :: 0 <= k < |cpus| ==> CpuOk(procs, cpus[k]))
    && (forall k, l :: 0 <= k < l < |cpus| ==> cpus[k].cur != cpus[l].cur && cpus[k].idle != cpus[l].idle)
  }

  ghost predicate Inv(t: Shape, s: State) {
    Queued(t, s.procs, s.queues) && Cpus(s.procs, s.cpus)
  }

  lemma {:induction false} QueuedTree(t: Shape, procs: Procs, queues: Queues)
    requires Queued(t, procs, queues)
    ensures Tree(procs, queues, t.rank)
  {
    forall c, i | c in queues && 0 <= i < |queues[c]| ensures ItemOk(procs, queues, t.rank, c, queues[c][i]) {
      assert Belongs(t, procs, queues, c, queues[c][i]);
    }
  }

  // ----- the steps

  /** `_activate_proc` wakes the process up. */
  predicate Wakes(x: Proc, onalert: bool) {
    x.state == Sleeping || x.state == Unused || (x.state == DeepSleeping && !onalert)
  }

  function Activate(s: State, p: nat, onalert: bool): State
    requires p in s.procs && s.procs[p].container in s.queues
  {
    var c := s.procs[p].container;
    if Wakes(s.procs[p], onalert)
      then s.(procs := SetState(s.procs, p, Runnable), queues := s.queues[c := [P(p)] + s.queues[c]])
    else s
  }

  function ActivateGroup(t: Shape, s: State, g: nat): State
    requires g in t.parent && t.parent[g] in s.queues
  {
    s.(queues := s.queues[t.parent[g] := [G(g)] + s.queues[t.parent[g]]])
  }

  /** The queue of a process that goes into state `new`. */
  function Left(q: Queue, p: nat, to: ProcState): Queue {
    if to == Runnable || to == Running then Without(q, P(p)) + [P(p)] else Without(q, P(p))
  }

  /** `update_this_state`, which leaves the idle process out of the queues. */
  function UpdateThis(s: State, u: Cpu, to: ProcState): State
    requires u.cur in s.procs && s.procs[u.cur].container in s.queues
  {
    var c := s.procs[u.cur].container;
    s.(procs := SetState(s.procs, u.cur, to),
       queues := if u.cur == u.idle then s.queues else s.queues[c := Left(s.queues[c], u.cur, to)])
  }

  /** `pick_next` */
  ghost function PickNext(t: Shape, s: State, u: Cpu): Pick
    requires Queued(t, s.procs, s.queues)
  {
    QueuedTree(t, s.procs, s.queues);
    if s.panic then Pick(None, s.queues) else Find(s.procs, s.queues, t.rank, t.root, 0)
  }

  function Next(u: Cpu, r: Pick): nat { if r.proc.Some? then r.proc.value else u.idle }

  /** `simple_sched` on a CPU whose process is not to be killed first. */
  ghost function Switch(t: Shape, s: State, k: nat, to: ProcState): State
    requires k < |s.cpus| && s.cpus[k].cur in s.procs && s.procs[s.cpus[k].cur].container in s.queues
    requires Queued(t, UpdateThis(s, s.cpus[k], to).procs, UpdateThis(s, s.cpus[k], to).queues)
    requires s.cpus[k].idle in s.procs
  {
    var u, s1 := s.cpus[k], UpdateThis(s, s.cpus[k], to);
    var r := PickNext(t, s1, u);
    var next := Next(u, r);
    State(SetState(s1.procs, next, Running), r.queues, s.cpus[k := u.(cur := next)], s.panic)
  }

  // ----- each step keeps the invariant

  /** One queue changes, and the state of one process of it. */
  lemma {:induction false} QueueChanged(t: Shape, procs: Procs, queues: Queues, p: nat, to: ProcState, q: Queue)
    requires Queued(t, procs, queues) && p in procs && !procs[p].idle && NoDups(q)
    requires forall x :: x in q <==>
        (x in queues[procs[p].container] && x != P(p)) || (x == P(p) && (to == Runnable || to == Running))
    ensures Queued(t, SetState(procs, p, to), queues[procs[p].container := q])
  {
    var c, procs', queues' := procs[p].container, SetState(procs, p, to), queues[procs[p].container := q];
    forall d, x | d in queues' && x in queues'[d] ensures Belongs(t, procs', queues', d, x) {
      assert x in queues[d] ==> Belongs(t, procs, queues, d, x);
    }
  }

  lemma {:induction false} ActivateKeeps(t: Shape, s: State, p: nat, onalert: bool)
    requires Inv(t, s) && p in s.procs
    ensures Inv(t, Activate(s, p, onalert))
  {
    if Wakes(s.procs[p], onalert) {
      var q := s.queues[s.procs[p].container];
      assert P(p) in q ==> Belongs(t, s.procs, s.queues, s.procs[p].container, P(p));
      Prepended(q, P(p));
      QueueChanged(t, s.procs, s.queues, p, Runnable, [P(p)] + q);
      var procs' := SetState(s.procs, p, Runnable);
      forall k | 0 <= k < |s.cpus| ensures CpuOk(procs', s.cpus[k]) { assert CpuOk(s.procs, s.cpus[k]); }
    }
  }

  lemma {:induction false} GroupKeeps(t: Shape, s: State, g: nat)
    requires Inv(t, s) && g in t.parent && t.parent[g] in s.queues && g in s.queues && G(g) !in s.queues[t.parent[g]]
    requires t.rank[g] < t.rank[t.parent[g]]
    ensures Inv(t, ActivateGroup(t, s, g))
  {
    var c := t.parent[g];
    var queues' := s.queues[c := [G(g)] + s.queues[c]];
    Prepended(s.queues[c], G(g));
    forall d, x | d in queues' && x in queues'[d] ensures Belongs(t, s.procs, queues', d, x) {
      if !(d == c && x == G(g)) { assert Belongs(t, s.procs, s.queues, d, x); }
    }
  }

  /** After `update_this_state`. */
  lemma {:induction false} UpdateKeeps(t: Shape, s: State, k: nat, to: ProcState)
    requires Inv(t, s) && k < |s.cpus| && to != Unused && (s.cpus[k].cur == s.cpus[k].idle ==> to == Runnable)
    ensures CpuOk(s.procs, s.cpus[k]) && s.procs[s.cpus[k].cur].container in s.queues
    ensures var s1 := UpdateThis(s, s.cpus[k], to); Queued(t, s1.procs, s1.queues)
  {
    var u := s.cpus[k];
    assert CpuOk(s.procs, u);
    if u.cur != u.idle {
      var q := s.queues[s.procs[u.cur].container];
      WithoutItems(q, P(u.cur));
      Appended(Without(q, P(u.cur)), P(u.cur));
      QueueChanged(t, s.procs, s.queues, u.cur, to, Left(q, u.cur, to));
    } else {
      IdleChanged(t, s.procs, s.queues, u.cur, to);
    }
  }

  lemma {:induction false} IdleChanged(t: Shape, procs: Procs, queues: Queues, p: nat, to: ProcState)
    requires Queued(t, procs, queues) && p in procs && procs[p].idle && (to == Runnable || to == Running)
    ensures Queued(t, SetState(procs, p, to), queues)
  {
    forall d, x | d in queues && x in queues[d] ensures Belongs(t, SetState(procs, p, to), queues, d, x) {
      assert Belongs(t, procs, queues, d, x);
    }
  }

  lemma {:induction false} ReorderKeeps(t: Shape, procs: Procs, queues: Queues, queues': Queues)
    requires Queued(t, procs, queues) && queues'.Keys == queues.Keys
    requires forall d :: d in queues ==> SameItems(queues[d], queues'[d])
    ensures Queued(t, procs, queues')
  {
    forall d, x | d in queues' && x in queues'[d] ensures Belongs(t, procs, queues', d, x) {
      assert SameItems(queues[d], queues'[d]);
      assert Belongs(t, procs, queues, d, x);
    }
    forall p | p in procs && !procs[p].idle && Ready(procs[p]) ensures P(p) in queues'[procs[p].container] {
      assert SameItems(queues[procs[p].container], queues'[procs[p].container]);
    }
  }

  lemma {:induction false} PickKeeps(t: Shape, s: State, u: Cpu)
    requires Queued(t, s.procs, s.queues)
    ensures Queued(t, s.procs, PickNext(t, s, u).queues)
  {
    QueuedTree(t, s.procs, s.queues);
    if !s.panic {
      FindKeepsItems(s.procs, s.queues, t.rank, t.root, 0);
      ReorderKeeps(t, s.procs, s.queues, PickNext(t, s, u).queues);
    }
  }

  lemma {:induction false} RunKeeps(t: Shape, procs: Procs, queues: Queues, p: nat)
    requires Queued(t, procs, queues) && p in procs && procs[p].state == Runnable
    ensures Queued(t, SetState(procs, p, Running), queues)
  {
    forall d, x | d in queues && x in queues[d] ensures Belongs(t, SetState(procs, p, Running), queues, d, x) {
      assert Belongs(t, procs, queues, d, x);
    }
  }

  lemma {:induction false} SwitchCpus(procs: Procs, cpus: seq<Cpu>, k: nat, to: ProcState, next: nat)
    requires Cpus(procs, cpus) && k < |cpus| && (cpus[k].cur == cpus[k].idle ==> to == Runnable) && to != Running
    requires var procs1 := SetState(procs, cpus[k].cur, to);
             next in procs1 && procs1[next].state == Runnable && (next == cpus[k].idle || !procs1[next].idle)
    ensures Cpus(SetState(SetState(procs, cpus[k].cur, to), next, Running), cpus[k := cpus[k].(cur := next)])
  {
    var procs2, cpus' := SetState(SetState(procs, cpus[k].cur, to), next, Running), cpus[k := cpus[k].(cur := next)];
    assert CpuOk(procs, cpus[k]);
    forall l | 0 <= l < |cpus| ensures CpuOk(procs2, cpus'[l]) && (l != k ==> cpus[l].cur != next) {
      assert CpuOk(procs, cpus[l]);
    }
  }

  // ----- actions and runs

  datatype Action =
    | Wake(p: nat, onalert: bool)
    | Contain(g: nat)
    | Group(g: nat)
    | Create(p: nat, container: nat)
    | Kill(p: nat)
    | Panic
    | Sched(k: nat, to: ProcState)

  /** What the rest of the kernel may do: an idle process only yields, and a container is
      entered into the queue above it once. */
  predicate Enabled(t: Shape, s: State, a: Action) {
    match a
    case Wake(p, _) => p in s.procs
    case Contain(g) => g !in s.queues && g in t.rank
    case Group(g) =>
      && g in t.parent && t.parent[g] in s.queues && g in s.queues && G(g) !in s.queues[t.parent[g]]
      && g in t.rank && t.parent[g] in t.rank && t.rank[g] < t.rank[t.parent[g]]
    case Create(p, c) => p !in s.procs && c in s.queues
    case Kill(p) => p in s.procs
    case Panic => true
    case Sched(k, to) =>
      k < |s.cpus| && to != Unused && to != Running && (s.cpus[k].cur == s.cpus[k].idle ==> to == Runnable)
  }

  /** `simple_sched` returns at once: the process is to be killed first. */
  predicate Stays(s: State, k: nat, to: ProcState) {
    k < |s.cpus| && s.cpus[k].cur in s.procs && s.procs[s.cpus[k].cur].killed && to != Zombie
  }

  /** The parts of the state that a switch needs. */
  ghost predicate MaySwitch(t: Shape, s: State, k: nat, to: ProcState) {
    && k < |s.cpus| && s.cpus[k].cur in s.procs && s.cpus[k].idle in s.procs
    && s.procs[s.cpus[k].cur].container in s.queues
    && Queued(t, UpdateThis(s, s.cpus[k], to).procs, UpdateThis(s, s.cpus[k], to).queues)
  }

  ghost predicate Step(t: Shape, s: State, a: Action, s': State) {
    && Enabled(t, s, a)
    && match a
       case Wake(p, onalert) => s.procs[p].container in s.queues && s' == Activate(s, p, onalert)
       case Contain(g) => s' == s.(queues := s.queues[g := []])
       case Group(g) => s' == ActivateGroup(t, s, g)
       case Create(p, c) => s' == s.(procs := s.procs[p := Proc(Unused, c, false, false)])
       case Kill(p) => s' == s.(procs := s.procs[p := s.procs[p].(killed := true)])
       case Panic => s' == s.(panic := true)
       case Sched(k, to) => if Stays(s, k, to) then s' == s else MaySwitch(t, s, k, to) && s' == Switch(t, s, k, to)
  }

  /** Both assertions of `simple_sched`: the process that stops was running, and the one that
      starts is runnable. */
  lemma {:induction false} Assertions(t: Shape, s: State, k: nat, to: ProcState)
    requires Inv(t, s) && Enabled(t, s, Sched(k, to))
    ensures s.cpus[k].cur in s.procs && s.procs[s.cpus[k].cur].state == Running && MaySwitch(t, s, k, to)
    ensures var s1 := UpdateThis(s, s.cpus[k], to);
            var next := Next(s.cpus[k], PickNext(t, s1, s.cpus[k]));
            next in s1.procs && s1.procs[next].state == Runnable && (next == s.cpus[k].idle || !s1.procs[next].idle)
  {
    UpdateKeeps(t, s, k, to);
  }

  lemma {:induction false} SwitchKeeps(t: Shape, s: State, k: nat, to: ProcState)
    requires Inv(t, s) && Enabled(t, s, Sched(k, to))
    ensures MaySwitch(t, s, k, to) && Inv(t, Switch(t, s, k, to))
  {
    Assertions(t, s, k, to);
    var u, s1 := s.cpus[k], UpdateThis(s, s.cpus[k], to);
    var next := Next(u, PickNext(t, s1, u));
    PickKeeps(t, s1, u);
    RunKeeps(t, s1.procs, PickNext(t, s1, u).queues, next);
    SwitchCpus(s.procs, s.cpus, k, to, next);
  }

  lemma {:induction false} CreateKeeps(t: Shape, s: State, p: nat, x: Proc)
    requires Inv(t, s) && x.container in s.queues
    requires if p in s.procs then x == s.procs[p].(killed := true) else x == Proc(Unused, x.container, false, false)
    ensures Inv(t, s.(procs := s.procs[p := x]))
  {
    var procs' := s.procs[p := x];
    forall c, y | c in s.queues && y in s.queues[c] ensures Belongs(t, procs', s.queues, c, y) {
      assert Belongs(t, s.procs, s.queues, c, y);
    }
    forall k | 0 <= k < |s.cpus| ensures CpuOk(procs', s.cpus[k]) { assert CpuOk(s.procs, s.cpus[k]); }
  }

  /** A new container, with an empty queue. */
  lemma {:induction false} ContainKeeps(t: Shape, s: State, g: nat)
    requires Inv(t, s) && g !in s.queues && g in t.rank
    ensures Inv(t, s.(queues := s.queues[g := []]))
  {
    var queues' := s.queues[g := []];
    forall c, y | c in queues' && y in queues'[c] ensures Belongs(t, s.procs, queues', c, y) {
      assert Belongs(t, s.procs, s.queues, c, y);
    }
  }

  /** In every step, whichever CPU takes it: each CPU's process is running, no two are the same,
      and a process that is not idle is in the queue of its container, once, exactly if it is
      runnable or running. */
  lemma {:induction false} StepKeeps(t: Shape, s: State, a: Action, s': State)
    requires Inv(t, s) && Step(t, s, a, s')
    ensures Inv(t, s')
  {
    match a
    case Wake(p, onalert) => ActivateKeeps(t, s, p, onalert);
    case Contain(g) => ContainKeeps(t, s, g);
    case Group(g) => GroupKeeps(t, s, g);
    case Create(p, c) => CreateKeeps(t, s, p, Proc(Unused, c, false, false));
    case Kill(p) => CreateKeeps(t, s, p, s.procs[p].(killed := true));
    case Panic =>
    case Sched(k, to) => SwitchKeeps(t, s, k, to);
  }

  /** The process of CPU `k` goes from one that goes into state `to`, to one that was runnable or to itself, and
      no other process or CPU changes. */
  ghost predicate Switched(s: State, k: nat, to: ProcState, s': State) {
    && k < |s.cpus| && |s'.cpus| == |s.cpus|
    && var p, next := s.cpus[k].cur, s'.cpus[k].cur;
       && p in s.procs && next in s.procs && s.procs[p].state == Running
       && (if p == next then to == Runnable else s.procs[next].state == Runnable)
       && (s.panic ==> next == s.cpus[k].idle)
       && s'.cpus == s.cpus[k := Cpu(next, s.cpus[k].idle)] && s'.panic == s.panic
       && s'.procs == s.procs[p := s.procs[p].(state := to)][next := s.procs[next].(state := Running)]
  }

  lemma {:induction false} SwitchEffect(t: Shape, s: State, k: nat, to: ProcState)
    requires Inv(t, s) && Enabled(t, s, Sched(k, to))
    ensures MaySwitch(t, s, k, to) && Switched(s, k, to, Switch(t, s, k, to))
  {
    assert CpuOk(s.procs, s.cpus[k]);
    Assertions(t, s, k, to);
    hide Inv, Queued, Cpus, Left, Find;
  }

  /** The life of a process: how it gets from one state to another. */
  predicate Lives(s: State, a: Action, s': State, p: nat)
    requires p in s.procs && p in s'.procs
  {
    var was, now := s.procs[p].state, s'.procs[p].state;
    match was
    case Unused | Sleeping => a.Wake? && a.p == p && now == Runnable
    case DeepSleeping => a.Wake? && a.p == p && !a.onalert && now == Runnable
    case Runnable => a.Sched? && a.k < |s'.cpus| && s'.cpus[a.k].cur == p && now == Running
    case Running => a.Sched? && a.k < |s.cpus| && s.cpus[a.k].cur == p && now == a.to
    case Zombie => false
  }

  /** An alert does not wake up from a deep sleep, and nothing wakes a zombie. */
  lemma {:induction false} LifeCycle(t: Shape, s: State, a: Action, s': State, p: nat)
    requires Inv(t, s) && Step(t, s, a, s') && p in s.procs
    ensures p in s'.procs && (s'.procs[p].state != s.procs[p].state ==> Lives(s, a, s', p))
    ensures s'.procs[p].container == s.procs[p].container && s'.procs[p].idle == s.procs[p].idle
    ensures s'.procs[p].killed <==> s.procs[p].killed || a == Kill(p)
  {
    hide Inv, Queued, Switch;
    if a.Sched? { SwitchLives(t, s, a.k, a.to, p); }
  }

  lemma {:induction false} SwitchLives(t: Shape, s: State, k: nat, to: ProcState, p: nat)
    requires Inv(t, s) && Enabled(t, s, Sched(k, to)) && p in s.procs
    ensures MaySwitch(t, s, k, to)
    ensures var s' := Switch(t, s, k, to);
            && p in s'.procs && (s'.procs[p].state != s.procs[p].state ==> Lives(s, Sched(k, to), s', p))
            && s'.procs[p] == s.procs[p].(state := s'.procs[p].state)
  {
    hide Inv, Enabled, MaySwitch, Switch;
    SwitchEffect(t, s, k, to);
  }

  function AheadOf(s: State, p: nat, c: nat): nat
    requires c in s.queues
  {
    Ahead(s.procs, s.queues[c], P(p))
  }

  /** `exit` leaves the CPU for good. */
  lemma {:induction false} Exited(t: Shape, s: State, k: nat, s': State)
    requires Inv(t, s) && Step(t, s, Sched(k, Zombie), s')
    ensures var p := s.cpus[k].cur; p in s'.procs && s'.procs[p].state == Zombie && s'.cpus[k].cur != p
  {
    SwitchEffect(t, s, k, Zombie);
  }

  /** A runnable process in the tree of containers. */
  ghost predicate Waiting(t: Shape, s: State, p: nat) {
    p in s.procs && !s.procs[p].idle && s.procs[p].state == Runnable && InTree(s.queues, t.root, s.procs[p].container)
  }

  /** Without panic, the idle process is chosen exactly if nothing in the tree is runnable. */
  lemma {:induction false} IdleChosen(t: Shape, s: State, u: Cpu)
    requires Queued(t, s.procs, s.queues) && !s.panic && u.idle in s.procs && s.procs[u.idle].idle
    ensures Next(u, PickNext(t, s, u)) == u.idle <==> forall p :: !Waiting(t, s, p)
  {
    QueuedTree(t, s.procs, s.queues);
    var r := PickNext(t, s, u);
    if r.proc.Some? {
      var path := FindPath(s.procs, s.queues, t.rank, t.root, 0);
      assert Belongs(t, s.procs, s.queues, path[|path| - 1], P(r.proc.value));
      assert Waiting(t, s, r.proc.value);
    } else {
      forall p ensures !Waiting(t, s, p) {
        if Waiting(t, s, p) {
          var path :| Leads(s.queues, path) && path[0] == t.root && path[|path| - 1] == s.procs[p].container;
          NoneRunnable(s.procs, s.queues, t.rank, path, p);
        }
      }
    }
  }

  /** The states `_activate_proc` is for: asleep, not yet started, or in a sleep that only an alert leaves alone. */
  predicate Dormant(state: ProcState, onalert: bool) {
    match state
    case Sleeping | Unused => true
    case DeepSleeping => !onalert
    case Running | Runnable | Zombie => false
  }

  /** Whoever is woken up is runnable and the first in its queue; with its container in the tree, it waits there. */
  lemma {:induction false} WokenWaits(t: Shape, s: State, p: nat, onalert: bool, s': State)
    requires Inv(t, s) && Step(t, s, Wake(p, onalert), s') && Dormant(s.procs[p].state, onalert)
    ensures p in s'.procs && s'.procs[p].state == Runnable && s'.procs[p].container == s.procs[p].container
    ensures s'.procs[p].container in s'.queues && AheadOf(s', p, s'.procs[p].container) == 0
    ensures InTree(s.queues, t.root, s.procs[p].container) ==> Waiting(t, s', p)
  {
    if InTree(s.queues, t.root, s.procs[p].container) {
      var path :| Leads(s.queues, path) && path[0] == t.root && path[|path| - 1] == s.procs[p].container;
      assert Leads(s'.queues, path);
    }
  }

  // ----- bounded waiting

  ghost predicate Run(t: Shape, ss: seq<State>, acts: seq<Action>) {
    && |ss| == |acts| + 1 && Inv(t, ss[0])
    && forall i :: 0 <= i < |acts| ==> Step(t, ss[i], acts[i], ss[i + 1])
  }

  /** The step enters something new into the queue of `c`. */
  predicate Enters(t: Shape, s: State, a: Action, c: nat) {
    match a
    case Wake(p, onalert) => p in s.procs && Wakes(s.procs[p], onalert) && s.procs[p].container == c
    case Group(g) => g in t.parent && t.parent[g] == c
    case _ => false
  }

  /** The step picks a process, and has it from the queue of `c`. */
  ghost predicate PicksFrom(t: Shape, s: State, a: Action, c: nat) {
    && a.Sched? && !Stays(s, a.k, a.to) && MaySwitch(t, s, a.k, a.to) && !s.panic
    && var s1 := UpdateThis(s, s.cpus[a.k], a.to);
       QueuedTree(t, s1.procs, s1.queues);
       PickNext(t, s1, s.cpus[a.k]).proc.Some? && Through(s1.procs, s1.queues, t.rank, t.root, 0, c)
  }

  /** The runnable process `p` is in the queue of `c`. */
  predicate WaitsIn(s: State, p: nat, c: nat) {
    p in s.procs && !s.procs[p].idle && s.procs[p].state == Runnable && s.procs[p].container == c && c in s.queues
  }

  /** Another process of the container leaves or goes to the back. */
  lemma {:induction false} UpdateCloser(t: Shape, s: State, k: nat, to: ProcState, p: nat, c: nat)
    requires Inv(t, s) && Enabled(t, s, Sched(k, to)) && WaitsIn(s, p, c)
    ensures CpuOk(s.procs, s.cpus[k]) && s.procs[s.cpus[k].cur].container in s.queues && s.cpus[k].cur != p
    ensures AheadOf(UpdateThis(s, s.cpus[k], to), p, c) <= AheadOf(s, p, c)
  {
    var u, q := s.cpus[k], s.queues[c];
    assert CpuOk(s.procs, u);
    var s1 := UpdateThis(s, u, to);
    if u.cur != u.idle && s.procs[u.cur].container == c {
      LeftCloser(s.procs, q, u.cur, to, p);
    } else {
      forall i | 0 <= i < |q| ensures Counts(s1.procs, q[i]) <= Counts(s.procs, q[i]) {
        assert Belongs(t, s.procs, s.queues, c, q[i]);
      }
      AheadFewer(s.procs, s1.procs, q, P(p));
    }
  }

  lemma {:induction false} LeftCloser(procs: Procs, q: Queue, r: nat, to: ProcState, p: nat)
    requires NoDups(q) && P(p) in q && r in procs && r != p
    ensures Ahead(SetState(procs, r, to), Left(q, r, to), P(p)) <= Ahead(procs, q, P(p))
  {
    var q', procs' := Without(q, P(r)), SetState(procs, r, to);
    WithoutItems(q, P(r));
    AheadWithout(procs, q, P(p), P(r));
    forall i | 0 <= i < |q'| ensures Counts(procs', q'[i]) <= Counts(procs, q'[i]) { assert q'[i] in q'; }
    AheadFewer(procs, procs', q', P(p));
    AheadAppended(procs', q', P(p), P(r));
  }

  /** The pick itself; `s` is the state after `update_this_state`. */
  lemma {:induction false} PickNearer(t: Shape, s: State, u: Cpu, p: nat, c: nat)
    requires Queued(t, s.procs, s.queues) && u.idle in s.procs && WaitsIn(s, p, c) && Next(u, PickNext(t, s, u)) != p
    ensures Tree(s.procs, s.queues, t.rank) && c in PickNext(t, s, u).queues
    ensures var r := PickNext(t, s, u);
            var ahead := Ahead(SetState(s.procs, Next(u, r), Running), r.queues[c], P(p));
            && ahead <= AheadOf(s, p, c)
            && (!s.panic && r.proc.Some? && Through(s.procs, s.queues, t.rank, t.root, 0, c) ==>
                  ahead < AheadOf(s, p, c))
  {
    QueuedTree(t, s.procs, s.queues);
    var r := PickNext(t, s, u);
    if !s.panic && r.proc.Some? {
      FindThrough(s.procs, s.queues, t.rank, t.root, 0, c);
      if Through(s.procs, s.queues, t.rank, t.root, 0, c) {
        assert s.queues[c][0..] == s.queues[c];
        PickCloser(s.procs, s.queues, t.rank, c, 0, p);
        return;
      }
    }
    AheadFewer(s.procs, SetState(s.procs, Next(u, r), Running), s.queues[c], P(p));
  }

  lemma {:induction false} SwitchCloser(t: Shape, s: State, k: nat, to: ProcState, p: nat, c: nat)
    requires Inv(t, s) && Enabled(t, s, Sched(k, to)) && !Stays(s, k, to) && WaitsIn(s, p, c)
    requires MaySwitch(t, s, k, to) && WaitsIn(Switch(t, s, k, to), p, c)
    ensures AheadOf(Switch(t, s, k, to), p, c) <= AheadOf(s, p, c)
    ensures PicksFrom(t, s, Sched(k, to), c) ==> AheadOf(Switch(t, s, k, to), p, c) < AheadOf(s, p, c)
  {
    UpdateCloser(t, s, k, to, p, c);
    PickNearer(t, UpdateThis(s, s.cpus[k], to), s.cpus[k], p, c);
  }

  lemma {:induction false} OthersStay(t: Shape, s: State, a: Action, s': State, p: nat, c: nat)
    requires Inv(t, s) && Step(t, s, a, s') && !a.Sched? && WaitsIn(s, p, c) && !Enters(t, s, a, c)
    ensures c in s'.queues && AheadOf(s', p, c) <= AheadOf(s, p, c)
  {
    var q := s.queues[c];
    forall i | 0 <= i < |q| ensures Counts(s'.procs, q[i]) <= Counts(s.procs, q[i]) {
      assert Belongs(t, s.procs, s.queues, c, q[i]);
    }
    AheadFewer(s.procs, s'.procs, q, P(p));
  }

  /** While `p` waits and nothing new comes into its queue, fewer and fewer are ahead of it. */
  lemma {:induction false} StepCloser(t: Shape, s: State, a: Action, s': State, p: nat, c: nat)
    requires Inv(t, s) && Step(t, s, a, s') && WaitsIn(s, p, c) && WaitsIn(s', p, c) && !Enters(t, s, a, c)
    ensures AheadOf(s', p, c) + (if PicksFrom(t, s, a, c) then 1 else 0) <= AheadOf(s, p, c)
  {
    if a.Sched? {
      if !Stays(s, a.k, a.to) { SwitchCloser(t, s, a.k, a.to, p, c); }
    } else {
      OthersStay(t, s, a, s', p, c);
    }
  }

  /** The number of picks from the queue of `c`. */
  ghost function Picks(t: Shape, ss: seq<State>, acts: seq<Action>, c: nat): nat
    requires |ss| == |acts| + 1
  {
    if acts == [] then 0
    else (if PicksFrom(t, ss[0], acts[0], c) then 1 else 0) + Picks(t, ss[1..], acts[1..], c)
  }

  /** While it waits, a runnable process with `n` groups or runnable processes ahead of it, and nothing new
      coming into its queue, sees at most `n` picks from that queue. */
  lemma {:induction false} WaitingPicks(t: Shape, ss: seq<State>, acts: seq<Action>, p: nat, c: nat)
    requires Run(t, ss, acts) && WaitsIn(ss[0], p, c) && (forall i :: 0 <= i < |ss| ==> WaitsIn(ss[i], p, c))
    requires forall i :: 0 <= i < |acts| ==> !Enters(t, ss[i], acts[i], c)
    ensures Picks(t, ss, acts, c) <= AheadOf(ss[0], p, c)
    decreases |acts|
  {
    hide Step, Inv, WaitsIn, PicksFrom, Enters;
    if acts != [] {
      StepKeeps(t, ss[0], acts[0], ss[1]);
      StepCloser(t, ss[0], acts[0], ss[1], p, c);
      WaitingPicks(t, ss[1..], acts[1..], p, c);
    }
  }

  /** The step makes `p` the process of the CPU that takes it. */
  predicate Chooses(s: State, a: Action, s': State, p: nat) {
    && a.Sched? && a.k < |s.cpus| && a.k < |s'.cpus| && s'.cpus[a.k].cur == p && s.cpus[a.k].cur != p
    && p in s'.procs && s'.procs[p].state == Running
  }

  /** A process stops waiting in one way only: it is chosen. */
  lemma {:induction false} ChosenNext(t: Shape, s: State, a: Action, s': State, p: nat, c: nat)
    requires Inv(t, s) && Step(t, s, a, s') && WaitsIn(s, p, c) && !WaitsIn(s', p, c)
    ensures Chooses(s, a, s', p)
  {
    if a.Sched? {
      assert CpuOk(s.procs, s.cpus[a.k]);
      Assertions(t, s, a.k, a.to);
    }
  }

  /** As long as no step chooses it, a process goes on waiting. */
  lemma {:induction false} StillWaits(t: Shape, ss: seq<State>, acts: seq<Action>, p: nat, c: nat, n: nat)
    requires Run(t, ss, acts) && WaitsIn(ss[0], p, c) && n <= |acts|
    requires forall i :: 0 <= i < n ==> !Chooses(ss[i], acts[i], ss[i + 1], p)
    ensures Inv(t, ss[n]) && WaitsIn(ss[n], p, c)
    decreases n
  {
    hide Step, Inv, WaitsIn, Chooses;
    if n > 0 {
      StillWaits(t, ss, acts, p, c, n - 1);
      StepKeeps(t, ss[n - 1], acts[n - 1], ss[n]);
      if !WaitsIn(ss[n], p, c) { ChosenNext(t, ss[n - 1], acts[n - 1], ss[n], p, c); }
    }
  }

  /** In every run with `k + 1` picks from the queue of a runnable process that has `k` groups or runnable
      processes ahead of it, and with nothing new coming into that queue, the process is chosen. */
  lemma {:induction false} BoundedWaiting(t: Shape, ss: seq<State>, acts: seq<Action>, p: nat, c: nat) returns (i: nat)
    requires Run(t, ss, acts) && WaitsIn(ss[0], p, c) && Picks(t, ss, acts, c) >= AheadOf(ss[0], p, c) + 1
    requires forall i :: 0 <= i < |acts| ==> !Enters(t, ss[i], acts[i], c)
    ensures i < |acts| && Chooses(ss[i], acts[i], ss[i + 1], p)
    ensures forall j :: 0 <= j <= i ==> WaitsIn(ss[j], p, c)
    ensures Picks(t, ss[..i + 1], acts[..i], c) <= AheadOf(ss[0], p, c)
  {
    hide Step, Inv, WaitsIn, PicksFrom, Enters, Chooses, Picks;
    assert ss[..|acts| + 1] == ss && acts[..|acts|] == acts;
    i := 0;
    while i < |acts| && !Chooses(ss[i], acts[i], ss[i + 1], p)
      invariant i <= |acts| && forall j :: 0 <= j < i ==> !Chooses(ss[j], acts[j], ss[j + 1], p)
    {
      i := i + 1;
    }
    forall j | 0 <= j <= i ensures WaitsIn(ss[j], p, c) {
      StillWaits(t, ss, acts, p, c, j);
    }
    WaitingPicks(t, ss[..i + 1], acts[..i], p, c);
  }

  /** A process that has been woken up is chosen by the very next pick from its queue, if nothing new comes into
      the queue before. */
  lemma {:induction false} WokenChosen(t: Shape, ss: seq<State>, acts: seq<Action>, p: nat, onalert: bool)
    returns (i: nat)
    requires Run(t, ss, acts) && acts != [] && acts[0] == Wake(p, onalert) && p in ss[0].procs
    requires Dormant(ss[0].procs[p].state, onalert)
    requires Picks(t, ss[1..], acts[1..], ss[0].procs[p].container) >= 1
    requires forall i :: 1 <= i < |acts| ==> !Enters(t, ss[i], acts[i], ss[0].procs[p].container)
    ensures 1 <= i < |acts| && Chooses(ss[i], acts[i], ss[i + 1], p)
    ensures Picks(t, ss[1..][..i], acts[1..][..i - 1], ss[0].procs[p].container) == 0
  {
    var c := ss[0].procs[p].container;
    assert Step(t, ss[0], acts[0], ss[1]);
    WokenWaits(t, ss[0], p, onalert, ss[1]);
    StepKeeps(t, ss[0], acts[0], ss[1]);
    assert WaitsIn(ss[1], p, c);
    hide Step, Inv, WaitsIn, PicksFrom, Enters, Chooses, Picks;
    var j := BoundedWaiting(t, ss[1..], acts[1..], p, c);
    i := j + 1;
  }

  /** Each CPU's process is running and on no other CPU. A process that is not idle is queued, once
      and in the queue of its container only, exactly if it is runnable or running. */
  ghost predicate Safe(s: State) {
    && (forall k :: 0 <= k < |s.cpus| ==> s.cpus[k].cur in s.procs && s.procs[s.cpus[k].cur].state == Running)
    && (forall k, l :: 0 <= k < l < |s.cpus| ==> s.cpus[k].cur != s.cpus[l].cur)
    && (forall p, c :: p in s.procs && !s.procs[p].idle && c in s.queues ==>
          (P(p) in s.queues[c] <==> c == s.procs[p].container && Ready(s.procs[p])))
    && (forall c :: c in s.queues ==> NoDups(s.queues[c]))
  }

  lemma {:induction false} InvSafe(t: Shape, s: State)
    requires Inv(t, s)
    ensures Safe(s)
  {
    forall k | 0 <= k < |s.cpus| ensures s.cpus[k].cur in s.procs && s.procs[s.cpus[k].cur].state == Running {
      assert CpuOk(s.procs, s.cpus[k]);
    }
    forall p, c | p in s.procs && c in s.queues && P(p) in s.queues[c]
      ensures c == s.procs[p].container && Ready(s.procs[p])
    {
      assert Belongs(t, s.procs, s.queues, c, P(p));
    }
  }

  /** Safety, over a whole run. */
  lemma {:induction false} AlwaysSafe(t: Shape, ss: seq<State>, acts: seq<Action>)
    requires Run(t, ss, acts)
    ensures Inv(t, ss[|acts|]) && Safe(ss[|acts|])
    decreases |acts|
  {
    hide Step, Inv, Safe;
    if acts == [] {
      InvSafe(t, ss[0]);
    } else {
      StepKeeps(t, ss[0], acts[0], ss[1]);
      AlwaysSafe(t, ss[1..], acts[1..]);
    }
  }

  /** The state after the initialisation: every CPU runs its idle process, and there is only the
      root container. */
  function Start(n: nat): State {
    if n == 0 then State(map[], map[0 := []], [], false)
    else
      var s := Start(n - 1);
      s.(procs := s.procs[n - 1 := Proc(Running, 0, false, true)], cpus := s.cpus + [Cpu(n - 1, n - 1)])
  }

  lemma {:induction false} CpuAdded(t: Shape, s: State, p: nat)
    requires Inv(t, s) && p !in s.procs
    ensures Inv(t, s.(procs := s.procs[p := Proc(Running, t.root, false, true)], cpus := s.cpus + [Cpu(p, p)]))
  {
    var procs', cpus' := s.procs[p := Proc(Running, t.root, false, true)], s.cpus + [Cpu(p, p)];
    forall k | 0 <= k < |cpus'| ensures CpuOk(procs', cpus'[k]) { assert k < |s.cpus| ==> CpuOk(s.procs, s.cpus[k]); }
    forall k, l | 0 <= k < l < |cpus'| ensures cpus'[k].cur != cpus'[l].cur && cpus'[k].idle != cpus'[l].idle {
      assert CpuOk(s.procs, s.cpus[k]);
    }
    forall c, x | c in s.queues && x in s.queues[c] ensures Belongs(t, procs', s.queues, c, x) {
      assert Belongs(t, s.procs, s.queues, c, x);
    }
  }

  lemma {:induction false} StartInv(t: Shape, n: nat)
    requires t.root == 0 && 0 in t.rank
    ensures Inv(t, Start(n)) && forall p :: p in Start(n).procs <==> 0 <= p < n
    decreases n
  {
    if n > 0 {
      StartInv(t, n - 1);
      CpuAdded(t, Start(n - 1), n - 1);
    }
  }

  // ----- the code

  class Kernel {
    ghost const t: Shape
    const root: nat
    const parent: map<nat, nat>
    var procs: Procs
    var queues: Queues
    var cpus: seq<Cpu>
    var panic: bool

    ghost function View(): State
      reads this
    {
      State(procs, queues, cpus, panic)
    }

    ghost predicate Valid()
      reads this
    {
      Inv(t, View()) && root == t.root && parent == t.parent
    }

    /** The initialisation. */
    constructor (n: nat, parent: map<nat, nat>, ghost rank: map<nat, nat>)
      requires 0 in rank
      ensures Valid() && View() == Start(n) && t == Shape(0, parent, rank)
    {
      root, this.parent := 0, parent;
      t := Shape(0, parent, rank);
      procs, queues, cpus, panic := map[], map[0 := []], [], false;
      new;
      for i := 0 to n
        invariant View() == Start(i) && |cpus| == i
      {
        procs := procs[i := Proc(Running, 0, false, true)];
        cpus := cpus + [Cpu(i, i)];
      }
      StartInv(t, n);
    }

    /** `_activate_proc` */
    method ActivateProc(p: nat, onalert: bool) returns (b: bool)
      requires Valid() && p in procs
      modifies this`procs, this`queues
      ensures Valid() && View() == Activate(old(View()), p, onalert)
      ensures b <==> Dormant(old(procs)[p].state, onalert)
      ensures !b ==> procs == old(procs) && queues == old(queues)
      ensures b ==> procs == old(procs)[p := old(procs)[p].(state := Runnable)]
      ensures b ==> var c := old(procs)[p].container; queues == old(queues)[c := [P(p)] + old(queues)[c]]
    {
      ActivateKeeps(t, View(), p, onalert);
      var x := procs[p];
      if x.state == Running || x.state == Runnable || x.state == Zombie || (x.state == DeepSleeping && onalert) {
        return false;
      }
      procs := SetState(procs, p, Runnable);
      queues := queues[x.container := [P(p)] + queues[x.container]];
      return true;
    }

    /** `activate_group` */
    method EnterGroup(g: nat)
      requires Valid() && Enabled(t, View(), Group(g))
      modifies this`queues
      ensures Valid() && Step(t, old(View()), Group(g), View())
      ensures queues == old(queues)[parent[g] := [G(g)] + old(queues)[parent[g]]]
    {
      GroupKeeps(t, View(), g);
      var father := parent[g];
      queues := queues[father := [G(g)] + queues[father]];
    }

    /** `find_proc` */
    method FindProc(c: nat) returns (r: Option<nat>)
      requires Tree(procs, queues, t.rank) && c in queues
      modifies this`queues
      ensures Pick(r, queues) == Find(procs, old(queues), t.rank, c, 0)
      decreases t.rank[c]
    {
      var i := 0;
      while i < |queues[c]|
        invariant queues == old(queues) && i <= |queues[c]|
        invariant Find(procs, queues, t.rank, c, 0) == Find(procs, queues, t.rank, c, i)
      {
        var x := queues[c][i];
        assert ItemOk(procs, queues, t.rank, c, x);
        if x.G? {
          r := FindProc(x.group);
          if r.Some? {
            queues := queues[c := MoveToBack(queues[c], i)];
            return;
          }
        } else if procs[x.pid].state == Runnable {
          return Some(x.pid);
        }
        i := i + 1;
      }
      r := None;
    }

    /** `pick_next` */
    method PickNextProc(k: nat) returns (next: nat)
      requires k < |cpus| && Queued(t, procs, queues) && root == t.root
      modifies this`queues
      ensures var r := PickNext(t, old(View()), cpus[k]); next == Next(cpus[k], r) && queues == r.queues
    {
      if panic {
        return cpus[k].idle;
      }
      QueuedTree(t, procs, queues);
      var nxt := FindProc(root);
      next := if nxt.Some? then nxt.value else cpus[k].idle;
    }

    /** `update_this_state` */
    method UpdateThisState(k: nat, to: ProcState)
      requires k < |cpus| && cpus[k].cur in procs && Ready(procs[cpus[k].cur]) && procs[cpus[k].cur].container in queues
      modifies this`procs, this`queues
      ensures View() == UpdateThis(old(View()), cpus[k], to)
    {
      var u := cpus[k];
      var c := procs[u.cur].container;
      if u.cur != u.idle && (procs[u.cur].state == Running || procs[u.cur].state == Runnable) {
        queues := queues[c := Without(queues[c], P(u.cur))];
      }
      procs := SetState(procs, u.cur, to);
      if u.cur != u.idle && (to == Runnable || to == Running) {
        queues := queues[c := queues[c] + [P(u.cur)]];
      }
    }

    /** `simple_sched`, when the process need not be killed first. */
    method SwitchProc(k: nat, to: ProcState)
      requires MaySwitch(t, View(), k, to) && root == t.root && Ready(procs[cpus[k].cur])
      requires var s1 := UpdateThis(View(), cpus[k], to);
               var next := Next(cpus[k], PickNext(t, s1, cpus[k]));
               next in s1.procs && s1.procs[next].state == Runnable
      modifies this`procs, this`queues, this`cpus
      ensures View() == Switch(t, old(View()), k, to)
    {
      UpdateThisState(k, to);
      var next := PickNextProc(k);
      cpus := cpus[k := cpus[k].(cur := next)];
      assert procs[next].state == Runnable;
      procs := SetState(procs, next, Running);
    }

    /** `simple_sched` */
    method SimpleSched(k: nat, to: ProcState)
      requires Valid() && Enabled(t, View(), Sched(k, to))
      modifies this`procs, this`queues, this`cpus
      ensures Valid() && Step(t, old(View()), Sched(k, to), View())
      ensures if old(procs)[old(cpus)[k].cur].killed && to != Zombie then View() == old(View())
              else Switched(old(View()), k, to, View())
    {
      Assertions(t, View(), k, to);
      SwitchKeeps(t, View(), k, to);
      SwitchEffect(t, View(), k, to);
      var this' := cpus[k].cur;
      assert procs[this'].state == Running;
      if procs[this'].killed && to != Zombie {
        return;
      }
      SwitchProc(k, to);
    }
  }
}
