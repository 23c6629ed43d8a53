/**
The semaphore of `src/common/sem.c`.

A waiting thread leaves the lock in the middle of `_wait_sem`, so a wait is two steps:
`Wait` up to the call of the scheduler and `Resume` after it. All other operations run under
the lock. `Semaphore` is the code; the functions above it say what each step does to the
value of a semaphore, and `Step` allows them in every order.
*/
module Semaphores {
  import opened Basics

  type Thread = nat

  /** `val`, the sleep list (newest first) and the threads whose `WaitData.up` has been set
      but which have not run since. */
  datatype Sem = Sem(val: int, sleep: seq<Thread>, up: set<Thread>)

  ghost predicate Distinct(s: seq<Thread>) {
    forall i, j :: 0 <= i < j < |s| ==> s[i] != s[j]
  }

  /** What every step keeps: the list holds exactly the threads the count owes. */
  ghost predicate Balanced(s: Sem) {
    && |s.sleep| == (if s.val < 0 then -s.val else 0)
    && Distinct(s.sleep)
    && forall t :: t in s.sleep ==> t !in s.up
  }

  /** The thread may call `_wait_sem`: it is not inside it. */
  predicate Free(s: Sem, t: Thread) {
    t !in s.sleep && t !in s.up
  }

  function WaitSpec(s: Sem, t: Thread): Sem {
    if s.val > 0 then s.(val := s.val - 1) else s.(val := s.val - 1, sleep := [t] + s.sleep)
  }

  /** `None` stands for the panic on an empty sleep list. */
  function PostSpec(s: Sem): Option<Sem> {
    if s.val >= 0 then Some(s.(val := s.val + 1))
    else if s.sleep == [] then None
    else Some(Sem(s.val + 1, s.sleep[..|s.sleep| - 1], s.up + {s.sleep[|s.sleep| - 1]}))
  }

  function GetSpec(s: Sem): Sem {
    if s.val > 0 then s.(val := s.val - 1) else s
  }

  function PostAllSpec(s: Sem): Sem {
    if s.val >= 0 then s else Sem(0, [], s.up + set t | t in s.sleep)
  }

  /** Lines 79-85; `None` stands for the failing assertion. */
  function ResumeSpec(s: Sem, t: Thread): Option<Sem> {
    if t in s.up then Some(s.(up := s.up - {t}))
    else if s.val + 1 > 0 then None
    else Some(s.(val := s.val + 1, sleep := Without(s.sleep, t)))
  }

  // ----- what every step keeps

  lemma {:induction false} PostKeeps(s: Sem)
    requires Balanced(s)
    ensures PostSpec(s).Some? && Balanced(PostSpec(s).value)
  {
    if s.val < 0 {
      var n := |s.sleep| - 1;
      assert s.sleep[..n] + [s.sleep[n]] == s.sleep;
    }
  }

  lemma {:induction false} ResumeKeeps(s: Sem, t: Thread)
    requires Balanced(s) && !Free(s, t)
    ensures ResumeSpec(s, t).Some? && Balanced(ResumeSpec(s, t).value)
    ensures forall u :: Free(ResumeSpec(s, t).value, u) <==> Free(s, u) || u == t
  {
    if t in s.sleep {
      var i := WithoutSlice(s.sleep, t);
    }
  }

  // ----- the code

  class Semaphore {
    var val: int
    var sleep: seq<Thread>
    var up: set<Thread>

    ghost function Value(): Sem
      reads this
    {
      Sem(val, sleep, up)
    }

    /** `init_sem` */
    constructor (val: int)
      ensures Value() == Sem(val, [], {}) && (val >= 0 ==> Balanced(Value()))
    {
      this.val, sleep, up := val, [], {};
    }

    /** `_get_sem` */
    method Get() returns (ret: bool)
      modifies this
      ensures Value() == GetSpec(old(Value())) && ret == (old(val) > 0)
    {
      ret := false;
      if val > 0 {
        val := val - 1;
        ret := true;
      }
    }

    /** `get_all_sem` */
    method GetAll() returns (ret: int)
      modifies this
      ensures ret == (if old(val) > 0 then old(val) else 0) && Value() == old(Value()).(val := old(val) - ret)
    {
      ret := 0;
      if val > 0 {
        ret := val;
        val := 0;
      }
    }

    /** `_post_sem`; `ok` is false for the panic. */
    method Post() returns (ok: bool)
      modifies this
      ensures ok == PostSpec(old(Value())).Some?
      ensures ok ==> Value() == PostSpec(old(Value())).value
    {
      ok := true;
      val := val + 1;
      if val <= 0 {
        if sleep == [] {
          return false;
        }
        var wait := sleep[|sleep| - 1];
        up := up + {wait};
        sleep := sleep[..|sleep| - 1];
      }
    }

    /** `post_all_sem`: one post too many is taken back by the last `_get_sem`. */
    method PostAll() returns (ret: int)
      requires Balanced(Value())
      modifies this
      ensures Balanced(Value()) && Value() == PostAllSpec(old(Value())) && ret == |old(sleep)|
    {
      ghost var s := Value();
      ret := -1;
      var got := false;
      while !got
        invariant Balanced(Value()) && (ret == -1 ==> Value() == s)
        invariant ret >= 0 && !got ==> ret + 1 <= |s.sleep|
        invariant !got ==> val == s.val + ret + 1 && sleep == s.sleep[..|s.sleep| - ret - 1]
        invariant !got ==> up == s.up + set i | |s.sleep| - ret - 1 <= i < |s.sleep| :: s.sleep[i]
        invariant -1 <= ret && (got ==> ret == |s.sleep| && Value() == PostAllSpec(s))
        decreases if got then 0 else 1 + |s.sleep| - ret
      {
        PostKeeps(Value());
        var ok := Post();
        ret := ret + 1;
        got := Get();
      }
    }

    /** `_wait_sem` up to the call of the scheduler; `done` when it returns at once. */
    method Wait(t: Thread) returns (done: bool)
      modifies this
      ensures Value() == WaitSpec(old(Value()), t) && done == (old(val) > 0)
    {
      val := val - 1;
      if val >= 0 {
        return true;
      }
      sleep := [t] + sleep;
      done := false;
    }

    /** `_wait_sem` after the scheduler has come back (lines 79-88); `ok` is false when the
        assertion fails. */
    method Resume(t: Thread) returns (ok: bool, ret: bool)
      modifies this
      ensures ok == ResumeSpec(old(Value()), t).Some? && ret == (t in old(up))
      ensures ok ==> Value() == ResumeSpec(old(Value()), t).value
    {
      ok, ret := true, t in up;
      if t !in up {
        val := val + 1;
        if val > 0 {
          return false, ret;
        }
        sleep := Without(sleep, t);
      } else {
        up := up - {t};
      }
    }
  }

  // ----- every interleaving

  /** A semaphore with its users: who holds a unit, and when each sleeper arrived. */
  datatype System = System(sem: Sem, holders: set<Thread>, clock: nat, arrival: map<Thread, nat>)

  datatype Action =
    | Waits(t: Thread)
    | Tries(t: Thread)
    | Posts(t: Thread)
    | PostsAll
    | GetsAll
    | Resumes(t: Thread)

  /** A thread outside may wait or try; a sleeping one may resume at any time, woken by a post
      or not; anyone may post. */
  predicate Enabled(s: System, a: Action) {
    match a
    case Waits(t) => t !in s.holders && Free(s.sem, t)
    case Tries(t) => t !in s.holders && Free(s.sem, t)
    case Resumes(t) => !Free(s.sem, t)
    case _ => true
  }

  /** `None` is a panic or a failing assertion. */
  function Next(s: System, a: Action): Option<System> {
    match a
    case Waits(t) =>
      Some(System(WaitSpec(s.sem, t), if s.sem.val > 0 then s.holders + {t} else s.holders, s.clock + 1,
                  s.arrival[t := s.clock]))
    case Tries(t) =>
      Some(s.(sem := GetSpec(s.sem), holders := if s.sem.val > 0 then s.holders + {t} else s.holders))
    case Posts(t) =>
      var p := PostSpec(s.sem);
      if p.None? then None else Some(s.(sem := p.value, holders := s.holders - {t}))
    case PostsAll => Some(s.(sem := PostAllSpec(s.sem)))
    case GetsAll => Some(if s.sem.val > 0 then s.(sem := s.sem.(val := 0)) else s)
    case Resumes(t) =>
      var r := ResumeSpec(s.sem, t);
      if r.None? then None else Some(s.(sem := r.value,
                                        holders := if t in s.sem.up then s.holders + {t} else s.holders))
  }

  function Init(capacity: nat): System {
    System(Sem(capacity, [], {}), {}, 0, map[])
  }

  /** The list names threads from the last to the first arrival. */
  ghost predicate Arrivals(s: seq<Thread>, arrival: map<Thread, nat>, clock: nat) {
    && (forall t :: t in s ==> t in arrival && arrival[t] < clock)
    && (forall i, j :: 0 <= i < j < |s| ==> arrival[s[j]] < arrival[s[i]])
  }

  ghost predicate Inv(s: System) {
    Balanced(s.sem) && Arrivals(s.sem.sleep, s.arrival, s.clock)
  }

  lemma {:induction false} WaitSafe(s: System, t: Thread)
    requires Inv(s) && Enabled(s, Waits(t))
    ensures Inv(Next(s, Waits(t)).value)
  {
    var s' := Next(s, Waits(t)).value;
    assert forall i :: 0 <= i < |s.sem.sleep| ==> s.sem.sleep[i] in s.sem.sleep && s.sem.sleep[i] != t;
  }

  lemma {:induction false} ResumeSafe(s: System, t: Thread)
    requires Inv(s) && Enabled(s, Resumes(t))
    ensures Next(s, Resumes(t)).Some? && Inv(Next(s, Resumes(t)).value)
  {
    hide Without, Balanced;
    ResumeKeeps(s.sem, t);
    if t in s.sem.sleep {
      var i := WithoutSlice(s.sem.sleep, t);
    }
  }

  lemma {:induction false} StepSafe(s: System, a: Action)
    requires Inv(s) && Enabled(s, a)
    ensures Next(s, a).Some? && Inv(Next(s, a).value)
  {
    match a
    case Waits(t) => WaitSafe(s, t);
    case Tries(t) =>
    case Posts(t) => PostKeeps(s.sem);
    case PostsAll =>
    case GetsAll =>
    case Resumes(t) => ResumeSafe(s, t);
  }

  /** The semaphore is used as a lock: only holders post, one unit at a time. */
  predicate Disciplined(s: System, a: Action) {
    match a
    case Posts(t) => t in s.holders
    case PostsAll => false
    case GetsAll => false
    case _ => true
  }

  /** Every unit is free, held, or on its way to a woken thread. */
  ghost predicate Accounted(s: System, capacity: nat) {
    && s.sem.val == capacity - |s.holders| - |s.sem.up| - |s.sem.sleep|
    && forall t :: t in s.holders ==> Free(s.sem, t)
  }

  lemma {:induction false} PostAccounts(s: System, t: Thread, capacity: nat)
    requires Inv(s) && Accounted(s, capacity) && t in s.holders
    ensures Next(s, Posts(t)).Some? && Accounted(Next(s, Posts(t)).value, capacity)
  {
    PostKeeps(s.sem);
    if s.sem.val < 0 {
      var w := s.sem.sleep[|s.sem.sleep| - 1];
      assert w in s.sem.sleep;
    }
  }

  lemma {:induction false} ResumeAccounts(s: System, t: Thread, capacity: nat)
    requires Inv(s) && Accounted(s, capacity) && Enabled(s, Resumes(t))
    ensures Next(s, Resumes(t)).Some? && Accounted(Next(s, Resumes(t)).value, capacity)
  {
    ResumeKeeps(s.sem, t);
    if t in s.sem.sleep {
      var i := WithoutSlice(s.sem.sleep, t);
    }
  }

  lemma {:induction false} StepAccounts(s: System, a: Action, capacity: nat)
    requires Inv(s) && Accounted(s, capacity) && Enabled(s, a) && Disciplined(s, a)
    ensures Next(s, a).Some? && Accounted(Next(s, a).value, capacity)
  {
    match a
    case Waits(t) =>
    case Tries(t) =>
    case Posts(t) => PostAccounts(s, t, capacity);
    case Resumes(t) => ResumeAccounts(s, t, capacity);
  }

  /** Actions taken one after the other, each enabled when its turn comes. */
  ghost predicate Legal(s: System, run: seq<Action>, disciplined: bool)
    decreases |run|
  {
    run == [] || (&& Enabled(s, run[0]) && (disciplined ==> Disciplined(s, run[0]))
                  && (Next(s, run[0]).Some? ==> Legal(Next(s, run[0]).value, run[1..], disciplined)))
  }

  ghost function Exec(s: System, run: seq<Action>): Option<System>
    decreases |run|
  {
    if run == [] then Some(s)
    else if Next(s, run[0]).None? then None
    else Exec(Next(s, run[0]).value, run[1..])
  }

  lemma {:induction false} RunSafe(s: System, run: seq<Action>, disciplined: bool, capacity: nat)
    requires Inv(s) && (disciplined ==> Accounted(s, capacity)) && Legal(s, run, disciplined)
    ensures Exec(s, run).Some? && Inv(Exec(s, run).value) && (disciplined ==> Accounted(Exec(s, run).value, capacity))
    decreases |run|
  {
    if run != [] {
      StepSafe(s, run[0]);
      if disciplined { StepAccounts(s, run[0], capacity); }
      RunSafe(Next(s, run[0]).value, run[1..], disciplined, capacity);
    }
  }

  /** No interleaving reaches the panic or the failing assertion, the sleep list always has
      the length the count says, and a post wakes the thread that has slept longest. */
  lemma {:induction false} SemaphoreSafety(capacity: nat, run: seq<Action>)
    requires Legal(Init(capacity), run, false)
    ensures Exec(Init(capacity), run).Some?
    ensures var s := Exec(Init(capacity), run).value;
            && |s.sem.sleep| == (if s.sem.val < 0 then -s.sem.val else 0)
            && PostSpec(s.sem).Some?
            && (s.sem.sleep != [] ==>
                  exists w :: w in s.sem.sleep && PostSpec(s.sem).value.up == s.sem.up + {w} && Oldest(s, w))
  {
    RunSafe(Init(capacity), run, false, capacity);
    var s := Exec(Init(capacity), run).value;
    PostKeeps(s.sem);
    if s.sem.sleep != [] {
      var w := s.sem.sleep[|s.sem.sleep| - 1];
      assert w in s.sem.sleep && Oldest(s, w);
    }
  }

  ghost predicate Oldest(s: System, w: Thread) {
    w in s.arrival && forall t :: t in s.sem.sleep && t != w ==> t in s.arrival && s.arrival[w] < s.arrival[t]
  }

  /** Used as a lock, a semaphore that starts at `capacity` never has more holders than that;
      in particular one that starts at 1 excludes all others. */
  lemma {:induction false} MutualExclusion(capacity: nat, run: seq<Action>)
    requires Legal(Init(capacity), run, true)
    ensures Exec(Init(capacity), run).Some? && |Exec(Init(capacity), run).value.holders| <= capacity
  {
    RunSafe(Init(capacity), run, true, capacity);
  }
}
