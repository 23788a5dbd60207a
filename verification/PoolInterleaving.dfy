/** Every interleaving of the frame pool's operations, for any number of tasks.
  *
  * A step is one critical section or one semaphore operation of main/core/frame_pool.cpp.  Between
  * the two steps of a submit (push, give) or of a receive (take, pop) any other task may run. */
module PoolInterleaving {
  import opened Basics
  import opened PoolLists

  datatype Pc = Idle | Pushed | Woken

  datatype State = State(lists: Lists, sem: nat, tasks: seq<Pc>)

  datatype Event =
    | AcquirePop(t: nat)             // frame_pool_acquire
    | SubmitPush(t: nat, e: nat)     // frame_pool_submit, first half
    | SubmitGive(t: nat)             // frame_pool_submit, second half
    | RecvTake(t: nat)               // frame_pool_recv, semaphore
    | RecvPop(t: nat)                // frame_pool_recv, list
    | ReleasePush(t: nat, e: nat)    // frame_pool_release

  /** When a task can take a step.  Any task may submit or release any element: only the
    * checked-out flag stands in its way. */
  predicate Enabled(s: State, ev: Event) {
    && ev.t < |s.tasks|
    && match ev
       case AcquirePop(t) => s.tasks[t] == Idle
       case SubmitPush(t, e) => s.tasks[t] == Idle && e < s.lists.n
       case SubmitGive(t) => s.tasks[t] == Pushed
       case RecvTake(t) => s.tasks[t] == Idle && s.sem > 0
       case RecvPop(t) => s.tasks[t] == Woken
       case ReleasePush(t, e) => s.tasks[t] == Idle && e < s.lists.n
  }

  function Next(s: State, ev: Event): State
    requires Enabled(s, ev)
  {
    match ev
    case AcquirePop(t) => s.(lists := s.lists.Pop(FreeList).0)
    case SubmitPush(t, e) =>
      if s.lists.CheckedOut(e)
      then s.(lists := s.lists.Push(ReadyList, e), tasks := s.tasks[t := Pushed])
      else s
    case SubmitGive(t) =>
      s.(sem := if s.sem < s.lists.n then s.sem + 1 else s.sem, tasks := s.tasks[t := Idle])
    case RecvTake(t) => s.(sem := s.sem - 1, tasks := s.tasks[t := Woken])
    case RecvPop(t) => s.(lists := s.lists.Pop(ReadyList).0, tasks := s.tasks[t := Idle])
    case ReleasePush(t, e) => s.(lists := s.lists.Push(FreeList, e))
  }

  /** A fresh pool, as `frame_pool_new` leaves it, before any task runs. */
  ghost predicate Initial(s: State) {
    && s.lists.Partitioned() && |s.lists.free| == s.lists.n && s.lists.ready == [] && s.sem == 0
    && forall t :: 0 <= t < |s.tasks| ==> s.tasks[t] == Idle
  }

  /** The state after a run, if every event of it is enabled in turn. */
  function Run(s: State, evs: seq<Event>): Option<State> {
    if evs == [] then Some(s) else
    match Run(s, evs[..|evs| - 1])
    case None => None
    case Some(m) => if Enabled(m, evs[|evs| - 1]) then Some(Next(m, evs[|evs| - 1])) else None
  }

  ghost predicate Reachable(s: State) {
    exists s0, evs :: Initial(s0) && Run(s0, evs) == Some(s)
  }

  function Count(tasks: seq<Pc>, pc: Pc): nat {
    if tasks == [] then 0
    else Count(tasks[..|tasks| - 1], pc) + if tasks[|tasks| - 1] == pc then 1 else 0
  }

  lemma {:induction false} CountUpdate(tasks: seq<Pc>, t: nat, to: Pc, pc: Pc)
    requires t < |tasks|
    ensures Count(tasks[t := to], pc)
         == Count(tasks, pc) - (if tasks[t] == pc then 1 else 0) + (if to == pc then 1 else 0)
    ensures tasks[t] == pc ==> Count(tasks, pc) > 0
  {
    var n := |tasks| - 1;
    if t == n {
      assert tasks[t := to][..n] == tasks[..n];
    } else {
      assert tasks[t := to][..n] == tasks[..n][t := to];
      CountUpdate(tasks[..n], t, to, pc);
    }
  }

  lemma {:induction false} CountNone(tasks: seq<Pc>, pc: Pc)
    ensures Count(tasks, pc) == 0 <==> forall t :: 0 <= t < |tasks| ==> tasks[t] != pc
  {
    if tasks != [] {
      var n := |tasks| - 1;
      CountNone(tasks[..n], pc);
      assert forall t :: 0 <= t < n ==> tasks[..n][t] == tasks[t];
    }
  }

  /** The accounting invariant: a ready element is paid for by a semaphore count, or by a task
    * that has pushed and not given, or by one that has taken and not popped. */
  ghost predicate Inv(s: State) {
    && s.lists.Partitioned()
    && |s.lists.ready| == s.sem + Count(s.tasks, Pushed) + Count(s.tasks, Woken)
  }

  lemma InitialInv(s: State)
    requires Initial(s)
    ensures Inv(s)
  {
    CountNone(s.tasks, Pushed);
    CountNone(s.tasks, Woken);
  }

  /** In a give, the count is below the number of elements. */
  lemma GiveHasRoom(s: State, t: nat)
    requires Inv(s) && Enabled(s, SubmitGive(t))
    ensures s.sem < s.lists.n
  {
    CountUpdate(s.tasks, t, Idle, Pushed);
    PlacesAddUp(s.lists);
  }

  lemma StepKeepsInv(s: State, ev: Event)
    requires Inv(s) && Enabled(s, ev)
    ensures Inv(Next(s, ev)) && Next(s, ev).lists.n == s.lists.n
  {
    PopKeepsPartition(s.lists, FreeList);
    PopKeepsPartition(s.lists, ReadyList);
    var t := ev.t;
    match ev
    case AcquirePop(_) =>
    case SubmitPush(_, e) =>
      PushKeepsPartition(s.lists, ReadyList, e);
      CountUpdate(s.tasks, t, Pushed, Pushed);
      CountUpdate(s.tasks, t, Pushed, Woken);
    case SubmitGive(_) =>
      GiveHasRoom(s, t);
      CountUpdate(s.tasks, t, Idle, Pushed);
      CountUpdate(s.tasks, t, Idle, Woken);
    case RecvTake(_) =>
      CountUpdate(s.tasks, t, Woken, Pushed);
      CountUpdate(s.tasks, t, Woken, Woken);
    case RecvPop(_) =>
      CountUpdate(s.tasks, t, Idle, Pushed);
      CountUpdate(s.tasks, t, Idle, Woken);
    case ReleasePush(_, e) =>
      PushKeepsPartition(s.lists, FreeList, e);
  }

  lemma {:induction false} RunKeepsInv(s0: State, evs: seq<Event>)
    requires Initial(s0) && Run(s0, evs).Some?
    ensures Inv(Run(s0, evs).value) && Run(s0, evs).value.lists.n == s0.lists.n
  {
    if evs == [] {
      InitialInv(s0);
    } else {
      RunKeepsInv(s0, evs[..|evs| - 1]);
      StepKeepsInv(Run(s0, evs[..|evs| - 1]).value, evs[|evs| - 1]);
    }
  }

  /** The accounting identity holds in every interleaving. */
  lemma Accounting(s: State)
    requires Reachable(s)
    ensures |s.lists.ready| == s.sem + Count(s.tasks, Pushed) + Count(s.tasks, Woken)
    ensures s.lists.Partitioned()
  {
    var s0, evs :| Initial(s0) && Run(s0, evs) == Some(s);
    RunKeepsInv(s0, evs);
  }

  /** After a successful take the pop finds an element: `frame_pool_recv` returns NULL only on timeout. */
  lemma RecvNeverNull(s: State, t: nat)
    requires Reachable(s) && Enabled(s, RecvPop(t))
    ensures s.lists.Pop(ReadyList).1.Some?
  {
    Accounting(s);
    CountUpdate(s.tasks, t, Idle, Woken);
  }

  /** No give exceeds the semaphore's maximum, so none is silently refused. */
  lemma GiveNeverRefused(s: State, t: nat)
    requires Reachable(s) && Enabled(s, SubmitGive(t))
    ensures Next(s, SubmitGive(t)).sem == s.sem + 1 <= s.lists.n
  {
    Accounting(s);
    GiveHasRoom(s, t);
  }

  /** No wake-up is lost: while an element is ready, a take succeeds now, or some task is about to
    * give, or one is about to pop.  With nobody mid-operation the count is exactly the backlog. */
  lemma NoLostWakeup(s: State)
    requires Reachable(s)
    ensures s.lists.ready != [] ==>
              s.sem > 0 || exists t :: 0 <= t < |s.tasks| && (s.tasks[t] == Pushed || s.tasks[t] == Woken)
    ensures (forall t :: 0 <= t < |s.tasks| ==> s.tasks[t] == Idle) ==> s.sem == |s.lists.ready|
  {
    Accounting(s);
    CountNone(s.tasks, Pushed);
    CountNone(s.tasks, Woken);
  }
}

/** Who holds what, for any number of tasks that keep the pool's rules: submit or release only an
  * element that an acquire or a receive has handed to you and that you have not handed on since. */
module PoolCustody {
  import opened Basics
  import opened PoolLists
  import Pool = PoolInterleaving

  /** The pool, and the elements each task holds. */
  datatype State = State(pool: Pool.State, held: seq<set<nat>>)

  predicate Enabled(s: State, ev: Pool.Event) {
    && Pool.Enabled(s.pool, ev)
    && ev.t < |s.held|
    && (ev.SubmitPush? || ev.ReleasePush? ==> ev.e in s.held[ev.t])
  }

  /** What a step puts into, and takes out of, the hands of its task. */
  function Gains(s: State, ev: Pool.Event): set<nat> {
    var got := match ev
      case AcquirePop(_) => s.pool.lists.Pop(FreeList).1
      case RecvPop(_) => s.pool.lists.Pop(ReadyList).1
      case _ => None;
    if got.Some? then {got.value} else {}
  }

  function Loses(s: State, ev: Pool.Event): set<nat> {
    if (ev.SubmitPush? || ev.ReleasePush?) && s.pool.lists.CheckedOut(ev.e) then {ev.e} else {}
  }

  function Next(s: State, ev: Pool.Event): State
    requires Enabled(s, ev)
  {
    State(Pool.Next(s.pool, ev), s.held[ev.t := s.held[ev.t] + Gains(s, ev) - Loses(s, ev)])
  }

  ghost predicate Initial(s: State) {
    Pool.Initial(s.pool) && |s.held| == |s.pool.tasks| && forall t :: 0 <= t < |s.held| ==> s.held[t] == {}
  }

  function Run(s: State, evs: seq<Pool.Event>): Option<State> {
    if evs == [] then Some(s) else
    match Run(s, evs[..|evs| - 1])
    case None => None
    case Some(m) => if Enabled(m, evs[|evs| - 1]) then Some(Next(m, evs[|evs| - 1])) else None
  }

  predicate Holds(s: State, t: nat, e: nat) {
    t < |s.held| && e in s.held[t]
  }

  /** An element is checked out exactly if some task holds it, and never do two. */
  ghost predicate Custody(s: State) {
    && (forall t, e :: Holds(s, t, e) ==> s.pool.lists.CheckedOut(e))
    && (forall t, u, e :: Holds(s, t, e) && Holds(s, u, e) ==> t == u)
    && (forall e :: s.pool.lists.CheckedOut(e) ==> exists t :: Holds(s, t, e))
  }

  /** The lists change by exactly what the task gained or lost. */
  lemma StepMovesElements(s: State, ev: Pool.Event, e: nat)
    requires s.pool.lists.Partitioned() && Enabled(s, ev)
    ensures var s' := Next(s, ev);
            s'.pool.lists.CheckedOut(e) <==>
              (s.pool.lists.CheckedOut(e) || e in Gains(s, ev)) && e !in Loses(s, ev)
    ensures e in Gains(s, ev) ==> !s.pool.lists.CheckedOut(e) && e !in Loses(s, ev)
  {
    var l := s.pool.lists;
    if l.free != [] {
      DistinctTail(l.free);
      assert l.free[0] in l.free && forall x :: x in l.free ==> x == l.free[0] || x in l.free[1..];
    }
    if l.ready != [] {
      DistinctTail(l.ready);
      assert l.ready[0] in l.ready && forall x :: x in l.ready ==> x == l.ready[0] || x in l.ready[1..];
    }
  }

  lemma HoldsNext(s: State, ev: Pool.Event, t: nat, e: nat)
    requires Enabled(s, ev)
    ensures Holds(Next(s, ev), t, e) <==>
              if t == ev.t then (Holds(s, t, e) || e in Gains(s, ev)) && e !in Loses(s, ev) else Holds(s, t, e)
  {
  }

  lemma StepKeepsCustody(s: State, ev: Pool.Event)
    requires s.pool.lists.Partitioned() && Custody(s) && Enabled(s, ev)
    ensures Custody(Next(s, ev))
  {
    var s' := Next(s, ev);
    assert forall e :: e in Loses(s, ev) ==> Holds(s, ev.t, e);
    hide Next, Gains, Loses, Enabled, Holds;
    forall t, e | Holds(s', t, e)
      ensures s'.pool.lists.CheckedOut(e)
    {
      HoldsNext(s, ev, t, e);
      StepMovesElements(s, ev, e);
    }
    forall t, u, e | Holds(s', t, e) && Holds(s', u, e)
      ensures t == u
    {
      HoldsNext(s, ev, t, e);
      HoldsNext(s, ev, u, e);
      StepMovesElements(s, ev, e);
    }
    forall e | s'.pool.lists.CheckedOut(e)
      ensures exists t :: Holds(s', t, e)
    {
      StepMovesElements(s, ev, e);
      var t := if e in Gains(s, ev) then ev.t else var t :| Holds(s, t, e); t;
      HoldsNext(s, ev, t, e);
      assert Holds(s', t, e);
    }
  }

  lemma {:induction false} RunKeepsCustody(s0: State, evs: seq<Pool.Event>)
    requires Initial(s0) && Run(s0, evs).Some?
    ensures Custody(Run(s0, evs).value) && Pool.Inv(Run(s0, evs).value.pool)
  {
    if evs == [] {
      Pool.InitialInv(s0.pool);
      PlacesAddUp(s0.pool.lists);
      assert forall e: nat :: e in OutSet(s0.pool.lists) <==> s0.pool.lists.CheckedOut(e);
      assert OutSet(s0.pool.lists) == {};
    } else {
      var k := |evs| - 1;
      RunKeepsCustody(s0, evs[..k]);
      var m := Run(s0, evs[..k]).value;
      StepKeepsCustody(m, evs[k]);
      Pool.StepKeepsInv(m.pool, evs[k]);
    }
  }

  /** In every interleaving of any number of tasks that keep the rules, each checked-out element is
    * held by exactly one of them, and nothing on a list is held at all. */
  lemma HeldByExactlyOne(s0: State, evs: seq<Pool.Event>, e: nat)
    requires Initial(s0) && Run(s0, evs).Some?
    ensures var s := Run(s0, evs).value;
            s.pool.lists.CheckedOut(e) <==> exists t :: Holds(s, t, e) && forall u :: Holds(s, u, e) ==> u == t
    ensures var s := Run(s0, evs).value;
            !s.pool.lists.CheckedOut(e) ==> forall t :: !Holds(s, t, e)
  {
    RunKeepsCustody(s0, evs);
    var s := Run(s0, evs).value;
    if s.pool.lists.CheckedOut(e) {
      var t :| Holds(s, t, e);
      assert forall u :: Holds(s, u, e) ==> u == t;
    }
  }

  /** Such tasks never see a submit or a release refused. */
  lemma PushNeverRefused(s0: State, evs: seq<Pool.Event>, ev: Pool.Event)
    requires Initial(s0) && Run(s0, evs).Some? && Enabled(Run(s0, evs).value, ev)
    requires ev.SubmitPush? || ev.ReleasePush?
    ensures Run(s0, evs).value.pool.lists.CheckedOut(ev.e)
  {
    RunKeepsCustody(s0, evs);
    assert Holds(Run(s0, evs).value, ev.t, ev.e);
  }
}
