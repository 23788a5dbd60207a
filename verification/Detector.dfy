/** The detector of main/task/task_detect.cpp fed by `feed_detector` of main/task/task_video.cpp:
  * two tasks lending the pool's buffers to each other, in every interleaving. */
module DetectorSteps {
  import opened Basics
  import opened PoolLists
  import Pool = PoolInterleaving

  /** Where the encode task is in feed_detector. */
  datatype Feed = FeedIdle | Borrowed(e: nat) | Publishing

  /** Where the detect task is in its loop. */
  datatype Detect = DetectIdle | Woken | Holding(e: nat) | Inferred(e: nat)

  /** What happened to a buffer, for the record. */
  datatype Deed = Borrow(e: nat) | Submit(e: nat) | Discard(e: nat) | Take(e: nat) | Infer(e: nat) | Release(e: nat)

  datatype State = State(lists: Lists, sem: nat, feed: Feed, detect: Detect, log: seq<Deed>)

  datatype Event =
    | AcquireInput            // ped_acquire_input
    | SubmitPush              // ped_submit after a successful fill, first half
    | SubmitGive              // second half
    | DiscardInput            // ped_discard after a failed fill
    | RecvTake                // frame_pool_recv in detect_task, semaphore
    | RecvPop                 // list
    | RunModel                // s_detect->run and store_results
    | ReleaseInput            // frame_pool_release

  predicate Enabled(s: State, ev: Event) {
    match ev
    case AcquireInput => s.feed.FeedIdle?
    case SubmitPush => s.feed.Borrowed?
    case SubmitGive => s.feed.Publishing?
    case DiscardInput => s.feed.Borrowed?
    case RecvTake => s.detect.DetectIdle? && s.sem > 0
    case RecvPop => s.detect.Woken?
    case RunModel => s.detect.Holding?
    case ReleaseInput => s.detect.Inferred?
  }

  function Next(s: State, ev: Event): State
    requires Enabled(s, ev)
  {
    match ev
    case AcquireInput =>
      var (l, e) := s.lists.Pop(FreeList);
      if e.None? then s
      else s.(lists := l, feed := Borrowed(e.value), log := s.log + [Borrow(e.value)])
    case SubmitPush =>
      // frame_pool_submit gives only if the push was legal; ped_submit ignores the result
      if s.lists.CheckedOut(s.feed.e)
      then s.(lists := s.lists.Push(ReadyList, s.feed.e), feed := Publishing, log := s.log + [Submit(s.feed.e)])
      else s.(feed := FeedIdle)
    case SubmitGive =>
      s.(sem := if s.sem < s.lists.n then s.sem + 1 else s.sem, feed := FeedIdle)
    case DiscardInput =>
      s.(lists := s.lists.Push(FreeList, s.feed.e), feed := FeedIdle, log := s.log + [Discard(s.feed.e)])
    case RecvTake => s.(sem := s.sem - 1, detect := Woken)
    case RecvPop =>
      var (l, e) := s.lists.Pop(ReadyList);
      if e.None? then s.(detect := DetectIdle)
      else s.(lists := l, detect := Holding(e.value), log := s.log + [Take(e.value)])
    case RunModel => s.(detect := Inferred(s.detect.e), log := s.log + [Infer(s.detect.e)])
    case ReleaseInput =>
      s.(lists := s.lists.Push(FreeList, s.detect.e), detect := DetectIdle, log := s.log + [Release(s.detect.e)])
  }

  ghost predicate Initial(s: State) {
    && s.lists.Partitioned() && |s.lists.free| == s.lists.n && s.lists.ready == [] && s.sem == 0
    && s.feed == FeedIdle && s.detect == DetectIdle && s.log == []
  }

  function Run(s: State, evs: seq<Event>): Option<State> {
    if evs == [] then Some(s) else
    match Run(s, evs[..|evs| - 1])
    case None => None
    case Some(m) => if Enabled(m, evs[|evs| - 1]) then Some(Next(m, evs[|evs| - 1])) else None
  }

  ghost predicate Reachable(s: State) {
    exists s0, evs :: Initial(s0) && Run(s0, evs) == Some(s)
  }

  // ----- the life of one buffer -----

  datatype Stage = Free | Lent | Queued | Taken | Done

  /** The only legal order of deeds on one buffer. */
  function Advance(st: Stage, d: Deed): Option<Stage> {
    match (st, d)
    case (Free, Borrow(_)) => Some(Lent)
    case (Lent, Submit(_)) => Some(Queued)
    case (Lent, Discard(_)) => Some(Free)
    case (Queued, Take(_)) => Some(Taken)
    case (Taken, Infer(_)) => Some(Done)
    case (Done, Release(_)) => Some(Free)
    case _ => None
  }

  /** The stage of buffer `e` after a log, if every deed on it came in a legal order. */
  function Life(log: seq<Deed>, e: nat): Option<Stage> {
    if log == [] then Some(Free) else
    match Life(log[..|log| - 1], e)
    case None => None
    case Some(st) => if log[|log| - 1].e == e then Advance(st, log[|log| - 1]) else Some(st)
  }

  /** The stage of a buffer, read off the state. */
  function StageOf(s: State, e: nat): Stage {
    if e in s.lists.ready then Queued
    else if s.feed == Borrowed(e) then Lent
    else if s.detect == Holding(e) then Taken
    else if s.detect == Inferred(e) then Done
    else Free
  }

  // ----- refinement of the pool -----

  function FeedPc(f: Feed): Pool.Pc {
    if f.Publishing? then Pool.Pushed else Pool.Idle
  }

  function DetectPc(d: Detect): Pool.Pc {
    if d.Woken? then Pool.Woken else Pool.Idle
  }

  /** The system seen as a pool with two tasks. */
  function PoolView(s: State): Pool.State {
    Pool.State(s.lists, s.sem, [FeedPc(s.feed), DetectPc(s.detect)])
  }

  /** A buffer is checked out exactly while one of the two tasks holds it, and never both. */
  ghost predicate Custody(s: State) {
    && (forall e: nat :: e < s.lists.n ==>
          (s.lists.CheckedOut(e) <==> s.feed == Borrowed(e) || s.detect == Holding(e) || s.detect == Inferred(e)))
    && (s.feed.Borrowed? ==> s.feed.e < s.lists.n && !(s.detect == Holding(s.feed.e) || s.detect == Inferred(s.feed.e)))
    && (s.detect.Holding? || s.detect.Inferred? ==> s.detect.e < s.lists.n)
  }

  ghost predicate Inv(s: State) {
    && Pool.Inv(PoolView(s))
    && Custody(s)
    && forall e: nat :: e < s.lists.n ==> Life(s.log, e) == Some(StageOf(s, e))
  }

  /** The pool step a system step is, if it touches the pool. */
  function PoolEvent(s: State, ev: Event): Pool.Event
    requires Enabled(s, ev) && !ev.RunModel?
  {
    match ev
    case AcquireInput => Pool.AcquirePop(0)
    case SubmitPush => Pool.SubmitPush(0, s.feed.e)
    case SubmitGive => Pool.SubmitGive(0)
    case DiscardInput => Pool.ReleasePush(0, s.feed.e)
    case RecvTake => Pool.RecvTake(1)
    case RecvPop => Pool.RecvPop(1)
    case ReleaseInput => Pool.ReleasePush(1, s.detect.e)
  }

  /** Every step of the system is a step of the pool, or leaves the pool alone. */
  lemma StepRefinesPool(s: State, ev: Event)
    requires Inv(s) && Enabled(s, ev)
    ensures ev.RunModel? ==> PoolView(Next(s, ev)) == PoolView(s)
    ensures !ev.RunModel? ==>
              && Pool.Enabled(PoolView(s), PoolEvent(s, ev))
              && Pool.Next(PoolView(s), PoolEvent(s, ev)) == PoolView(Next(s, ev))
  {
  }

  lemma StepKeepsPool(s: State, ev: Event)
    requires Inv(s) && Enabled(s, ev)
    ensures Pool.Inv(PoolView(Next(s, ev))) && Next(s, ev).lists.n == s.lists.n
  {
    StepRefinesPool(s, ev);
    if !ev.RunModel? {
      Pool.StepKeepsInv(PoolView(s), PoolEvent(s, ev));
    }
  }

  /** A pop after a take finds a buffer. */
  lemma WokenFinds(s: State)
    requires Inv(s) && s.detect.Woken?
    ensures s.lists.ready != []
  {
    Pool.CountUpdate(PoolView(s).tasks, 1, Pool.Idle, Pool.Woken);
  }

  lemma LifeNext(log: seq<Deed>, d: Deed, e: nat)
    requires Life(log, e).Some?
    ensures Life(log + [d], e) == if d.e == e then Advance(Life(log, e).value, d) else Life(log, e)
  {
    assert (log + [d])[..|log|] == log;
  }

  lemma StepKeepsCustody(s: State, ev: Event)
    requires s.lists.Partitioned() && Custody(s) && Enabled(s, ev)
    ensures Custody(Next(s, ev))
  {
    if ev.AcquireInput? && s.lists.free != [] {
      DistinctTail(s.lists.free);
      assert s.lists.free[0] in s.lists.free;
    }
    if ev.RecvPop? && s.lists.ready != [] {
      DistinctTail(s.lists.ready);
      assert s.lists.ready[0] in s.lists.ready;
    }
  }

  /** Each step moves at most one buffer, along a legal edge of its life. */
  lemma StepAdvances(s: State, ev: Event, e: nat)
    requires s.lists.Partitioned() && Custody(s) && Enabled(s, ev) && e < s.lists.n
    requires s.detect.Woken? ==> s.lists.ready != []
    ensures var s' := Next(s, ev);
            if s'.log == s.log then StageOf(s', e) == StageOf(s, e)
            else
              && s'.log == s.log + [s'.log[|s'.log| - 1]]
              && var d := s'.log[|s'.log| - 1];
                 if d.e == e then Advance(StageOf(s, e), d) == Some(StageOf(s', e))
                 else StageOf(s', e) == StageOf(s, e)
  {
    if s.lists.free != [] { DistinctTail(s.lists.free); }
    if s.lists.ready != [] { DistinctTail(s.lists.ready); }
  }

  lemma StepKeepsInv(s: State, ev: Event)
    requires Inv(s) && Enabled(s, ev)
    ensures Inv(Next(s, ev))
  {
    var s' := Next(s, ev);
    StepKeepsPool(s, ev);
    StepKeepsCustody(s, ev);
    if s.detect.Woken? { WokenFinds(s); }
    forall e: nat | e < s.lists.n
      ensures Life(s'.log, e) == Some(StageOf(s', e))
    {
      hide Life, StageOf, Next, Custody;
      StepAdvances(s, ev, e);
      if s'.log != s.log {
        LifeNext(s.log, s'.log[|s'.log| - 1], e);
      }
    }
  }

  lemma {:induction false} RunKeepsInv(s0: State, evs: seq<Event>)
    requires Initial(s0) && Run(s0, evs).Some?
    ensures Inv(Run(s0, evs).value)
  {
    if evs == [] {
      InitialInv(s0);
    } else {
      RunKeepsInv(s0, evs[..|evs| - 1]);
      StepKeepsInv(Run(s0, evs[..|evs| - 1]).value, evs[|evs| - 1]);
    }
  }

  lemma InitialInv(s: State)
    requires Initial(s)
    ensures Inv(s)
  {
    Pool.InitialInv(PoolView(s));
    PlacesAddUp(s.lists);
    assert forall e: nat :: e in OutSet(s.lists) <==> e < s.lists.n && s.lists.CheckedOut(e);
    assert OutSet(s.lists) == {};
  }

  /** In every interleaving each buffer goes round and round the same way: borrowed, then discarded,
    * or submitted, taken, inferred and released - each once, in that order. */
  lemma BufferLife(s: State, e: nat)
    requires Reachable(s) && e < s.lists.n
    ensures Life(s.log, e) == Some(StageOf(s, e))
  {
    var s0, evs :| Initial(s0) && Run(s0, evs) == Some(s);
    RunKeepsInv(s0, evs);
  }

  /** The same in numbers: every borrow is answered by one submit or discard, every submit by one
    * take, every take by one inference, and every inference by one release, except for the deed
    * the buffer is waiting for now. */
  ghost predicate Balanced(m: multiset<Deed>, e: nat, st: Stage) {
    && m[Borrow(e)] == m[Submit(e)] + m[Discard(e)] + One(st == Lent)
    && m[Submit(e)] == m[Take(e)] + One(st == Queued)
    && m[Take(e)] == m[Infer(e)] + One(st == Taken)
    && m[Infer(e)] == m[Release(e)] + One(st == Done)
  }

  lemma {:induction false} LifeBalances(log: seq<Deed>, e: nat)
    requires Life(log, e).Some?
    ensures Balanced(multiset(log), e, Life(log, e).value)
  {
    if log != [] {
      var n := |log| - 1;
      LifeBalances(log[..n], e);
      assert log == log[..n] + [log[n]];
      BalanceNext(multiset(log[..n]), log[n], e, Life(log[..n], e).value, Life(log, e).value);
    }
  }

  lemma BalanceNext(m: multiset<Deed>, d: Deed, e: nat, st: Stage, st': Stage)
    requires Balanced(m, e, st)
    requires if d.e == e then Advance(st, d) == Some(st') else st' == st
    ensures Balanced(m + multiset{d}, e, st')
  {
    assert forall x: Deed :: (m + multiset{d})[x] == m[x] + One(x == d);
  }

  lemma DeedsBalance(s: State, e: nat)
    requires Reachable(s) && e < s.lists.n
    ensures Balanced(multiset(s.log), e, StageOf(s, e))
  {
    BufferLife(s, e);
    LifeBalances(s.log, e);
  }

  /** The results the callers ignore are always ESP_OK, and `detect_task` never gets NULL. */
  lemma PoolCallsSucceed(s: State)
    requires Reachable(s)
    ensures s.feed.Borrowed? ==> s.lists.CheckedOut(s.feed.e)
    ensures s.detect.Holding? || s.detect.Inferred? ==> s.lists.CheckedOut(s.detect.e)
    ensures s.detect.Woken? ==> s.lists.ready != []
  {
    var s0, evs :| Initial(s0) && Run(s0, evs) == Some(s);
    RunKeepsInv(s0, evs);
    if s.detect.Woken? { WokenFinds(s); }
  }
}
