/** The capture/encode buffer protocol of main/task/task_video.cpp over the capture device of
  * main/hal/hal_video_capture.c, for any number of buffers N and any queue length Q.
  *
  * Every step is one action of one task between two points where the other may run.  Outcomes of
  * driver calls and the pacing decision are inputs of the steps. */
module PipelineSteps {
  import opened Basics

  /** A captured frame: its number in order of acquisition, and the buffer that carries it. */
  datatype Item = Item(no: nat, buf: nat)

  /** Where the capture task is in its loop. */
  datatype Capture =
    | Waiting                    // about to call hal_vcap_acquire
    | Holding(item: Item)        // dequeued, pacing not decided
    | Accepted(item: Item)       // on the grid and counted, about to call xQueueSend
    | Returning(item: Item)      // about to call hal_vcap_release

  /** Where the encode task is: blocked on the queue, or holding a frame until it releases it. */
  datatype Encode = Blocked | Encoding(item: Item)

  datatype State = State(
    driver: set<nat>, cap: Capture, queue: seq<Item>, enc: Encode, lost: set<nat>,
    acquired: nat, paced: seq<nat>, dropped: seq<nat>, handed: seq<nat>,
    statCap: nat, statDrop: nat, statPace: nat)

  function Inc(counter: nat): nat {
    (counter + 1) % U32
  }

  datatype Event =
    | Acquire(buf: nat)          // VIDIOC_DQBUF delivers this buffer
    | AcquireFails               // VIDIOC_DQBUF fails; the task retries
    | Pace(onGrid: bool)         // on_frame_grid
    | Send                       // xQueueSend with timeout 0
    | CapRelease(qbufOk: bool)   // hal_vcap_release by the capture task
    | Receive                    // xQueueReceive
    | EncRelease(qbufOk: bool)   // hal_vcap_release by the encode task
    | ResetStats                 // log_stats clears the counters

  predicate Enabled(s: State, ev: Event) {
    match ev
    case Acquire(b) => s.cap.Waiting? && b in s.driver
    case AcquireFails => s.cap.Waiting?
    case Pace(_) => s.cap.Holding?
    case Send => s.cap.Accepted?
    case CapRelease(_) => s.cap.Returning?
    case Receive => s.enc.Blocked? && s.queue != []
    case EncRelease(_) => s.enc.Encoding?
    case ResetStats => true
  }

  /** VIDIOC_QBUF gives a buffer back to the driver; nobody looks at its result, so a failure
    * loses the buffer. */
  function GiveBack(s: State, buf: nat, ok: bool): State {
    if ok then s.(driver := s.driver + {buf}) else s.(lost := s.lost + {buf})
  }

  function Next(s: State, queueLen: nat, ev: Event): State
    requires Enabled(s, ev)
  {
    match ev
    case Acquire(b) =>
      s.(driver := s.driver - {b}, cap := Holding(Item(s.acquired, b)), acquired := s.acquired + 1)
    case AcquireFails => s
    case Pace(onGrid) =>
      if onGrid then s.(cap := Accepted(s.cap.item), statCap := Inc(s.statCap))
      else s.(cap := Returning(s.cap.item), statPace := Inc(s.statPace), paced := s.paced + [s.cap.item.no])
    case Send =>
      if |s.queue| < queueLen
      then s.(cap := Waiting, queue := s.queue + [s.cap.item])
      else s.(cap := Returning(s.cap.item), statDrop := Inc(s.statDrop), dropped := s.dropped + [s.cap.item.no])
    case CapRelease(ok) => GiveBack(s.(cap := Waiting), s.cap.item.buf, ok)
    case Receive =>
      s.(enc := Encoding(s.queue[0]), queue := s.queue[1..], handed := s.handed + [s.queue[0].no])
    case EncRelease(ok) => GiveBack(s.(enc := Blocked), s.enc.item.buf, ok)
    case ResetStats =>
      s.(statCap := 0, statDrop := 0, statPace := 0)
  }

  /** After hal_vcap_open every buffer is queued in the driver. */
  function Init(n: nat): State {
    State(Below(n), Waiting, [], Blocked, {}, 0, [], [], [], 0, 0, 0)
  }

  function Run(s: State, queueLen: nat, evs: seq<Event>): Option<State> {
    if evs == [] then Some(s) else
    match Run(s, queueLen, evs[..|evs| - 1])
    case None => None
    case Some(m) =>
      if Enabled(m, evs[|evs| - 1]) then Some(Next(m, queueLen, evs[|evs| - 1])) else None
  }

  lemma RunExtends(s: State, queueLen: nat, evs: seq<Event>, ev: Event)
    requires Run(s, queueLen, evs).Some? && Enabled(Run(s, queueLen, evs).value, ev)
    ensures Run(s, queueLen, evs + [ev]) == Some(Next(Run(s, queueLen, evs).value, queueLen, ev))
  {
    assert (evs + [ev])[..|evs|] == evs;
  }

  ghost predicate Reachable(n: nat, queueLen: nat, s: State) {
    exists evs :: Run(Init(n), queueLen, evs) == Some(s)
  }

  lemma ReachNext(n: nat, queueLen: nat, s: State, ev: Event)
    requires Reachable(n, queueLen, s) && Enabled(s, ev)
    ensures Reachable(n, queueLen, Next(s, queueLen, ev))
  {
    var evs :| Run(Init(n), queueLen, evs) == Some(s);
    assert (evs + [ev])[..|evs|] == evs;
    assert Run(Init(n), queueLen, evs + [ev]) == Some(Next(s, queueLen, ev));
  }

  lemma RunOfOne(s: State, queueLen: nat, a: Event)
    requires Enabled(s, a)
    ensures Run(s, queueLen, [a]) == Some(Next(s, queueLen, a))
  {
    assert Run(s, queueLen, []) == Some(s);
    RunExtends(s, queueLen, [], a);
  }

  lemma RunOfThree(s: State, s1: State, s2: State, queueLen: nat, a: Event, b: Event, c: Event)
    requires Enabled(s, a) && s1 == Next(s, queueLen, a)
    requires Enabled(s1, b) && s2 == Next(s1, queueLen, b) && Enabled(s2, c)
    ensures Run(s, queueLen, [a, b, c]) == Some(Next(s2, queueLen, c))
  {
    RunOfOne(s, queueLen, a);
    hide *;
    RunExtends(s, queueLen, [a], b);
    assert [a] + [b] == [a, b];
    RunExtends(s, queueLen, [a, b], c);
    assert [a, b] + [c] == [a, b, c];
  }

  lemma ReachInit(n: nat, queueLen: nat)
    ensures Reachable(n, queueLen, Init(n))
  {
    assert Run(Init(n), queueLen, []) == Some(Init(n));
  }
}

/** What holds in every reachable state of the pipeline. */
module PipelineSafety {
  import opened Basics
  import opened PipelineSteps

  function Bufs(q: seq<Item>): seq<nat> {
    seq(|q|, i requires 0 <= i < |q| => q[i].buf)
  }

  function Nos(q: seq<Item>): seq<nat> {
    seq(|q|, i requires 0 <= i < |q| => q[i].no)
  }

  /** In how many places buffer `b` is. */
  function Places(s: State, b: nat): nat {
    One(b in s.driver) + One(b in s.lost) + One(!s.cap.Waiting? && s.cap.item.buf == b)
    + multiset(Bufs(s.queue))[b] + One(s.enc.Encoding? && s.enc.item.buf == b)
  }

  /** How many fates frame `no` has met, an open one (not yet paced or queued) counting too. */
  function Fates(s: State, no: nat): nat {
    multiset(s.paced)[no] + multiset(s.dropped)[no] + multiset(s.handed)[no]
    + multiset(Nos(s.queue))[no] + One((s.cap.Holding? || s.cap.Accepted?) && s.cap.item.no == no)
  }

  ghost predicate Increasing(s: seq<nat>) {
    forall i, j :: 0 <= i < j < |s| ==> s[i] < s[j]
  }

  /** The next frame that may enter the queue comes after all that did. */
  function Horizon(s: State): int {
    if s.cap.Holding? || s.cap.Accepted? then s.acquired - 1 else s.acquired
  }

  ghost predicate Ordered(s: State) {
    && Increasing(s.handed + Nos(s.queue))
    && (forall k :: k in s.handed + Nos(s.queue) ==> k < Horizon(s))
    && (s.cap.Holding? || s.cap.Accepted? ==> s.cap.item.no == s.acquired - 1)
  }

  lemma QueueAppend(q: seq<Item>, i: Item)
    ensures Bufs(q + [i]) == Bufs(q) + [i.buf] && Nos(q + [i]) == Nos(q) + [i.no]
  {
  }

  lemma QueueHead(q: seq<Item>)
    requires q != []
    ensures Bufs(q) == [q[0].buf] + Bufs(q[1..]) && Nos(q) == [q[0].no] + Nos(q[1..])
  {
  }

  lemma CountAppend(s: seq<nat>, x: nat, k: nat)
    ensures multiset(s + [x])[k] == multiset(s)[k] + One(x == k)
    ensures multiset([x] + s)[k] == multiset(s)[k] + One(x == k)
  {
  }

  lemma SendMoves(s: State, queueLen: nat, b: nat)
    requires s.cap.Accepted?
    ensures Places(Next(s, queueLen, Send), b) == Places(s, b)
  {
    QueueAppend(s.queue, s.cap.item);
    hide Bufs;
    CountAppend(Bufs(s.queue), s.cap.item.buf, b);
  }

  lemma ReceiveMoves(s: State, b: nat)
    requires s.enc.Blocked? && s.queue != []
    ensures Places(Next(s, 0, Receive), b) == Places(s, b)
  {
    QueueHead(s.queue);
    hide Bufs;
    CountAppend(Bufs(s.queue[1..]), s.queue[0].buf, b);
  }

  /** Giving back a buffer that is held elsewhere and nowhere else. */
  lemma ReleaseMoves(s: State, ev: Event, b: nat)
    requires Enabled(s, ev) && (ev.CapRelease? || ev.EncRelease?) && Places(s, b) <= 1
    ensures Places(Next(s, 0, ev), b) == Places(s, b)
  {
    hide Bufs;
  }

  /** One step moves a buffer from one place to another and never copies or loses track of it. */
  lemma StepKeepsPlaces(s: State, queueLen: nat, ev: Event, b: nat)
    requires Enabled(s, ev) && forall x: nat :: Places(s, x) <= 1
    ensures Places(Next(s, queueLen, ev), b) == Places(s, b)
  {
    match ev
    case Send => SendMoves(s, queueLen, b);
    case Receive => ReceiveMoves(s, b);
    case CapRelease(_) => ReleaseMoves(s, ev, b);
    case EncRelease(_) => ReleaseMoves(s, ev, b);
    case _ => hide Bufs;
  }

  lemma PaceSettles(s: State, onGrid: bool, no: nat)
    requires s.cap.Holding?
    ensures Fates(Next(s, 0, Pace(onGrid)), no) == Fates(s, no)
  {
    CountAppend(s.paced, s.cap.item.no, no);
  }

  lemma SendSettles(s: State, queueLen: nat, no: nat)
    requires s.cap.Accepted?
    ensures Fates(Next(s, queueLen, Send), no) == Fates(s, no)
  {
    QueueAppend(s.queue, s.cap.item);
    hide Nos;
    CountAppend(Nos(s.queue), s.cap.item.no, no);
    CountAppend(s.dropped, s.cap.item.no, no);
  }

  lemma ReceiveSettles(s: State, no: nat)
    requires s.enc.Blocked? && s.queue != []
    ensures Fates(Next(s, 0, Receive), no) == Fates(s, no)
  {
    QueueHead(s.queue);
    hide Nos;
    CountAppend(Nos(s.queue[1..]), s.queue[0].no, no);
    CountAppend(s.handed, s.queue[0].no, no);
  }

  /** One step settles at most one frame, and settles it once. */
  lemma StepKeepsFates(s: State, queueLen: nat, ev: Event, no: nat)
    requires Enabled(s, ev)
    ensures Fates(Next(s, queueLen, ev), no) == Fates(s, no) + One(ev.Acquire? && no == s.acquired)
  {
    match ev
    case Pace(onGrid) => PaceSettles(s, onGrid, no);
    case Send => SendSettles(s, queueLen, no);
    case Receive => ReceiveSettles(s, no);
    case _ => hide Nos;
  }

  lemma IncreasingAppend(s: seq<nat>, x: nat)
    requires Increasing(s) && forall k :: k in s ==> k < x
    ensures Increasing(s + [x])
  {
    assert forall i :: 0 <= i < |s| ==> s[i] in s;
  }

  lemma SendKeepsOrder(s: State, queueLen: nat)
    requires s.cap.Accepted? && Ordered(s)
    ensures Ordered(Next(s, queueLen, Send))
  {
    QueueAppend(s.queue, s.cap.item);
    hide Nos;
    var entered := s.handed + Nos(s.queue);
    IncreasingAppend(entered, s.cap.item.no);
    assert s.handed + (Nos(s.queue) + [s.cap.item.no]) == entered + [s.cap.item.no];
    assert forall k :: k in entered + [s.cap.item.no] ==> k in entered || k == s.cap.item.no;
  }

  lemma StepKeepsOrder(s: State, queueLen: nat, ev: Event)
    requires Enabled(s, ev) && Ordered(s)
    ensures Ordered(Next(s, queueLen, ev))
  {
    if ev.Send? {
      SendKeepsOrder(s, queueLen);
    } else if ev.Receive? {
      QueueHead(s.queue);
      hide Nos;
      assert s.handed + Nos(s.queue) == (s.handed + [s.queue[0].no]) + Nos(s.queue[1..]);
    }
  }

  lemma IncMod(a: nat, c: nat, x: nat)
    requires (a + c) % U32 == x % U32
    ensures (Inc(a) + c) % U32 == (x + 1) % U32
  {
  }

  ghost predicate Inv(s: State, queueLen: nat, n: nat) {
    && (forall b: nat :: Places(s, b) == One(b < n))
    && Ordered(s)
    && (forall no: nat :: Fates(s, no) == One(no < s.acquired))
    && |s.queue| <= queueLen
  }

  lemma StepKeepsInv(s: State, queueLen: nat, ev: Event, n: nat)
    requires Enabled(s, ev) && Inv(s, queueLen, n)
    ensures Inv(Next(s, queueLen, ev), queueLen, n)
  {
    var s' := Next(s, queueLen, ev);
    assert s'.acquired == s.acquired + One(ev.Acquire?) && |s'.queue| <= queueLen;
    StepKeepsOrder(s, queueLen, ev);
    hide Places, Fates, Next, Ordered, Enabled;
    forall b: nat
      ensures Places(s', b) == One(b < n)
    {
      StepKeepsPlaces(s, queueLen, ev, b);
    }
    forall no: nat
      ensures Fates(s', no) == One(no < s'.acquired)
    {
      StepKeepsFates(s, queueLen, ev, no);
    }
  }

  lemma {:induction false} RunKeepsInv(n: nat, queueLen: nat, evs: seq<Event>)
    requires Run(Init(n), queueLen, evs).Some?
    ensures Inv(Run(Init(n), queueLen, evs).value, queueLen, n)
  {
    if evs == [] {
      assert Bufs([]) == [] && Nos([]) == [];
    } else {
      var ev := evs[|evs| - 1];
      RunKeepsInv(n, queueLen, evs[..|evs| - 1]);
      var m := Run(Init(n), queueLen, evs[..|evs| - 1]).value;
      StepKeepsInv(m, queueLen, ev, n);
    }
  }

  lemma ReachableInv(n: nat, queueLen: nat, s: State)
    requires Reachable(n, queueLen, s)
    ensures Inv(s, queueLen, n)
  {
    var evs :| Run(Init(n), queueLen, evs) == Some(s);
    RunKeepsInv(n, queueLen, evs);
  }

  /** Each buffer is in exactly one place: driver, capture task, queue, encode task, or lost to a
    * failed QBUF. */
  lemma EachBufferInOnePlace(n: nat, queueLen: nat, s: State, b: nat)
    requires Reachable(n, queueLen, s)
    ensures Places(s, b) == One(b < n)
  {
    ReachableInv(n, queueLen, s);
  }

  function Held(s: State): nat {
    One(!s.cap.Waiting?) + |s.queue| + One(s.enc.Encoding?)
  }

  lemma CountPlaces(n: nat, queueLen: nat, s: State)
    requires Reachable(n, queueLen, s)
    ensures |s.driver| + |s.lost| + Held(s) == n
    ensures |s.queue| <= queueLen
  {
    ReachableInv(n, queueLen, s);
    hide Places, AllPlaces, Reachable, Held, Ordered, Fates;
    var all := AllPlaces(s);
    forall b: nat
      ensures all[b] == multiset(Below(n))[b]
    {
      assert Places(s, b) == One(b < n);
      PlacesAgree(s, b);
    }
    assert all == multiset(Below(n));
    AllPlacesSize(s);
  }

  function AllPlaces(s: State): multiset<nat> {
    multiset(s.driver) + multiset(s.lost) + (if s.cap.Waiting? then multiset{} else multiset{s.cap.item.buf})
    + multiset(Bufs(s.queue)) + if s.enc.Blocked? then multiset{} else multiset{s.enc.item.buf}
  }

  lemma PlacesAgree(s: State, b: nat)
    ensures AllPlaces(s)[b] == Places(s, b)
  {
  }

  lemma AllPlacesSize(s: State)
    ensures |AllPlaces(s)| == |s.driver| + |s.lost| + Held(s)
  {
  }

  /** When the application can hold at most as many buffers as are left - queue length N - 2 with none
    * lost, for one - the driver runs empty exactly when the capture task, a full queue and the encode
    * task hold everything. */
  lemma DriverEmptyIff(n: nat, queueLen: nat, s: State)
    requires Reachable(n, queueLen, s) && queueLen + 2 + |s.lost| <= n
    ensures s.driver == {} <==>
              !s.cap.Waiting? && |s.queue| == queueLen && s.enc.Encoding? && queueLen + 2 + |s.lost| == n
  {
    CountPlaces(n, queueLen, s);
  }

  /** With `lost` buffers gone, the driver can be left without a buffer; and worse, capture can be
    * waiting for a frame then. */
  ghost predicate CanBeEmpty(n: nat, queueLen: nat, lost: nat) {
    exists s :: Reachable(n, queueLen, s) && s.driver == {} && |s.lost| == lost
  }

  ghost predicate CanStarve(n: nat, queueLen: nat, lost: nat) {
    exists s :: Reachable(n, queueLen, s) && s.driver == {} && |s.lost| == lost && s.cap.Waiting?
  }

  /** "The driver must always keep at least one buffer" holds exactly when the queue is shorter than
    * the buffers left, less two: at N - 2 itself it is broken. */
  lemma DriverCanBeEmptyIff(n: nat, queueLen: nat, lost: nat)
    requires queueLen >= 1 && lost <= n
    ensures CanBeEmpty(n, queueLen, lost) <==> queueLen + 2 >= n - lost
  {
    if s :| Reachable(n, queueLen, s) && s.driver == {} && |s.lost| == lost {
      CountPlaces(n, queueLen, s);
    }
    if queueLen + 2 >= n - lost {
      var k := if n - lost == 0 then 0 else n - lost - 1;
      var s := FillUp(n, queueLen, lost, k);
      CountPlaces(n, queueLen, s);
      if n - lost > 0 {
        var b :| b in s.driver;
        ReachNext(n, queueLen, s, Acquire(b));
        s := Next(s, queueLen, Acquire(b));
        CountPlaces(n, queueLen, s);
      }
      assert s.driver == {} && |s.lost| == lost;
    }
  }

  /** The choice of queue length, settled: capture can wait on an empty driver exactly when the
    * queue is longer than the buffers left, less two. */
  lemma StarvationIff(n: nat, queueLen: nat, lost: nat)
    requires queueLen >= 1 && lost <= n
    ensures CanStarve(n, queueLen, lost) <==> queueLen + 2 > n - lost
  {
    if s :| Reachable(n, queueLen, s) && s.driver == {} && |s.lost| == lost && s.cap.Waiting? {
      CountPlaces(n, queueLen, s);
    }
    if queueLen + 2 > n - lost {
      var s := FillUp(n, queueLen, lost, n - lost);
      CountPlaces(n, queueLen, s);
      assert s.driver == {} && |s.lost| == lost && s.cap.Waiting?;
    }
  }

  /** A run in which `lost` buffers are lost, each by a failed QBUF after a frame that was paced out. */
  lemma {:induction false} Lose(n: nat, queueLen: nat, lost: nat) returns (s: State)
    requires lost <= n
    ensures Reachable(n, queueLen, s)
    ensures s.cap.Waiting? && s.enc.Blocked? && s.queue == [] && |s.lost| == lost
    decreases lost
  {
    if lost == 0 {
      ReachInit(n, queueLen);
      s := Init(n);
    } else {
      var s0 := Lose(n, queueLen, lost - 1);
      CountPlaces(n, queueLen, s0);
      var b :| b in s0.driver;
      EachBufferInOnePlace(n, queueLen, s0, b);
      ReachNext(n, queueLen, s0, Acquire(b));
      var s1 := Next(s0, queueLen, Acquire(b));
      ReachNext(n, queueLen, s1, Pace(false));
      var s2 := Next(s1, queueLen, Pace(false));
      ReachNext(n, queueLen, s2, CapRelease(false));
      s := Next(s2, queueLen, CapRelease(false));
    }
  }

  /** A run that loses `lost` buffers and in which capture then passes on `k` frames while encode works
    * on the first. */
  lemma {:induction false} FillUp(n: nat, queueLen: nat, lost: nat, k: nat) returns (s: State)
    requires k + lost <= n && k <= queueLen + 1 && queueLen >= 1
    ensures Reachable(n, queueLen, s)
    ensures s.cap.Waiting? && |s.lost| == lost && Held(s) == k && (k > 0 ==> s.enc.Encoding?)
    decreases k
  {
    if k == 0 {
      s := Lose(n, queueLen, lost);
    } else {
      s := FillUp(n, queueLen, lost, k - 1);
      CountPlaces(n, queueLen, s);
      s := PassOn(n, queueLen, s);
      if k == 1 {
        ReachNext(n, queueLen, s, Receive);
        s := Next(s, queueLen, Receive);
      }
    }
  }

  /** Capture acquires a frame, accepts it and queues it. */
  lemma PassOn(n: nat, queueLen: nat, s: State) returns (s': State)
    requires Reachable(n, queueLen, s) && s.cap.Waiting? && s.driver != {} && |s.queue| < queueLen
    ensures Reachable(n, queueLen, s')
    ensures s'.cap.Waiting? && s'.enc == s.enc && |s'.queue| == |s.queue| + 1 && s'.lost == s.lost
  {
    var b :| b in s.driver;
    ReachNext(n, queueLen, s, Acquire(b));
    var s1 := Next(s, queueLen, Acquire(b));
    ReachNext(n, queueLen, s1, Pace(true));
    var s2 := Next(s1, queueLen, Pace(true));
    ReachNext(n, queueLen, s2, Send);
    s' := Next(s2, queueLen, Send);
  }

  /** Each acquired frame has exactly one fate: paced out, dropped on a full queue, handed to encode,
    * or still queued or in the capture task's hands. */
  lemma EachFrameOneFate(n: nat, queueLen: nat, s: State, no: nat)
    requires Reachable(n, queueLen, s)
    ensures Fates(s, no) == One(no < s.acquired)
  {
    ReachableInv(n, queueLen, s);
  }

  /** Frames reach encode in the order they were captured, each at most once, with the queued ones next. */
  lemma HandedInOrder(n: nat, queueLen: nat, s: State)
    requires Reachable(n, queueLen, s)
    ensures Increasing(s.handed + Nos(s.queue))
  {
    ReachableInv(n, queueLen, s);
  }

  /** A 32-bit counter that went from c0 to c while what it counts went from n0 to n. */
  ghost predicate Grew(c0: nat, c: nat, n0: nat, n: nat) {
    (c + n0) % U32 == (c0 + n) % U32 && (c0 < U32 ==> c < U32)
  }

  /** From one state to another the counters have grown, modulo 2^32, by the frames paced out, by those
    * dropped, and by those accepted: queued, handed on, dropped, or in mid-send. */
  ghost predicate CountedSince(s0: State, s: State) {
    && Grew(s0.statPace, s.statPace, |s0.paced|, |s.paced|)
    && Grew(s0.statDrop, s.statDrop, |s0.dropped|, |s.dropped|)
    && Grew(s0.statCap, s.statCap, |s0.handed| + |s0.queue| + |s0.dropped| + One(s0.cap.Accepted?),
            |s.handed| + |s.queue| + |s.dropped| + One(s.cap.Accepted?))
  }

  lemma GrewByOne(c0: nat, c: nat, n0: nat, n: nat)
    requires Grew(c0, c, n0, n)
    ensures Grew(c0, Inc(c), n0, n + 1)
  {
    IncMod(c, n0, c0 + n);
  }

  lemma StepCounts(s0: State, s: State, queueLen: nat, ev: Event)
    requires Enabled(s, ev) && !ev.ResetStats? && CountedSince(s0, s)
    ensures CountedSince(s0, Next(s, queueLen, ev))
  {
    GrewByOne(s0.statPace, s.statPace, |s0.paced|, |s.paced|);
    GrewByOne(s0.statDrop, s.statDrop, |s0.dropped|, |s.dropped|);
    GrewByOne(s0.statCap, s.statCap, |s0.handed| + |s0.queue| + |s0.dropped| + One(s0.cap.Accepted?),
              |s.handed| + |s.queue| + |s.dropped| + One(s.cap.Accepted?));
    hide Inc, Grew;
  }

  /** Between resets - over any stretch of a run, from any values of the counters - each counter grows by
    * what it counts. */
  lemma {:induction false} CountersBetweenResets(s: State, queueLen: nat, evs: seq<Event>)
    requires Run(s, queueLen, evs).Some? && ResetStats !in evs
    ensures CountedSince(s, Run(s, queueLen, evs).value)
  {
    if evs != [] {
      var k := |evs| - 1;
      CountersBetweenResets(s, queueLen, evs[..k]);
      StepCounts(s, Run(s, queueLen, evs[..k]).value, queueLen, evs[k]);
    }
  }

  /** So after a reset each counter is the number of frames since, modulo 2^32. */
  lemma CountersSinceReset(s: State, queueLen: nat, evs: seq<Event>)
    requires Run(Next(s, queueLen, ResetStats), queueLen, evs).Some? && ResetStats !in evs
    ensures var s' := Run(Next(s, queueLen, ResetStats), queueLen, evs).value;
      && s'.statPace == (|s'.paced| - |s.paced|) % 0x1_0000_0000
      && s'.statDrop == (|s'.dropped| - |s.dropped|) % 0x1_0000_0000
      && s'.statCap == (|s'.handed| + |s'.queue| + |s'.dropped| + One(s'.cap.Accepted?)
                        - |s.handed| - |s.queue| - |s.dropped| - One(s.cap.Accepted?)) % 0x1_0000_0000
  {
    var s0 := Next(s, queueLen, ResetStats);
    CountersBetweenResets(s0, queueLen, evs);
    var s' := Run(s0, queueLen, evs).value;
    FromZero(s'.statPace, |s0.paced|, |s'.paced|);
    FromZero(s'.statDrop, |s0.dropped|, |s'.dropped|);
    FromZero(s'.statCap, |s0.handed| + |s0.queue| + |s0.dropped| + One(s0.cap.Accepted?),
             |s'.handed| + |s'.queue| + |s'.dropped| + One(s'.cap.Accepted?));
    hide Grew, Run;
  }

  lemma FromZero(c: nat, n0: nat, n: nat)
    requires Grew(0, c, n0, n)
    ensures c == (n - n0) % U32
  {
  }

  /** The releases of a run whose QBUF failed. */
  function FailedReleases(evs: seq<Event>): nat {
    if evs == [] then 0
    else
      var ev := evs[|evs| - 1];
      FailedReleases(evs[..|evs| - 1]) + One(ev == CapRelease(false) || ev == EncRelease(false))
  }

  /** Buffers are lost to failed releases only, one each. */
  lemma {:induction false} LostCount(n: nat, queueLen: nat, evs: seq<Event>)
    requires Run(Init(n), queueLen, evs).Some?
    ensures |Run(Init(n), queueLen, evs).value.lost| == FailedReleases(evs)
  {
    if evs != [] {
      var k := |evs| - 1;
      LostCount(n, queueLen, evs[..k]);
      RunKeepsInv(n, queueLen, evs[..k]);
      LostNext(Run(Init(n), queueLen, evs[..k]).value, queueLen, evs[k]);
    }
  }

  lemma LostNext(s: State, queueLen: nat, ev: Event)
    requires Enabled(s, ev) && forall b: nat :: Places(s, b) <= 1
    ensures |Next(s, queueLen, ev).lost| == |s.lost| + One(ev == CapRelease(false) || ev == EncRelease(false))
  {
    if ev.CapRelease? {
      assert Places(s, s.cap.item.buf) <= 1;
    } else if ev.EncRelease? {
      assert Places(s, s.enc.item.buf) <= 1;
    }
    hide Bufs;
  }
}

/** The two task loops of main/task/task_video.cpp, over their shared context.  Each small method
  * is one step of the protocol; the loop bodies are the steps in the order the code takes them. */
module VideoTasks {
  import opened Basics
  import opened PipelineSteps
  import FrameGrid

  class VideoCtx {
    const queueLen: nat
    const grid: FrameGrid.Grid
    var driver: set<nat>
    var cap: Capture
    var capQueue: seq<Item>
    var enc: Encode
    var acquired: nat            // numbers the frames; the source keeps no such count
    var statCap: nat
    var statCapDrop: nat
    var statCapPace: nat
    ghost var lost: set<nat>
    ghost var paced: seq<nat>
    ghost var dropped: seq<nat>
    ghost var handed: seq<nat>

    ghost function View(): State
      reads this
    {
      State(driver, cap, capQueue, enc, lost, acquired, paced, dropped, handed,
            statCap, statCapDrop, statCapPace)
    }

    constructor (n: nat, queueLen: nat, grid: FrameGrid.Grid)
      ensures View() == Init(n) && this.queueLen == queueLen && this.grid == grid
    {
      this.queueLen, this.grid := queueLen, grid;
      driver, cap, capQueue, enc, acquired := Below(n), Waiting, [], Blocked, 0;
      statCap, statCapDrop, statCapPace := 0, 0, 0;
      lost, paced, dropped, handed := {}, [], [], [];
    }

    /** `hal_vcap_acquire`; `delivered` is what VIDIOC_DQBUF yields, if anything. */
    method VcapAcquire(delivered: Option<nat>) returns (ok: bool)
      requires cap.Waiting? && (delivered.Some? ==> delivered.value in driver)
      modifies this
      ensures ok == delivered.Some? && capQueue == old(capQueue)
      ensures if ok then Enabled(View(), Pace(true)) && Enabled(View(), Pace(false)) else cap.Waiting?
      ensures ok ==> cap.Holding?
      ensures View() == Next(old(View()), queueLen, if ok then Acquire(delivered.value) else AcquireFails)
    {
      if delivered.None? {
        return false;
      }
      driver := driver - {delivered.value};
      cap := Holding(Item(acquired, delivered.value));
      acquired := acquired + 1;
      return true;
    }

    /** The pacing decision, by the frame grid. */
    method DecidePace(now: int) returns (onGrid: bool)
      requires cap.Holding?
      modifies this, grid
      ensures onGrid == FrameGrid.Accepts(old(grid.nextUs), now)
      ensures grid.nextUs == FrameGrid.GridNext(old(grid.nextUs), grid.interval, now)
      ensures capQueue == old(capQueue) && if onGrid then cap.Accepted? else cap.Returning?
      ensures if onGrid then Enabled(View(), Send) else forall ok :: Enabled(View(), CapRelease(ok))
      ensures View() == Next(old(View()), queueLen, Pace(onGrid))
    {
      onGrid := grid.OnFrameGrid(now);
      if onGrid {
        statCap := Inc(statCap);
        cap := Accepted(cap.item);
      } else {
        statCapPace := Inc(statCapPace);
        paced := paced + [cap.item.no];
        cap := Returning(cap.item);
      }
    }

    /** `xQueueSend` with a timeout of zero, and the drop count when the queue is full. */
    method QueueSend() returns (sent: bool)
      requires cap.Accepted?
      modifies this
      ensures sent <==> |old(capQueue)| < queueLen
      ensures if sent then cap.Waiting? else cap.Returning?
      ensures !sent ==> forall ok :: Enabled(View(), CapRelease(ok))
      ensures View() == Next(old(View()), queueLen, Send)
    {
      if |capQueue| < queueLen {
        capQueue := capQueue + [cap.item];
        cap := Waiting;
        return true;
      }
      statCapDrop := Inc(statCapDrop);
      dropped := dropped + [cap.item.no];
      cap := Returning(cap.item);
      return false;
    }

    /** `hal_vcap_release` by the capture task. */
    method CaptureRelease(qbufOk: bool)
      requires cap.Returning?
      modifies this
      ensures cap.Waiting? && View() == Next(old(View()), queueLen, CapRelease(qbufOk))
    {
      if qbufOk {
        driver := driver + {cap.item.buf};
      } else {
        lost := lost + {cap.item.buf};
      }
      cap := Waiting;
    }

    /** One pass of `video_capture_task`, undisturbed: which frame went where, and back to waiting. */
    method CaptureOnce(delivered: Option<nat>, now: int, qbufOk: bool) returns (ghost evs: seq<Event>)
      requires cap.Waiting? && (delivered.Some? ==> delivered.value in driver)
      modifies this, grid
      ensures cap.Waiting? && Run(old(View()), queueLen, evs) == Some(View())
      ensures evs == if delivered.None? then [AcquireFails]
                     else if !FrameGrid.Accepts(old(grid.nextUs), now) then
                       [Acquire(delivered.value), Pace(false), CapRelease(qbufOk)]
                     else if |old(capQueue)| < queueLen then
                       [Acquire(delivered.value), Pace(true), Send]
                     else
                       [Acquire(delivered.value), Pace(true), Send, CapRelease(qbufOk)]
    {
      ghost var s0 := View();
      assert delivered.Some? ==> Enabled(s0, Acquire(delivered.value));
      assert Enabled(s0, AcquireFails);
      hide Run, Next, Enabled, View;
      var ok := VcapAcquire(delivered);
      if !ok {
        RunOfOne(s0, queueLen, AcquireFails);
        return [AcquireFails];
      }
      ghost var s1 := View();
      var onGrid := DecidePace(now);
      ghost var s2 := View();
      if !onGrid {
        CaptureRelease(qbufOk);
        RunOfThree(s0, s1, s2, queueLen, Acquire(delivered.value), Pace(false), CapRelease(qbufOk));
        return [Acquire(delivered.value), Pace(false), CapRelease(qbufOk)];
      }
      var sent := QueueSend();
      RunOfThree(s0, s1, s2, queueLen, Acquire(delivered.value), Pace(true), Send);
      evs := [Acquire(delivered.value), Pace(true), Send];
      if !sent {
        ghost var s3 := View();
        CaptureRelease(qbufOk);
        RunExtends(s0, queueLen, evs, CapRelease(qbufOk));
        evs := evs + [CapRelease(qbufOk)];
      }
    }

    /** `xQueueReceive`; nothing while the queue is empty. */
    method QueueReceive() returns (item: Option<Item>)
      requires enc.Blocked?
      modifies this
      ensures item == if old(capQueue) == [] then None else Some(old(capQueue)[0])
      ensures View() == if old(capQueue) == [] then old(View()) else Next(old(View()), queueLen, Receive)
    {
      if capQueue == [] {
        return None;
      }
      item := Some(capQueue[0]);
      handed := handed + [capQueue[0].no];
      enc := Encoding(capQueue[0]);
      capQueue := capQueue[1..];
    }

    /** `hal_vcap_release` by the encode task. */
    method EncodeRelease(qbufOk: bool)
      requires enc.Encoding?
      modifies this
      ensures View() == Next(old(View()), queueLen, EncRelease(qbufOk))
    {
      if qbufOk {
        driver := driver + {enc.item.buf};
      } else {
        lost := lost + {enc.item.buf};
      }
      enc := Blocked;
    }
  }
}
