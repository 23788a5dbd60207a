/** The whole video path, with the bytes: the camera writing into driver buffers, the capture task,
  * the overlay's stores and write-backs, the encoder reading by DMA, and the detector's box store -
  * every interleaving of them.
  *
  * Each buffer has two views, as in `Overlay`: the CPU's and the one DMA reads and writes.  A frame
  * arrives by DMA, so the two agree when it is dequeued. */
module VideoSystem {
  import opened Basics
  import opened OsdPaint
  import Overlay
  import P = PipelineSteps
  import Safety = PipelineSafety
  import H = EncoderHandoff
  import Boxes = BoxStore
  import B = BoxStoreSteps

  /** Number of buffers, queue length, frame geometry and box scale. */
  datatype Config = Config(n: nat, queueLen: nat, frame: Frame, sx: int, sy: int)

  /** How far `overlay_boxes` has got with the frame in the encode task's hands; `read` is the call of
    * get_boxes it drew from, `target` what the CPU view is to become. */
  datatype Drawing = NotYet | Busy(read: nat, target: seq<byte>) | Done(read: nat, published: bool)

  datatype State = State(
    h: H.State,
    store: B.State,
    cpu: seq<seq<byte>>,
    dma: seq<seq<byte>>,
    captured: seq<seq<byte>>,     // what each frame was when it was dequeued
    drawing: Drawing,
    fetchedAt: nat,               // result sets complete when the encode task fetched its frame ...
    readsBefore: nat)             // ... and get_boxes calls that had returned by then

  datatype Event =
    | Handoff(ev: H.Event)                  // any step of the capture and encode tasks
    | BoxStep(box: B.Event)                 // any step of the box store's two users
    | Camera(buf: nat, i: nat, v: byte)     // DMA into a buffer the driver has
    | BeginOverlay(target: seq<byte>)
    | Store(i: nat)                         // one CPU store
    | Publish(i: nat)                       // one byte written back
    | EndOverlay(ok: bool)                  // whether every write-back was accepted

  function Buf(s: State): nat
    requires s.h.p.enc.Encoding?
  {
    s.h.p.enc.item.buf
  }

  /** The encode task holds a frame and has not called the encoder yet. */
  predicate Preparing(s: State) {
    s.h.p.enc.Encoding? && s.h.phase.Fresh? && Buf(s) < |s.cpu| && Buf(s) < |s.dma|
  }

  /** The detector's boxes, without their scores. */
  function ToBoxes(bs: seq<Boxes.DetBox>): seq<Box> {
    seq(|bs|, i requires 0 <= i < |bs| => Box(bs[i].x1, bs[i].y1, bs[i].x2, bs[i].y2))
  }

  /** The marks of the boxes that one call of get_boxes returned. */
  ghost function MarksOf(c: Config, read: B.Read): Pixels {
    Marks(c.frame, ToBoxes(read.boxes), c.sx, c.sy)
  }

  /** The rows with a mark have been written back; nothing is said of the others. */
  ghost predicate RowsPublished(c: Config, s: State)
    requires Preparing(s) && s.drawing.Busy?
  {
    && s.drawing.read < |s.store.returned|
    && |s.dma[Buf(s)]| == |s.cpu[Buf(s)]| == c.frame.Bytes()
    && forall y, o | 0 <= y < c.frame.height && 0 <= o < c.frame.Stride()
                     && HasRow(MarksOf(c, s.store.returned[s.drawing.read]), y) ::
         s.dma[Buf(s)][At(c.frame, y, o)] == s.cpu[Buf(s)][At(c.frame, y, o)]
  }

  function SetAt(views: seq<seq<byte>>, buf: nat, i: nat, v: byte): seq<seq<byte>>
    requires buf < |views| && i < |views[buf]|
  {
    var bytes: seq<byte> := views[buf][i := v];
    views[buf := bytes]
  }

  /** Drawing starts once the boxes are read, by a call that returned after the frame was fetched; the
    * encoder is called once drawing is over.  When drawing is over the CPU view is the target. */
  ghost predicate Enabled(c: Config, s: State, ev: Event) {
    match ev
    case Handoff(e) => H.Enabled(s.h, e) && (e.QbufIn? ==> s.drawing.Done?)
                       && (e.Other? && e.ev.Acquire? ==> e.ev.buf < |s.dma| && e.ev.buf < |s.cpu|)
    case BoxStep(e) => B.Enabled(s.store, e)
    case Camera(b, i, _) => b in s.h.p.driver && b < |s.dma| && i < |s.dma[b]|
    case BeginOverlay(target) =>
      && Preparing(s) && s.drawing.NotYet? && |s.store.returned| > s.readsBefore
      && Painted(s.cpu[Buf(s)], target, c.frame, MarksOf(c, s.store.returned[|s.store.returned| - 1]))
    case Store(i) =>
      Preparing(s) && s.drawing.Busy? && i < |s.drawing.target| && i < |s.cpu[Buf(s)]|
    case Publish(i) =>
      Preparing(s) && s.drawing.Busy? && i < |s.cpu[Buf(s)]| && i < |s.dma[Buf(s)]|
    case EndOverlay(ok) =>
      && Preparing(s) && s.drawing.Busy? && s.cpu[Buf(s)] == s.drawing.target
      && (ok ==> RowsPublished(c, s))
  }

  ghost function Next(c: Config, s: State, ev: Event): State
    requires Enabled(c, s, ev)
  {
    match ev
    case Handoff(e) =>
      var s' := s.(h := H.Next(s.h, c.queueLen, e));
      if e.Other? && e.ev.Acquire? then
        s'.(cpu := s.cpu[e.ev.buf := s.dma[e.ev.buf]], captured := s.captured + [s.dma[e.ev.buf]])
      else if e.Fetch? then
        s'.(drawing := NotYet, fetchedAt := |s.store.completed|, readsBefore := |s.store.returned|)
      else s'
    case BoxStep(e) => s.(store := B.Next(s.store, e))
    case Camera(b, i, v) => s.(dma := SetAt(s.dma, b, i, v))
    case BeginOverlay(target) => s.(drawing := Busy(|s.store.returned| - 1, target))
    case Store(i) => s.(cpu := SetAt(s.cpu, Buf(s), i, s.drawing.target[i]))
    case Publish(i) => s.(dma := SetAt(s.dma, Buf(s), i, s.cpu[Buf(s)][i]))
    case EndOverlay(ok) => s.(drawing := Done(s.drawing.read, ok))
  }

  ghost predicate Initial(c: Config, s: State) {
    && s.h == H.Init(c.n) && B.Initial(s.store)
    && |s.cpu| == |s.dma| == c.n && s.captured == [] && s.drawing == NotYet
    && s.fetchedAt == s.readsBefore == 0
  }

  ghost function Run(c: Config, s: State, evs: seq<Event>): Option<State> {
    if evs == [] then Some(s) else
    match Run(c, s, evs[..|evs| - 1])
    case None => None
    case Some(m) => if Enabled(c, m, evs[|evs| - 1]) then Some(Next(c, m, evs[|evs| - 1])) else None
  }

  // ----- invariant -----

  /** Both views of the frame's buffer are still what was captured. */
  ghost predicate Intact(s: State, item: P.Item) {
    && item.no < |s.captured|
    && item.buf < |s.cpu| == |s.dma|
    && s.cpu[item.buf] == s.dma[item.buf] == s.captured[item.no]
  }

  /** Every byte is the captured one or the drawn one. */
  ghost predicate Between(bytes: seq<byte>, captured: seq<byte>, drawn: seq<byte>) {
    |bytes| == |captured| == |drawn| && forall i :: 0 <= i < |bytes| ==> bytes[i] == captured[i] || bytes[i] == drawn[i]
  }

  /** What is known of the frame in the encode task's hands. */
  ghost predicate Prepared(c: Config, s: State)
    requires s.h.p.enc.Encoding?
  {
    var item := s.h.p.enc.item;
    && item.no < |s.captured| && item.buf < |s.cpu| == |s.dma|
    && match s.drawing
       case NotYet => s.h.phase.Fresh? ==> Intact(s, item)
       case Busy(read, target) =>
         && s.h.phase.Fresh? && s.readsBefore <= read < |s.store.returned|
         && Painted(s.captured[item.no], target, c.frame, MarksOf(c, s.store.returned[read]))
         && Between(s.cpu[item.buf], s.captured[item.no], target)
         && Between(s.dma[item.buf], s.captured[item.no], target)
       case Done(read, published) =>
         && s.readsBefore <= read < |s.store.returned|
         && Painted(s.captured[item.no], s.cpu[item.buf], c.frame, MarksOf(c, s.store.returned[read]))
         && Between(s.dma[item.buf], s.captured[item.no], s.cpu[item.buf])
         && (published ==> s.dma[item.buf] == s.cpu[item.buf])
  }

  ghost predicate Held(s: State) {
    && (!s.h.p.cap.Waiting? ==> Intact(s, s.h.p.cap.item))
    && (forall i :: 0 <= i < |s.h.p.queue| ==> Intact(s, s.h.p.queue[i]))
  }

  /** Calls that returned since the frame was fetched saw every result set complete by then. */
  ghost predicate FreshReads(s: State) {
    && s.fetchedAt <= |s.store.completed|
    && forall r :: s.readsBefore <= r < |s.store.returned| ==> s.store.returned[r].done >= s.fetchedAt
  }

  ghost predicate Inv(c: Config, s: State) {
    && H.Inv(c.n, c.queueLen, s.h) && B.Inv(s.store) && FreshReads(s)
    && |s.cpu| == |s.dma| == c.n && |s.captured| == s.h.p.acquired
    && Held(s)
    && (s.h.p.enc.Encoding? ==> Prepared(c, s) && (H.Reading(s.h.phase) ==> s.drawing.Done?))
  }

  /** Who else can have a buffer that the driver, or the encode task, has: nobody. */
  lemma Alone(c: Config, s: State, b: nat)
    requires H.Inv(c.n, c.queueLen, s.h)
    ensures b in s.h.p.driver ==>
              && b < c.n
              && (!s.h.p.cap.Waiting? ==> s.h.p.cap.item.buf != b)
              && (forall i :: 0 <= i < |s.h.p.queue| ==> s.h.p.queue[i].buf != b)
              && (s.h.p.enc.Encoding? ==> s.h.p.enc.item.buf != b)
    ensures s.h.p.enc.Encoding? && s.h.p.enc.item.buf == b ==>
              && b < c.n && b !in s.h.p.driver
              && (!s.h.p.cap.Waiting? ==> s.h.p.cap.item.buf != b)
              && (forall i :: 0 <= i < |s.h.p.queue| ==> s.h.p.queue[i].buf != b)
  {
    Safety.EachBufferInOnePlace(c.n, c.queueLen, s.h.p, b);
    var bufs := Safety.Bufs(s.h.p.queue);
    assert forall i :: 0 <= i < |bufs| ==> bufs[i] == s.h.p.queue[i].buf && bufs[i] in bufs;
  }

  /** The frame in the encode task's hands is as it was when none of this concerns it. */
  lemma PreparedFrame(c: Config, s: State, s': State)
    requires s.h.p.enc.Encoding? && Prepared(c, s)
    requires s'.h.p.enc == s.h.p.enc && s'.drawing == s.drawing && s'.readsBefore == s.readsBefore
    requires s'.h.phase == s.h.phase || s.drawing.Done?
    requires s.captured <= s'.captured && s.store.returned <= s'.store.returned
    requires |s'.cpu| == |s'.dma| == |s.cpu|
    requires s'.cpu[Buf(s)] == s.cpu[Buf(s)] && s'.dma[Buf(s)] == s.dma[Buf(s)]
    ensures Prepared(c, s')
  {
    hide Painted, Between, MarksOf;
  }

  lemma BoxStepKeepsInv(c: Config, s: State, e: B.Event)
    requires Inv(c, s) && Enabled(c, s, BoxStep(e))
    ensures Inv(c, Next(c, s, BoxStep(e)))
  {
    B.StepKeepsInv(s.store, e);
    var s' := Next(c, s, BoxStep(e));
    assert s.store.returned <= s'.store.returned && FreshReads(s');
    if s.h.p.enc.Encoding? { PreparedFrame(c, s, s'); }
    hide H.Inv, B.Inv, Prepared, B.Next;
  }

  lemma CameraKeepsInv(c: Config, s: State, ev: Event)
    requires Inv(c, s) && ev.Camera? && Enabled(c, s, ev)
    ensures Inv(c, Next(c, s, ev))
  {
    Alone(c, s, ev.buf);
    var s' := Next(c, s, ev);
    hide H.Inv, B.Inv;
    if s.h.p.enc.Encoding? { PreparedFrame(c, s, s'); }
    hide Prepared;
  }

  lemma AcquireKeepsInv(c: Config, s: State, ev: Event)
    requires Inv(c, s) && Enabled(c, s, ev) && ev.Handoff? && ev.ev.Other? && ev.ev.ev.Acquire?
    ensures Inv(c, Next(c, s, ev))
  {
    H.StepKeepsInv(c.n, c.queueLen, s.h, ev.ev);
    Alone(c, s, ev.ev.ev.buf);
    var s' := Next(c, s, ev);
    hide H.Inv, B.Inv;
    if s.h.p.enc.Encoding? { PreparedFrame(c, s, s'); }
    hide Prepared;
  }

  lemma FetchKeepsInv(c: Config, s: State, ev: Event)
    requires Inv(c, s) && Enabled(c, s, ev) && ev == Handoff(H.Fetch)
    ensures Inv(c, Next(c, s, ev))
  {
    H.StepKeepsInv(c.n, c.queueLen, s.h, ev.ev);
    hide H.Inv, B.Inv;
  }

  /** What the other steps of the capture task do with the frames: none is new, and the encode task's
    * stays where it is. */
  lemma CaptureMoves(h: H.State, queueLen: nat, e: H.Event)
    requires H.Enabled(h, e) && e.Other? && !e.ev.Acquire?
    ensures var h' := H.Next(h, queueLen, e);
      && h'.p.acquired == h.p.acquired && h'.p.enc == h.p.enc && h'.phase == h.phase
      && (!h'.p.cap.Waiting? ==> !h.p.cap.Waiting? && h'.p.cap.item == h.p.cap.item)
      && (h'.p.queue == h.p.queue || (!h.p.cap.Waiting? && h'.p.queue == h.p.queue + [h.p.cap.item]))
  {
  }

  lemma EncodeMoves(h: H.State, queueLen: nat, e: H.Event)
    requires H.Enabled(h, e) && !e.Other? && !e.Fetch?
    ensures h.p.enc.Encoding?
    ensures var h' := H.Next(h, queueLen, e);
      && h'.p.acquired == h.p.acquired && h'.p.cap == h.p.cap && h'.p.queue == h.p.queue
      && (if e.GiveBack? then h'.p.enc.Blocked? else h'.p.enc == h.p.enc)
      && (e.QbufIn? || H.Reading(h.phase) || e.GiveBack?)
  {
  }

  /** The other steps of the capture task move frames without touching a byte. */
  lemma CaptureKeepsInv(c: Config, s: State, ev: Event)
    requires Inv(c, s) && Enabled(c, s, ev) && ev.Handoff? && ev.ev.Other? && !ev.ev.ev.Acquire?
    ensures Inv(c, Next(c, s, ev))
  {
    H.StepKeepsInv(c.n, c.queueLen, s.h, ev.ev);
    CaptureMoves(s.h, c.queueLen, ev.ev);
    var s' := Next(c, s, ev);
    hide H.Inv, H.Next, H.Enabled, B.Inv;
    if s.h.p.enc.Encoding? { PreparedFrame(c, s, s'); }
    hide Prepared;
  }

  /** So do the encoder's driver calls; the first comes only once drawing is over. */
  lemma EncodeKeepsInv(c: Config, s: State, ev: Event)
    requires Inv(c, s) && Enabled(c, s, ev) && ev.Handoff? && !ev.ev.Other? && !ev.ev.Fetch?
    ensures Inv(c, Next(c, s, ev))
  {
    H.StepKeepsInv(c.n, c.queueLen, s.h, ev.ev);
    EncodeMoves(s.h, c.queueLen, ev.ev);
    var s' := Next(c, s, ev);
    hide H.Inv, H.Next, H.Enabled, B.Inv;
    if !ev.ev.GiveBack? { PreparedFrame(c, s, s'); }
    hide Prepared;
  }

  lemma BeginKeepsInv(c: Config, s: State, ev: Event)
    requires Inv(c, s) && ev.BeginOverlay? && Enabled(c, s, ev)
    ensures Inv(c, Next(c, s, ev))
  {
    var s' := Next(c, s, ev);
    assert |ev.target| == |s.cpu[Buf(s)]|;
    hide H.Inv, B.Inv, MarksOf, Painted;
  }

  lemma BetweenSet(bytes: seq<byte>, captured: seq<byte>, drawn: seq<byte>, i: nat, v: byte)
    requires Between(bytes, captured, drawn) && i < |bytes| && (v == captured[i] || v == drawn[i])
    ensures Between(bytes[i := v], captured, drawn)
  {
  }

  /** Nobody else's frame changes when the views of the encode task's buffer do. */
  lemma OthersStayIntact(c: Config, s: State, s': State)
    requires Inv(c, s) && s.h.p.enc.Encoding? && s'.h == s.h && s'.captured == s.captured
    requires |s'.cpu| == |s'.dma| == c.n
    requires forall b :: 0 <= b < c.n && b != Buf(s) ==> s'.cpu[b] == s.cpu[b] && s'.dma[b] == s.dma[b]
    ensures Held(s')
  {
    Alone(c, s, Buf(s));
    hide H.Inv, B.Inv, Prepared;
  }

  lemma StoreKeepsInv(c: Config, s: State, ev: Event)
    requires Inv(c, s) && ev.Store? && Enabled(c, s, ev)
    ensures Inv(c, Next(c, s, ev))
  {
    BetweenSet(s.cpu[Buf(s)], s.captured[s.h.p.enc.item.no], s.drawing.target, ev.i, s.drawing.target[ev.i]);
    OthersStayIntact(c, s, Next(c, s, ev));
    hide H.Inv, B.Inv, Held, MarksOf, Painted, Between;
  }

  lemma PublishKeepsInv(c: Config, s: State, ev: Event)
    requires Inv(c, s) && ev.Publish? && Enabled(c, s, ev)
    ensures Inv(c, Next(c, s, ev))
  {
    BetweenSet(s.dma[Buf(s)], s.captured[s.h.p.enc.item.no], s.drawing.target, ev.i, s.cpu[Buf(s)][ev.i]);
    OthersStayIntact(c, s, Next(c, s, ev));
    hide H.Inv, B.Inv, Held, MarksOf, Painted, Between;
  }

  /** Publishing the rows with a mark publishes the whole frame. */
  lemma RowsPublishedSuffice(c: Config, s: State)
    requires Preparing(s) && s.drawing.Busy? && Prepared(c, s) && s.cpu[Buf(s)] == s.drawing.target
    requires RowsPublished(c, s)
    ensures s.dma[Buf(s)] == s.cpu[Buf(s)]
  {
    var frame, marked := s.captured[s.h.p.enc.item.no], MarksOf(c, s.store.returned[s.drawing.read]);
    forall i | 0 <= i < |s.dma[Buf(s)]|
      ensures s.dma[Buf(s)][i] == s.cpu[Buf(s)][i]
    {
      if frame[i] != s.drawing.target[i] {
        Overlay.ChangedRowIsMarked(frame, s.drawing.target, c.frame, marked, i);
      }
    }
  }

  lemma EndKeepsInv(c: Config, s: State, ok: bool)
    requires Inv(c, s) && Enabled(c, s, EndOverlay(ok))
    ensures Inv(c, Next(c, s, EndOverlay(ok)))
  {
    var s' := Next(c, s, EndOverlay(ok));
    if ok { RowsPublishedSuffice(c, s); }
    hide RowsPublished;
    hide H.Inv, B.Inv, MarksOf, Painted;
  }

  lemma StepKeepsInv(c: Config, s: State, ev: Event)
    requires Inv(c, s) && Enabled(c, s, ev)
    ensures Inv(c, Next(c, s, ev))
  {
    hide *;
    match ev
    case Handoff(e) =>
      if e.Fetch? { FetchKeepsInv(c, s, ev); }
      else if e.Other? && e.ev.Acquire? { AcquireKeepsInv(c, s, ev); }
      else if e.Other? { CaptureKeepsInv(c, s, ev); }
      else { EncodeKeepsInv(c, s, ev); }
    case BoxStep(e) => BoxStepKeepsInv(c, s, e);
    case Camera(_, _, _) => CameraKeepsInv(c, s, ev);
    case BeginOverlay(_) => BeginKeepsInv(c, s, ev);
    case Store(_) => StoreKeepsInv(c, s, ev);
    case Publish(_) => PublishKeepsInv(c, s, ev);
    case EndOverlay(ok) => EndKeepsInv(c, s, ok);
  }

  lemma {:induction false} RunKeepsInv(c: Config, s0: State, evs: seq<Event>)
    requires Initial(c, s0) && Run(c, s0, evs).Some?
    ensures Inv(c, Run(c, s0, evs).value)
  {
    if evs == [] {
      P.ReachInit(c.n, c.queueLen);
    } else {
      var k := |evs| - 1;
      RunKeepsInv(c, s0, evs[..k]);
      StepKeepsInv(c, Run(c, s0, evs[..k]).value, evs[k]);
    }
  }

  lemma RunLast(c: Config, s0: State, evs: seq<Event>)
    requires evs != [] && Run(c, s0, evs).Some?
    ensures var before, ev := Run(c, s0, evs[..|evs| - 1]), evs[|evs| - 1];
            before.Some? && Enabled(c, before.value, ev) && Run(c, s0, evs) == Some(Next(c, before.value, ev))
  {
  }

  // ----- what it means -----

  /** Whatever the interleaving, until an input DQBUF fails: what the encoder reads is the frame as it
    * was dequeued, with the marks of the boxes of one get_boxes call - a prefix of one completed
    * result set - and nothing else, if the write-backs took effect; if they did not, each byte is
    * the captured or the drawn one. */
  lemma EncoderReadsMarkedFrame(c: Config, s0: State, evs: seq<Event>)
    requires Initial(c, s0) && Run(c, s0, evs).Some?
    requires var s := Run(c, s0, evs).value; s.h.slot.Some? && !s.h.stuck
    ensures var s := Run(c, s0, evs).value;
      && s.h.p.enc.Encoding? && s.h.slot == Some(Buf(s)) && Buf(s) < |s.dma| == |s.cpu|
      && s.h.p.enc.item.no < |s.captured| && s.drawing.Done? && s.drawing.read < |s.store.returned|
      && var frame, read := s.captured[s.h.p.enc.item.no], s.store.returned[s.drawing.read];
      && s.fetchedAt <= read.done <= |s.store.completed|
      && read.boxes == Boxes.Prefix(B.Latest(s.store.completed, read.done), read.max)
      && (s.drawing.published ==>
            Painted(frame, s.dma[Buf(s)], c.frame, Marks(c.frame, ToBoxes(read.boxes), c.sx, c.sy)))
      && Painted(frame, s.cpu[Buf(s)], c.frame, Marks(c.frame, ToBoxes(read.boxes), c.sx, c.sy))
      && Between(s.dma[Buf(s)], frame, s.cpu[Buf(s)])
  {
    RunKeepsInv(c, s0, evs);
  }

  /** The last fetch of a run is its k-th event. */
  predicate LastFetch(evs: seq<Event>, k: nat) {
    k < |evs| && evs[k] == Handoff(H.Fetch) && forall i :: k < i < |evs| ==> evs[i] != Handoff(H.Fetch)
  }

  lemma {:induction false} SinceFetch(c: Config, s0: State, evs: seq<Event>, k: nat)
    requires Run(c, s0, evs).Some? && LastFetch(evs, k)
    ensures Run(c, s0, evs[..k]).Some?
    ensures Run(c, s0, evs).value.fetchedAt == |Run(c, s0, evs[..k]).value.store.completed|
    decreases |evs|
  {
    var n := |evs| - 1;
    if k < n {
      SinceFetch(c, s0, evs[..n], k);
      assert evs[..n][..k] == evs[..k];
      var m := Run(c, s0, evs[..n]).value;
      assert Next(c, m, evs[n]).fetchedAt == m.fetchedAt;
    }
  }

  /** The boxes drawn on a frame are never older than the latest result set that was complete when the
    * encode task fetched the frame. */
  lemma DrawsLatestResults(c: Config, s0: State, evs: seq<Event>, k: nat)
    requires Initial(c, s0) && Run(c, s0, evs).Some? && LastFetch(evs, k)
    requires var s := Run(c, s0, evs).value; s.h.slot.Some? && !s.h.stuck
    ensures Run(c, s0, evs[..k]).Some?
    ensures var s := Run(c, s0, evs).value;
      && s.drawing.Done? && s.drawing.read < |s.store.returned|
      && s.store.returned[s.drawing.read].done >= |Run(c, s0, evs[..k]).value.store.completed|
  {
    EncoderReadsMarkedFrame(c, s0, evs);
    SinceFetch(c, s0, evs, k);
  }

  /** While the driver has a buffer, only the camera changes what DMA sees of it. */
  lemma OnlyCameraFills(c: Config, s: State, ev: Event, b: nat, i: nat)
    requires Inv(c, s) && Enabled(c, s, ev) && b in s.h.p.driver && b < |s.dma| && i < |s.dma[b]|
    requires ev != Handoff(H.Other(P.Acquire(b)))
    ensures var s' := Next(c, s, ev);
      && b in s'.h.p.driver && b < |s'.dma| && i < |s'.dma[b]|
      && s'.dma[b][i] == if ev.Camera? && ev.buf == b && ev.i == i then ev.v else s.dma[b][i]
  {
    Alone(c, s, b);
    if ev.Handoff? { StaysInDriver(s.h, c.queueLen, ev.ev, b); }
    hide Inv, H.Inv, H.Next, H.Enabled;
  }

  lemma StaysInDriver(h: H.State, queueLen: nat, e: H.Event, b: nat)
    requires H.Enabled(h, e) && b in h.p.driver && e != H.Other(P.Acquire(b))
    ensures b in H.Next(h, queueLen, e).p.driver
  {
  }

  lemma AcquireShows(c: Config, s: State, b: nat)
    requires Inv(c, s) && Enabled(c, s, Handoff(H.Other(P.Acquire(b))))
    ensures var s' := Next(c, s, Handoff(H.Other(P.Acquire(b))));
      && b < |s'.cpu| && b < |s.dma| && s'.captured == s.captured + [s.dma[b]] && s'.cpu[b] == s.dma[b]
      && s'.h.p.cap == P.Holding(P.Item(|s.captured|, b))
  {
    hide H.Inv, B.Inv, Prepared, Held;
  }

  /** The k-th event of a run is the last store of the camera into byte i of buffer b before the last
    * event dequeues the buffer. */
  predicate LastFill(evs: seq<Event>, k: nat, b: nat, i: nat, v: byte) {
    && k + 1 < |evs| && evs[k] == Camera(b, i, v) && evs[|evs| - 1] == Handoff(H.Other(P.Acquire(b)))
    && forall j :: k < j < |evs| - 1 ==>
         evs[j] != Handoff(H.Other(P.Acquire(b))) && !(evs[j].Camera? && evs[j].buf == b && evs[j].i == i)
  }

  lemma {:induction false} FillStays(c: Config, s0: State, evs: seq<Event>, k: nat, n: nat, b: nat, i: nat, v: byte)
    requires Initial(c, s0) && LastFill(evs, k, b, i, v) && k < n < |evs| && Run(c, s0, evs[..n]).Some?
    ensures var s := Run(c, s0, evs[..n]).value;
            b in s.h.p.driver && b < |s.dma| && i < |s.dma[b]| && s.dma[b][i] == v
    decreases n
  {
    assert evs[..n][..n - 1] == evs[..n - 1];
    RunLast(c, s0, evs[..n]);
    var s := Run(c, s0, evs[..n - 1]).value;
    RunKeepsInv(c, s0, evs[..n - 1]);
    if n - 1 > k {
      FillStays(c, s0, evs, k, n - 1, b, i, v);
    }
    hide Run, Inv, Next;
    OnlyCameraFills(c, s, evs[n - 1], b, i);
  }

  /** The frame handed to the application is the one the camera delivered: whatever the other tasks do in
    * the meantime, each byte is the last the camera put there. */
  lemma CapturedAsDelivered(c: Config, s0: State, evs: seq<Event>, k: nat, b: nat, i: nat, v: byte)
    requires Initial(c, s0) && Run(c, s0, evs).Some? && LastFill(evs, k, b, i, v)
    ensures var s := Run(c, s0, evs).value;
      && s.captured != [] && b < |s.cpu| && i < |s.captured[|s.captured| - 1]| && i < |s.cpu[b]|
      && s.captured[|s.captured| - 1][i] == s.cpu[b][i] == v
      && s.h.p.cap.Holding? && s.h.p.cap.item == P.Item(|s.captured| - 1, b)
  {
    var n := |evs| - 1;
    assert evs[n] == Handoff(H.Other(P.Acquire(b)));
    hide *;
    RunLast(c, s0, evs);
    FillStays(c, s0, evs, k, n, b, i, v);
    RunKeepsInv(c, s0, evs[..n]);
    AcquireShows(c, Run(c, s0, evs[..n]).value, b);
  }

  /** No CPU store and no write-back of the overlay ever touches a buffer the camera may be filling; and
    * meanwhile the encoder's slot is empty, except exactly after an input DQBUF has failed. */
  lemma StoresHitOwnFrame(c: Config, s0: State, evs: seq<Event>, ev: Event)
    requires Initial(c, s0) && Run(c, s0, evs).Some? && (ev.Store? || ev.Publish?)
    requires Enabled(c, Run(c, s0, evs).value, ev)
    ensures var s := Run(c, s0, evs).value;
      && Buf(s) !in s.h.p.driver
      && (s.h.slot.Some? <==> s.h.stuck)
  {
    RunKeepsInv(c, s0, evs);
    var s := Run(c, s0, evs).value;
    Alone(c, s, Buf(s));
  }

  /** Which pixels that are, from the model's results: the marks of the first results with at least four
    * coordinates, up to five and up to the caller's limit, the coordinates as left, top, right, bottom. */
  lemma MarksOfResults(c: Config, rs: seq<Boxes.Result>, max: nat, p: (int, int)) returns (idx: seq<nat>)
    ensures Boxes.Indices(rs, idx) && forall k :: 0 <= k < |idx| ==> idx[k] < |rs| && |rs[idx[k]].box| >= 4
    ensures p in Marks(c.frame, ToBoxes(Boxes.Prefix(Boxes.Kept(rs), max)), c.sx, c.sy)
       <==> exists k :: 0 <= k < |idx| && k < 5 && k < max
              && var box := rs[idx[k]].box; p in Marks(c.frame, [Box(box[0], box[1], box[2], box[3])], c.sx, c.sy)
  {
    idx := Boxes.KeptAre(rs);
    var boxes := ToBoxes(Boxes.Prefix(Boxes.Kept(rs), max));
    MarksOfEach(c.frame, boxes, c.sx, c.sy, p);
    assert forall k :: 0 <= k < |boxes| ==>
             var box := rs[idx[k]].box; boxes[k] == Box(box[0], box[1], box[2], box[3]);
    hide Marks, Boxes.Kept;
  }
}
