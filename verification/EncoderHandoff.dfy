/** The capture protocol and the encoder's input slot together: while hal_h264_encode runs the
  * encoder reads the frame by DMA, and the camera must not be writing to it.
  *
  * The encode task's call is split into its driver calls (main/hal/hal_h264_encoder.c:120-173), so
  * the capture task may run between any two of them. */
module EncoderHandoff {
  import opened Basics
  import P = PipelineSteps
  import Safety = PipelineSafety
  import H = H264Encoder

  /** How far the encode task has got with the frame it holds. */
  datatype Phase = Fresh | Queued | Streamed | NoStream | Over

  datatype State = State(
    p: P.State,
    slot: Option<nat>,        // the buffer the encoder's input slot points to
    phase: Phase,
    stuck: bool)              // an input DQBUF has failed

  datatype Event =
    | Other(ev: P.Event)      // any step of the capture task, or a reset of the counters
    | Fetch                   // xQueueReceive
    | QbufIn(ok: bool)
    | DqbufOut(ok: bool)
    | DqbufIn(ok: bool)
    | GiveBack(ok: bool)      // hal_vcap_release after the call

  predicate Reading(phase: Phase) {
    phase.Queued? || phase.Streamed? || phase.NoStream?
  }

  predicate Enabled(s: State, ev: Event) {
    match ev
    case Other(e) => !e.Receive? && !e.EncRelease? && P.Enabled(s.p, e)
    case Fetch => P.Enabled(s.p, P.Receive)
    case QbufIn(_) => s.p.enc.Encoding? && s.phase.Fresh?
    case DqbufOut(_) => s.p.enc.Encoding? && s.phase.Queued?
    case DqbufIn(_) => s.p.enc.Encoding? && (s.phase.Streamed? || s.phase.NoStream?)
    case GiveBack(ok) => s.p.enc.Encoding? && s.phase.Over?
  }

  function Next(s: State, queueLen: nat, ev: Event): State
    requires Enabled(s, ev)
  {
    match ev
    case Other(e) => s.(p := P.Next(s.p, queueLen, e))
    case Fetch => s.(p := P.Next(s.p, queueLen, P.Receive), phase := Fresh)
    case QbufIn(ok) =>
      if ok && s.slot.None? then s.(slot := Some(s.p.enc.item.buf), phase := Queued) else s.(phase := Over)
    case DqbufOut(ok) => s.(phase := if ok then Streamed else NoStream)
    case DqbufIn(ok) => if ok then s.(slot := None, phase := Over) else s.(phase := Over, stuck := true)
    case GiveBack(ok) => s.(p := P.Next(s.p, queueLen, P.EncRelease(ok)))
  }

  function Init(n: nat): State {
    State(P.Init(n), None, Over, false)
  }

  function Run(n: nat, queueLen: nat, evs: seq<Event>): Option<State> {
    if evs == [] then Some(Init(n)) else
    match Run(n, queueLen, evs[..|evs| - 1])
    case None => None
    case Some(m) =>
      if Enabled(m, evs[|evs| - 1]) then Some(Next(m, queueLen, evs[|evs| - 1])) else None
  }

  /** The slot points to a frame only while the encode task holds that frame inside the call - until
    * an input DQBUF fails, after which it points to the same frame for good. */
  ghost predicate Inv(n: nat, queueLen: nat, s: State) {
    && P.Reachable(n, queueLen, s.p)
    && (s.p.enc.Encoding? && Reading(s.phase) ==> s.slot == Some(s.p.enc.item.buf) && !s.stuck)
    && (s.p.enc.Blocked? ==> s.phase.Over?)
    && (s.slot.Some? ==> s.stuck || (s.p.enc.Encoding? && Reading(s.phase)))
    && (s.stuck ==> s.slot.Some?)
  }

  lemma StepKeepsInv(n: nat, queueLen: nat, s: State, ev: Event)
    requires Inv(n, queueLen, s) && Enabled(s, ev)
    ensures Inv(n, queueLen, Next(s, queueLen, ev))
    ensures s.stuck ==> Next(s, queueLen, ev).stuck && Next(s, queueLen, ev).slot == s.slot
  {
    hide P.Reachable;
    match ev
    case Other(e) => P.ReachNext(n, queueLen, s.p, e);
    case Fetch => P.ReachNext(n, queueLen, s.p, P.Receive);
    case GiveBack(ok) => P.ReachNext(n, queueLen, s.p, P.EncRelease(ok));
    case _ =>
  }

  lemma {:induction false} RunKeepsInv(n: nat, queueLen: nat, evs: seq<Event>)
    requires Run(n, queueLen, evs).Some?
    ensures Inv(n, queueLen, Run(n, queueLen, evs).value)
  {
    if evs == [] {
      P.ReachInit(n, queueLen);
    } else {
      RunKeepsInv(n, queueLen, evs[..|evs| - 1]);
      StepKeepsInv(n, queueLen, Run(n, queueLen, evs[..|evs| - 1]).value, evs[|evs| - 1]);
    }
  }

  /** The encoder may read a buffer that the camera may fill. */
  predicate Overlap(s: State) {
    s.slot.Some? && s.slot.value in s.p.driver
  }

  /** As long as no input DQBUF has failed, the frame in the encoder is the encode task's alone: in
    * every interleaving it is not in the driver, the queue or the capture task's hands. */
  lemma EncoderReadsItsOwnFrame(n: nat, queueLen: nat, evs: seq<Event>)
    requires Run(n, queueLen, evs).Some? && !Run(n, queueLen, evs).value.stuck
    ensures var s := Run(n, queueLen, evs).value;
            s.slot.Some? ==>
              && s.p.enc.Encoding? && s.p.enc.item.buf == s.slot.value
              && s.slot.value !in s.p.driver
              && s.slot.value !in Safety.Bufs(s.p.queue)
              && (!s.p.cap.Waiting? ==> s.p.cap.item.buf != s.slot.value)
  {
    RunKeepsInv(n, queueLen, evs);
    var s := Run(n, queueLen, evs).value;
    if s.slot.Some? {
      Safety.EachBufferInOnePlace(n, queueLen, s.p, s.slot.value);
    }
  }

  predicate SomeDqbufInFails(evs: seq<Event>) {
    exists i :: 0 <= i < |evs| && evs[i] == DqbufIn(false)
  }

  lemma {:induction false} StuckIffFailed(n: nat, queueLen: nat, evs: seq<Event>)
    requires Run(n, queueLen, evs).Some?
    ensures Run(n, queueLen, evs).value.stuck <==> SomeDqbufInFails(evs)
  {
    if evs != [] {
      var k := |evs| - 1;
      var before := evs[..k];
      RunKeepsInv(n, queueLen, before);
      StuckIffFailed(n, queueLen, before);
      StepKeepsInv(n, queueLen, Run(n, queueLen, before).value, evs[k]);
      if SomeDqbufInFails(before) {
        var i :| 0 <= i < |before| && before[i] == DqbufIn(false);
        assert evs[i] == DqbufIn(false);
      }
      if i :| 0 <= i < |evs| && evs[i] == DqbufIn(false) {
        if i < k { assert before[i] == evs[i]; }
      }
    }
  }

  /** The run in which the only frame's input DQBUF fails. */
  function BadRun(b: nat): seq<Event> {
    [Other(P.Acquire(b)), Other(P.Pace(true)), Other(P.Send), Fetch,
     QbufIn(true), DqbufOut(false), DqbufIn(false), GiveBack(true)]
  }

  lemma RunNext(n: nat, queueLen: nat, evs: seq<Event>, k: nat)
    requires k < |evs| && Run(n, queueLen, evs[..k]).Some? && Enabled(Run(n, queueLen, evs[..k]).value, evs[k])
    ensures Run(n, queueLen, evs[..k + 1]) == Some(Next(Run(n, queueLen, evs[..k]).value, queueLen, evs[k]))
  {
    assert evs[..k + 1][..k] == evs[..k];
  }

  /** Its first quarter: the frame is acquired and accepted. */
  lemma BadRunAccepts(n: nat, queueLen: nat, b: nat)
    requires b < n
    ensures Run(n, queueLen, BadRun(b)[..2])
         == Some(Init(n).(p := P.Next(P.Next(P.Init(n), queueLen, P.Acquire(b)), queueLen, P.Pace(true))))
  {
    var evs := BadRun(b);
    assert Run(n, queueLen, evs[..0]) == Some(Init(n));
    hide Run;
    RunNext(n, queueLen, evs, 0);
    RunNext(n, queueLen, evs, 1);
  }

  /** Then it is queued and fetched. */
  lemma BadRunFetches(n: nat, queueLen: nat, b: nat)
    requires b < n && queueLen >= 1
    ensures var r := Run(n, queueLen, BadRun(b)[..4]);
            && r.Some? && r.value.slot.None? && r.value.phase.Fresh?
            && r.value.p.enc == P.Encoding(P.Item(0, b))
  {
    hide Run;
    BadRunAccepts(n, queueLen, b);
    RunNext(n, queueLen, BadRun(b), 2);
    RunNext(n, queueLen, BadRun(b), 3);
  }

  lemma BadRunOverlaps(n: nat, queueLen: nat, b: nat)
    requires b < n && queueLen >= 1
    ensures Run(n, queueLen, BadRun(b)).Some? && Overlap(Run(n, queueLen, BadRun(b)).value)
  {
    var evs := BadRun(b);
    BadRunFetches(n, queueLen, b);
    assert evs[..8] == evs;
    hide Run;
    RunNext(n, queueLen, evs, 4);
    RunNext(n, queueLen, evs, 5);
    RunNext(n, queueLen, evs, 6);
    RunNext(n, queueLen, evs, 7);
  }

  // ----- the exact condition, over whole runs -----

  /** What the outcomes of a run amount to: nothing yet; an input DQBUF failed and the encode task still
    * holds the frame; that frame then went back to the camera; or it was lost instead. */
  datatype Verdict = Healthy | Failed | Exposed | Gone

  function Judge(v: Verdict, ev: Event): Verdict {
    match (v, ev)
    case (Healthy, DqbufIn(false)) => Failed
    case (Failed, GiveBack(true)) => Exposed
    case (Failed, GiveBack(false)) => Gone
    case _ => v
  }

  function Scan(evs: seq<Event>): Verdict {
    if evs == [] then Healthy else Judge(Scan(evs[..|evs| - 1]), evs[|evs| - 1])
  }

  /** What each verdict says about the state. */
  ghost predicate Matches(s: State, v: Verdict) {
    match v
    case Healthy => !s.stuck
    case Failed => s.stuck && s.phase.Over? && s.p.enc.Encoding? && s.slot == Some(s.p.enc.item.buf)
    case Exposed => s.stuck
    case Gone => s.stuck && s.slot.Some? && s.slot.value in s.p.lost
  }

  lemma StepMatches(n: nat, queueLen: nat, s: State, ev: Event, v: Verdict)
    requires Inv(n, queueLen, s) && Enabled(s, ev) && Matches(s, v)
    ensures Matches(Next(s, queueLen, ev), Judge(v, ev))
    ensures v.Failed? && Judge(v, ev).Exposed? ==> Overlap(Next(s, queueLen, ev))
  {
    hide P.Reachable;
  }

  /** Only an exposed frame can be in the encoder and with the camera at once. */
  lemma OverlapNeedsExposure(n: nat, queueLen: nat, s: State, v: Verdict)
    requires Inv(n, queueLen, s) && Matches(s, v) && Overlap(s)
    ensures v.Exposed?
  {
    Safety.EachBufferInOnePlace(n, queueLen, s.p, s.slot.value);
  }

  lemma {:induction false} ScanMatches(n: nat, queueLen: nat, evs: seq<Event>)
    requires Run(n, queueLen, evs).Some?
    ensures Matches(Run(n, queueLen, evs).value, Scan(evs))
  {
    if evs != [] {
      var k := |evs| - 1;
      RunKeepsInv(n, queueLen, evs[..k]);
      ScanMatches(n, queueLen, evs[..k]);
      StepMatches(n, queueLen, Run(n, queueLen, evs[..k]).value, evs[k], Scan(evs[..k]));
    }
  }

  ghost predicate OverlapsAfter(n: nat, queueLen: nat, evs: seq<Event>, k: nat)
    requires k <= |evs|
  {
    Run(n, queueLen, evs[..k]).Some? && Overlap(Run(n, queueLen, evs[..k]).value)
  }

  /** At some point of the run the encoder may read a buffer that the camera may fill. */
  ghost predicate EverOverlaps(n: nat, queueLen: nat, evs: seq<Event>) {
    exists k :: 0 <= k <= |evs| && OverlapsAfter(n, queueLen, evs, k)
  }

  lemma EverOverlapsNext(n: nat, queueLen: nat, evs: seq<Event>)
    requires evs != [] && Run(n, queueLen, evs).Some?
    ensures EverOverlaps(n, queueLen, evs)
       <==> EverOverlaps(n, queueLen, evs[..|evs| - 1]) || Overlap(Run(n, queueLen, evs).value)
  {
    var m := |evs| - 1;
    var before := evs[..m];
    assert forall k :: 0 <= k <= m ==> before[..k] == evs[..k];
    assert evs[..|evs|] == evs;
    if k :| 0 <= k <= m && OverlapsAfter(n, queueLen, before, k) {
      assert OverlapsAfter(n, queueLen, evs, k);
    }
    if k :| 0 <= k <= |evs| && OverlapsAfter(n, queueLen, evs, k) {
      if k <= m { assert OverlapsAfter(n, queueLen, before, k); }
    }
    if Overlap(Run(n, queueLen, evs).value) {
      assert OverlapsAfter(n, queueLen, evs, |evs|);
    }
  }

  /** Encoder and camera are ever on one buffer exactly when, in this run, an input DQBUF failed and the
    * frame it left in the slot was then given back to the camera. */
  lemma {:induction false} EverOverlapsIff(n: nat, queueLen: nat, evs: seq<Event>)
    requires Run(n, queueLen, evs).Some?
    ensures EverOverlaps(n, queueLen, evs) <==> Scan(evs).Exposed?
  {
    ScanMatches(n, queueLen, evs);
    RunKeepsInv(n, queueLen, evs);
    var s := Run(n, queueLen, evs).value;
    if Overlap(s) { OverlapNeedsExposure(n, queueLen, s, Scan(evs)); }
    if evs == [] {
      assert forall k :: 0 <= k <= 0 ==> evs[..k] == [];
    } else {
      var m := |evs| - 1;
      EverOverlapsIff(n, queueLen, evs[..m]);
      EverOverlapsNext(n, queueLen, evs);
      RunKeepsInv(n, queueLen, evs[..m]);
      ScanMatches(n, queueLen, evs[..m]);
      StepMatches(n, queueLen, Run(n, queueLen, evs[..m]).value, evs[m], Scan(evs[..m]));
    }
  }

  // ----- the call in one piece and in its parts -----

  /** The state after the driver calls of one hal_h264_encode, with nothing in between: the bitstream
    * DQBUF and the input DQBUF are made only if the frame was queued. */
  function WholeCall(s: State, queueLen: nat, qbufIn: bool, dqbufOut: bool, dqbufIn: bool): State
    requires s.p.enc.Encoding? && s.phase.Fresh?
  {
    var s1 := Next(s, queueLen, QbufIn(qbufIn));
    if s1.phase.Over? then s1
    else Next(Next(s1, queueLen, DqbufOut(dqbufOut)), queueLen, DqbufIn(dqbufIn))
  }

  /** Undisturbed, the split call leaves the input slot as the whole call does. */
  lemma SplitCallAgrees(s: State, queueLen: nat, streams: set<nat>, o: H.Outcome)
    requires s.p.enc.Encoding? && s.phase.Fresh?
    ensures var frame := s.p.enc.item.buf;
            var delivered := H.Delivered(H.Device(Some(frame), streams), o.dqbufOut).Some?;
            var s' := WholeCall(s, queueLen, o.qbufIn, delivered, o.dqbufIn);
            && s'.phase.Over? && s'.p == s.p
            && s'.slot == H.Encoded(H.Device(s.slot, streams), frame, o).0.slot
  {
  }
}
