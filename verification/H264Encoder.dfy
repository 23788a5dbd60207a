/** Buffer ownership in main/hal/hal_h264_encoder.c and in the encode loop of
  * main/task/task_video.cpp, for every outcome of every driver call.
  *
  * The encoder device has one input slot, which holds a pointer to a raw frame while queued, and
  * a fixed set of bitstream buffers. */
module H264Encoder {
  import opened Basics

  /** What the driver holds: the frame in the input slot, if queued, and its bitstream buffers. */
  datatype Device = Device(slot: Option<nat>, streams: set<nat>)

  /** How each driver call of one hal_h264_encode would turn out, if it is made and can succeed. */
  datatype Outcome = Outcome(
    qbufIn: bool,             // VIDIOC_QBUF, input
    dqbufOut: Option<nat>,    // VIDIOC_DQBUF, bitstream: the buffer delivered
    dqbufIn: bool,            // VIDIOC_DQBUF, input
    badFrame: bool,           // the error flag is set or the bitstream is empty
    qbufOut: bool)            // VIDIOC_QBUF, bitstream, inside hal_h264_encode

  datatype Status = OK | FAIL

  class Encoder {
    var dev: Device

    constructor (n: nat)
      ensures dev == Device(None, Below(n))
    {
      dev := Device(None, Below(n));
    }

    /** One input slot: queueing into an occupied one is rejected. */
    method QbufInput(frame: nat, works: bool) returns (ok: bool)
      modifies this
      ensures ok <==> works && old(dev).slot.None?
      ensures dev == if ok then old(dev).(slot := Some(frame)) else old(dev)
    {
      ok := works && dev.slot.None?;
      if ok { dev := dev.(slot := Some(frame)); }
    }

    method DqbufInput(works: bool) returns (ok: bool)
      modifies this
      ensures ok <==> works && old(dev).slot.Some?
      ensures dev == if ok then old(dev).(slot := None) else old(dev)
    {
      ok := works && dev.slot.Some?;
      if ok { dev := dev.(slot := None); }
    }

    /** A bitstream can only come out of a buffer the driver has, and only for a queued frame. */
    method DqbufStream(delivered: Option<nat>) returns (buf: Option<nat>)
      modifies this
      ensures buf == Delivered(old(dev), delivered)
      ensures dev == if buf.Some? then old(dev).(streams := old(dev).streams - {buf.value}) else old(dev)
    {
      buf := None;
      if delivered.Some? && dev.slot.Some? && delivered.value in dev.streams {
        buf := delivered;
        dev := dev.(streams := dev.streams - {delivered.value});
      }
    }

    /** `hal_h264_release`.  On failure the buffer is lost: callers ignore the result. */
    method Release(buf: nat, works: bool)
      modifies this
      ensures dev == if works then old(dev).(streams := old(dev).streams + {buf}) else old(dev)
    {
      if works { dev := dev.(streams := dev.streams + {buf}); }
    }

    /** `hal_h264_encode`. */
    method Encode(frame: nat, o: Outcome) returns (status: Status, out: Option<nat>)
      modifies this
      ensures (dev, status, out) == Encoded(old(dev), frame, o)
      ensures status == OK <==> old(dev).slot.None? && o.qbufIn && o.dqbufOut.Some?
                                && o.dqbufOut.value in old(dev).streams && o.dqbufIn && !o.badFrame
      ensures out == if status == OK then o.dqbufOut else None
    {
      var ok := QbufInput(frame, o.qbufIn);
      if !ok {
        return FAIL, None;
      }
      out := DqbufStream(o.dqbufOut);
      if out.None? {
        ok := DqbufInput(o.dqbufIn);
        return FAIL, None;
      }
      ok := DqbufInput(o.dqbufIn);
      if !ok || o.badFrame {
        Release(out.value, o.qbufOut);
        assert old(dev).streams - {out.value} + {out.value} == old(dev).streams;
        return FAIL, None;
      }
      return OK, out;
    }

    /** One pass of `video_encode_task` over a frame: encode, give the frame back, send and release
      * the bitstream if there is one. */
    method EncodeOnce(p: Pass) returns (status: Status)
      modifies this
      ensures dev == AfterPass(old(dev), p)
      ensures status == Encoded(old(dev), p.frame, p.outcome).1
    {
      var out;
      status, out := Encode(p.frame, p.outcome);
      if status == OK {
        Release(out.value, p.releaseOk);
      }
    }
  }

  function Delivered(d: Device, delivered: Option<nat>): Option<nat> {
    if delivered.Some? && d.slot.Some? && delivered.value in d.streams then delivered else None
  }

  /** The device, status and bitstream after one encode call: OK exactly when all four calls work and
    * the frame is good; a bitstream that came out and is not handed on goes back if it can. */
  ghost function Encoded(d: Device, frame: nat, o: Outcome): (r: (Device, Status, Option<nat>))
    ensures r.1 == OK <==> r.2.Some?
  {
    var queued := d.slot.None? && o.qbufIn;
    var stream := if queued then Delivered(d.(slot := Some(frame)), o.dqbufOut) else None;
    var slot := if queued then if o.dqbufIn then None else Some(frame) else d.slot;
    if stream.Some? && o.dqbufIn && !o.badFrame then
      (Device(slot, d.streams - {stream.value}), OK, stream)
    else if stream.Some? && !o.qbufOut then
      (Device(slot, d.streams - {stream.value}), FAIL, None)
    else
      (Device(slot, d.streams), FAIL, None)
  }

  datatype Pass = Pass(frame: nat, outcome: Outcome, releaseOk: bool)

  ghost function AfterPass(d: Device, p: Pass): Device {
    var (d', status, out) := Encoded(d, p.frame, p.outcome);
    if out.Some? && p.releaseOk then d'.(streams := d'.streams + {out.value}) else d'
  }

  ghost function AfterAll(d: Device, ps: seq<Pass>): Device {
    if ps == [] then d else AfterPass(AfterAll(d, ps[..|ps| - 1]), ps[|ps| - 1])
  }

  /** Every bitstream re-queue of the run works. */
  ghost predicate Requeues(ps: seq<Pass>) {
    forall i :: 0 <= i < |ps| ==> ps[i].outcome.qbufOut && ps[i].releaseOk
  }

  /** What one call promises its caller: OK means holding exactly one bitstream buffer, the rest
    * still with the driver; FAIL means holding none, and none missing if the re-queue worked.  A free
    * input slot is free again afterwards unless the frame was queued and its own DQBUF failed. */
  lemma EncodeOwnership(d: Device, frame: nat, o: Outcome)
    ensures var (d', status, out) := Encoded(d, frame, o);
      && (status == OK ==> out.Some? && out.value in d.streams && d'.streams == d.streams - {out.value})
      && (status == FAIL ==> out == None && (o.qbufOut ==> d'.streams == d.streams))
      && (d.slot.None? ==> (d'.slot.Some? <==> o.qbufIn && !o.dqbufIn))
      && (d.slot.Some? ==> d' == d && status == FAIL)
      && (status == OK ==> d'.slot.None?)
  {
  }

  /** When a call succeeds, for every device and outcome: the slot is free, all four driver calls work,
    * the bitstream comes out of a buffer the driver has, and the frame is good.  That bitstream is then
    * handed on.  A failing call keeps a buffer from the driver only if one came out and its re-queue
    * failed. */
  lemma EncodeSucceedsIff(d: Device, frame: nat, o: Outcome)
    ensures var (d', status, out) := Encoded(d, frame, o);
      var delivered := d.slot.None? && o.qbufIn && o.dqbufOut.Some? && o.dqbufOut.value in d.streams;
      && (status == OK <==> delivered && o.dqbufIn && !o.badFrame)
      && out == (if status == OK then o.dqbufOut else None)
      && d'.streams == if delivered && (status == OK || !o.qbufOut) then d.streams - {o.dqbufOut.value} else d.streams
  {
  }

  /** At every encode entry of any run whose re-queues work, all bitstream buffers are back in the driver. */
  lemma {:induction false} StreamsReturn(d: Device, ps: seq<Pass>)
    requires Requeues(ps)
    ensures AfterAll(d, ps).streams == d.streams
  {
    if ps != [] {
      var before, p := ps[..|ps| - 1], ps[|ps| - 1];
      StreamsReturn(d, before);
      EncodeOwnership(AfterAll(d, before), p.frame, p.outcome);
    }
  }

  /** Without that assumption buffers only ever leak, one per failed re-queue of a delivered one. */
  ghost function Leaks(d: Device, ps: seq<Pass>): nat {
    if ps == [] then 0
    else
      var before, p := ps[..|ps| - 1], ps[|ps| - 1];
      var m := AfterAll(d, before);
      var delivered := m.slot.None? && p.outcome.qbufIn
                       && Delivered(m.(slot := Some(p.frame)), p.outcome.dqbufOut).Some?;
      var works := if Encoded(m, p.frame, p.outcome).1 == OK then p.releaseOk else p.outcome.qbufOut;
      Leaks(d, before) + if delivered && !works then 1 else 0
  }

  lemma {:induction false} StreamsLeak(d: Device, ps: seq<Pass>)
    ensures |AfterAll(d, ps).streams| + Leaks(d, ps) == |d.streams|
    ensures AfterAll(d, ps).streams <= d.streams
  {
    if ps != [] {
      var before, p := ps[..|ps| - 1], ps[|ps| - 1];
      StreamsLeak(d, before);
      var m := AfterAll(d, before);
      var stream := Delivered(m.(slot := Some(p.frame)), p.outcome.dqbufOut);
      if stream.Some? {
        assert (m.streams - {stream.value}) + {stream.value} == m.streams;
      }
    }
  }

  /** The device can encode nothing any more. */
  predicate Dead(d: Device) {
    d.slot.Some? || d.streams == {}
  }

  /** A stuck input slot is permanent, and so is the loss of the last bitstream buffer: from then on
    * every encode fails, whatever the driver does. */
  lemma {:induction false} DeadIsForever(d: Device, ps: seq<Pass>, p: Pass)
    requires Dead(d)
    ensures Dead(AfterAll(d, ps))
    ensures Encoded(AfterAll(d, ps), p.frame, p.outcome).1 == FAIL
  {
    if ps != [] {
      DeadIsForever(d, ps[..|ps| - 1], ps[|ps| - 1]);
    }
  }

  /** The encode loop hands the frame back to the capture driver right after the call, on the grounds
    * that the encoder has let go of it.  From a free slot that holds except when the frame was queued
    * and its input DQBUF failed; from a stuck slot, except when it is stuck on this very frame. */
  lemma FrameLetGoIff(d: Device, frame: nat, o: Outcome)
    ensures Encoded(d, frame, o).0.slot != Some(frame)
       <==> if d.slot.None? then o.qbufIn ==> o.dqbufIn else d.slot != Some(frame)
  {
  }

  /** An instance: no bitstream arrives and the input slot cannot be reclaimed; the frame goes back
    * to the capture driver while the encoder still has it queued. */
  lemma FrameCanStayQueued(frame: nat)
    ensures Encoded(Device(None, {0}), frame, Outcome(true, None, false, false, true)).0.slot == Some(frame)
  {
  }

  /** A healthy run: the slot is free at entry as long as every input DQBUF worked. */
  lemma {:induction false} SlotFreeIff(d: Device, ps: seq<Pass>)
    requires d.slot.None?
    ensures AfterAll(d, ps).slot.None?
       <==> forall i :: 0 <= i < |ps| ==> !ps[i].outcome.qbufIn || ps[i].outcome.dqbufIn
  {
    if ps != [] {
      var n := |ps| - 1;
      SlotFreeIff(d, ps[..n]);
      assert forall i :: 0 <= i < n ==> ps[..n][i] == ps[i];
    }
  }

  /** Which frames of a run are sent: from a healthy device whose bitstream re-queues work, exactly those
    * that are good, whose own driver calls work, and that come before any input DQBUF has failed. */
  lemma {:induction false} SentIff(d: Device, ps: seq<Pass>, p: Pass)
    requires d.slot.None? && Requeues(ps)
    ensures Encoded(AfterAll(d, ps), p.frame, p.outcome).2 == p.outcome.dqbufOut != None
       <==> && (forall i :: 0 <= i < |ps| ==> !ps[i].outcome.qbufIn || ps[i].outcome.dqbufIn)
            && p.outcome.qbufIn && p.outcome.dqbufOut.Some? && p.outcome.dqbufOut.value in d.streams
            && p.outcome.dqbufIn && !p.outcome.badFrame
  {
    SlotFreeIff(d, ps);
    StreamsReturn(d, ps);
    EncodeSucceedsIff(AfterAll(d, ps), p.frame, p.outcome);
    hide Encoded, AfterAll, Requeues;
  }
}
