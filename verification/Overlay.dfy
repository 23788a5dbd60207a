/** Publication of the overlay: `overlay_boxes` of main/task/task_video.cpp over the row
  * write-back of main/hal/hal_video_capture.c.
  *
  * A captured frame has two views: the CPU's (through the cache) and the one DMA reads.  CPU
  * stores change only the first; a cache write-back copies a range of it to the second, possibly
  * with neighbouring bytes of the same cache lines. */
module Overlay {
  import opened Basics
  import opened DirtyRows
  import opened OsdPaint
  import Osd

  class CapturedFrame {
    const cpu: array<byte>
    const dma: array<byte>
    const frame: Frame

    ghost predicate Valid() {
      && cpu != dma
      && cpu.Length == dma.Length
      && Osd.Fits(cpu, frame)
    }

    constructor (cpu: array<byte>, dma: array<byte>, frame: Frame)
      requires cpu != dma && cpu.Length == dma.Length && Osd.Fits(cpu, frame)
      ensures Valid() && this.cpu == cpu && this.dma == dma && this.frame == frame
    {
      this.cpu, this.dma, this.frame := cpu, dma, frame;
    }

    /** `esp_cache_msync` from cache to memory over [from, from + size), with whatever other bytes
      * the cache lines happen to take along; nothing when it is refused. */
    method WriteBack(from: nat, size: nat, alsoWritten: set<nat>, works: bool) returns (ok: bool)
      requires Valid() && from + size <= cpu.Length
      modifies dma
      ensures ok == works
      ensures forall i :: 0 <= i < dma.Length ==>
                dma[i] == if ok && (from <= i < from + size || i in alsoWritten) then cpu[i] else old(dma[i])
    {
      if !works {
        return false;
      }
      for i := 0 to dma.Length
        invariant forall k :: 0 <= k < i ==>
                    dma[k] == if from <= k < from + size || k in alsoWritten then cpu[k] else old(dma[k])
        invariant forall k :: i <= k < dma.Length ==> dma[k] == old(dma[k])
      {
        if from <= i < from + size || i in alsoWritten {
          dma[i] := cpu[i];
        }
      }
      return true;
    }

    /** `hal_vcap_publish_rows`: clamp to the frame, then write the rows back if there are any. */
    method PublishRows(yFirst: int, yLast: int, alsoWritten: set<nat>, works: bool) returns (ok: bool)
      requires Valid()
      modifies dma
      ensures ok <==> works || Max(yFirst, 0) > Min(yLast, frame.height - 1)
      ensures ok ==> forall y, o | 0 <= y < frame.height && 0 <= o < frame.Stride() && yFirst <= y <= yLast ::
                dma[At(frame, y, o)] == cpu[At(frame, y, o)]
      ensures !ok ==> dma[..] == old(dma[..])
      ensures forall y, o | 0 <= y < frame.height && 0 <= o < frame.Stride() && !(yFirst <= y <= yLast)
                            && At(frame, y, o) !in alsoWritten ::
                dma[At(frame, y, o)] == old(dma[At(frame, y, o)])
      ensures forall i :: 0 <= i < dma.Length ==> dma[i] == cpu[i] || dma[i] == old(dma[i])
    {
      var first := if yFirst < 0 then 0 else yFirst;
      var last := if yLast > frame.height - 1 then frame.height - 1 else yLast;
      if first > last {
        return true;
      }
      RowSpan(frame, first, last);
      ok := WriteBack(first * frame.Stride(), (last - first + 1) * frame.Stride(), alsoWritten, works);
      if !ok {
        assert dma[..] == old(dma[..]);
        return;
      }
      forall y, o | 0 <= y < frame.height && 0 <= o < frame.Stride() && yFirst <= y <= yLast
        ensures dma[At(frame, y, o)] == cpu[At(frame, y, o)]
      {
        SpanIff(frame, first, last, y, o);
      }
      forall y, o | 0 <= y < frame.height && 0 <= o < frame.Stride() && !(yFirst <= y <= yLast)
                    && At(frame, y, o) !in alsoWritten
        ensures dma[At(frame, y, o)] == old(dma[At(frame, y, o)])
      {
        SpanIff(frame, first, last, y, o);
      }
    }

    /** `overlay_boxes`: draw, then publish only the dirty ranges; `works` says which write-backs are
      * accepted, and nobody looks at the answer.  If the two views agreed before and every write-back
      * is accepted they agree afterwards at every byte; in any case no byte shows anything but its
      * old or its new value. */
    method OverlayBoxes(boxes: seq<Box>, sx: int, sy: int, alsoWritten: nat -> set<nat>, works: nat -> bool)
      requires Valid() && cpu[..] == dma[..]
      modifies cpu, dma
      ensures (forall i: nat :: works(i)) ==> cpu[..] == dma[..]
      ensures forall k :: 0 <= k < cpu.Length ==> dma[k] == cpu[k] || dma[k] == old(cpu[k])
      ensures Painted(old(cpu[..]), cpu[..], frame, Marks(frame, boxes, sx, sy))
    {
      ghost var before := cpu[..];
      var dirty := new OsdDirty();
      Osd.DrawBoxes(cpu, frame, boxes, sx, sy, dirty);
      ghost var after, rs, marked := cpu[..], dirty.List(), Marks(frame, boxes, sx, sy);
      for i := 0 to dirty.count
        invariant cpu[..] == after && dirty.Valid() && dirty.List() == rs
        invariant forall k :: 0 <= k < cpu.Length ==> dma[k] == cpu[k] || dma[k] == before[k]
        invariant (forall k: nat :: works(k)) ==>
                    forall y, o | 0 <= y < frame.height && 0 <= o < frame.Stride() && Covered(rs[..i], y) ::
                      dma[At(frame, y, o)] == cpu[At(frame, y, o)]
      {
        ghost var was := dma[..];
        var ok := PublishRows(dirty.range[i].first, dirty.range[i].last, alsoWritten(i), works(i));
        assert rs[..i + 1] == rs[..i] + [rs[i]];
        forall y, o | (forall k: nat :: works(k))
                      && 0 <= y < frame.height && 0 <= o < frame.Stride() && Covered(rs[..i + 1], y)
          ensures dma[At(frame, y, o)] == cpu[At(frame, y, o)]
        {
          CoveredConcat(rs[..i], [rs[i]], y);
          if Covered(rs[..i], y) {
            assert was[At(frame, y, o)] == cpu[At(frame, y, o)];
          }
        }
      }
      assert rs[..|rs|] == rs;
      forall k | (forall i: nat :: works(i)) && 0 <= k < cpu.Length
        ensures dma[k] == cpu[k]
      {
        if before[k] != after[k] {
          ChangedRowIsMarked(before, after, frame, marked, k);
        }
      }
    }
  }

  /** The published span, in rows. */
  lemma RowSpan(f: Frame, first: int, last: int)
    requires 0 <= first <= last < f.height
    ensures first * f.Stride() == RowStart(first, f.Stride())
    ensures (last - first + 1) * f.Stride() == RowStart(last + 1, f.Stride()) - RowStart(first, f.Stride()) >= 0
    ensures RowStart(last + 1, f.Stride()) <= f.Bytes()
  {
    var s := f.Stride();
    RowStartValue(first, s);
    RowStartValue(last + 1, s);
    assert (last - first + 1) * s == (last + 1) * s - first * s;
    RowsApart(first, last + 1, s);
    if last + 1 < f.height { RowsApart(last + 1, f.height, s); }
  }

  /** The bytes of the published rows lie inside the span, those of other rows outside. */
  lemma SpanIff(f: Frame, first: int, last: int, y: int, o: int)
    requires 0 <= first <= last < f.height && 0 <= y < f.height && 0 <= o < f.Stride()
    ensures first <= y <= last
       <==> RowStart(first, f.Stride()) <= At(f, y, o) < RowStart(last + 1, f.Stride())
  {
    var s := f.Stride();
    if first < y { RowsApart(first, y, s); }
    if y < first { RowsApart(y, first, s); }
    RowsApart(y, y + 1, s);
    if y < last { RowsApart(y, last + 1, s); }
    if last + 1 < y { RowsApart(last + 1, y, s); }
  }

  /** A byte that painting changed lies in a row of a marked pixel. */
  lemma ChangedRowIsMarked(before: seq<byte>, after: seq<byte>, f: Frame, marked: Pixels, i: nat)
    requires Painted(before, after, f, marked) && i < |before| && before[i] != after[i]
    ensures exists y, o :: 0 <= y < f.height && 0 <= o < f.Stride() && At(f, y, o) == i && HasRow(marked, y)
  {
    var y, o := AtSurjective(f, i);
    var x := 2 * (o / 3);
    assert after[At(f, y, o)] == Want(marked, before[At(f, y, o)], y, o);
    var luma := x + o % 3 - 1;
    assert (x, y) in marked || (x + 1, y) in marked || (luma, y) in marked;
    assert HasRow(marked, y);
  }
}
