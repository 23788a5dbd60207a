/** The downlink jitter buffer of main/task/task_speaker.cpp: one producer (the peer task), one
  * consumer (the speaker task), a byte stream that drops what does not fit, and a drop counter. */
module SpeakerSteps {
  import opened Basics
  import opened G711

  const AUDIO_SPK_JITTER_BYTES: nat := 1280
  const AUDIO_SAMPLES_PER_PACKET: nat := 160
  /** One call of speaker_submit_g711a that reached the stream buffer: the payload and how much of
    * it was accepted. */
  datatype Submission = Submission(payload: seq<bv8>, sent: nat)

  datatype State = State(
    jitter: seq<bv8>,            // the stream buffer
    dropped: nat,                // s_dropped, modulo 2^32
    pending: nat,                // bytes refused and not yet added to s_dropped
    inHand: seq<bv8>,            // received by the speaker task, not yet decoded
    reported: nat,               // value of s_dropped at the last report
    log: seq<Submission>,
    played: seq<int16>,          // everything written to the codec
    decoded: seq<bv8>,           // the bytes it was decoded from
    announced: nat)              // sum of the counts in the overflow reports

  const START := State([], 0, 0, [], 0, [], [], [], 0)

  datatype Event =
    | Send(payload: seq<bv8>)    // xStreamBufferSend with timeout 0
    | CountDrop                  // s_dropped += len - sent
    | Receive(got: nat)          // xStreamBufferReceive
    | Play                       // decode and esp_codec_dev_write
    | Report                     // overflow report, when due

  predicate Enabled(s: State, ev: Event) {
    match ev
    case Send(p) => s.pending == 0 && p != []
    case CountDrop => s.pending > 0
    case Receive(got) => s.inHand == [] && 0 < got <= AUDIO_SAMPLES_PER_PACKET && got <= |s.jitter|
    case Play => s.inHand != []
    case Report => s.dropped != s.reported
  }

  /** How much of a payload fits. */
  function Fitting(s: State, payload: seq<bv8>): nat {
    if |s.jitter| >= AUDIO_SPK_JITTER_BYTES then 0
    else if |payload| <= AUDIO_SPK_JITTER_BYTES - |s.jitter| then |payload|
    else AUDIO_SPK_JITTER_BYTES - |s.jitter|
  }

  function Next(s: State, ev: Event): State
    requires Enabled(s, ev)
  {
    match ev
    case Send(p) =>
      var sent := Fitting(s, p);
      s.(jitter := s.jitter + p[..sent], pending := |p| - sent, log := s.log + [Submission(p, sent)])
    case CountDrop => s.(dropped := (s.dropped + s.pending) % U32, pending := 0)
    case Receive(got) => s.(inHand := s.jitter[..got], jitter := s.jitter[got..])
    case Play => s.(inHand := [], played := s.played + DecodeAll(s.inHand), decoded := s.decoded + s.inHand)
    case Report =>
      s.(reported := s.dropped, announced := s.announced + (s.dropped - s.reported + U32) % U32)
  }

  function Run(evs: seq<Event>): Option<State> {
    if evs == [] then Some(START) else
    match Run(evs[..|evs| - 1])
    case None => None
    case Some(m) => if Enabled(m, evs[|evs| - 1]) then Some(Next(m, evs[|evs| - 1])) else None
  }

  /** Bytes submitted, and the concatenation of the accepted prefixes. */
  function Submitted(log: seq<Submission>): nat {
    if log == [] then 0 else Submitted(log[..|log| - 1]) + |log[|log| - 1].payload|
  }

  function Accepted(log: seq<Submission>): seq<bv8> {
    if log == [] then []
    else
      var l := log[|log| - 1];
      Accepted(log[..|log| - 1]) + if l.sent <= |l.payload| then l.payload[..l.sent] else l.payload
  }

  /** Conservation of bytes and of order. */
  ghost predicate Inv(s: State) {
    && |s.jitter| <= AUDIO_SPK_JITTER_BYTES
    && Accepted(s.log) == s.decoded + s.inHand + s.jitter
    && s.played == DecodeAll(s.decoded)
    && |Accepted(s.log)| + s.pending <= Submitted(s.log)
    && s.dropped == (Submitted(s.log) - |Accepted(s.log)| - s.pending) % U32
    && s.reported == s.announced % U32
  }

  lemma SendKeepsInv(s: State, p: seq<bv8>)
    requires Inv(s) && Enabled(s, Send(p))
    ensures Inv(Next(s, Send(p)))
  {
    var s' := Next(s, Send(p));
    var sent := Fitting(s, p);
    assert s'.log[..|s'.log| - 1] == s.log;
    assert Accepted(s'.log) == Accepted(s.log) + p[..sent];
    assert s.decoded + s.inHand + s.jitter + p[..sent] == s.decoded + s.inHand + (s.jitter + p[..sent]);
  }

  lemma AddMod(a: nat, b: nat)
    ensures (a % U32 + b) % U32 == (a + b) % U32
  {
  }

  lemma ReportMod(announced: nat, dropped: nat)
    requires dropped < U32
    ensures (announced + (dropped - announced % U32 + U32) % U32) % U32 == dropped
  {
  }

  lemma StepKeepsInv(s: State, ev: Event)
    requires Inv(s) && Enabled(s, ev)
    ensures Inv(Next(s, ev))
  {
    match ev
    case Send(p) => SendKeepsInv(s, p);
    case CountDrop =>
      AddMod(Submitted(s.log) - |Accepted(s.log)| - s.pending, s.pending);
    case Receive(got) =>
      assert s.jitter == s.jitter[..got] + s.jitter[got..];
      assert s.decoded + [] + s.jitter == s.decoded + s.jitter[..got] + s.jitter[got..];
    case Play =>
      DecodeAnySplit(s.decoded, s.inHand);
      assert s.decoded + s.inHand + s.jitter == (s.decoded + s.inHand) + [] + s.jitter;
    case Report =>
      ReportMod(s.announced, s.dropped);
  }

  lemma {:induction false} RunKeepsInv(evs: seq<Event>)
    requires Run(evs).Some?
    ensures Inv(Run(evs).value)
  {
    if evs != [] {
      RunKeepsInv(evs[..|evs| - 1]);
      StepKeepsInv(Run(evs[..|evs| - 1]).value, evs[|evs| - 1]);
    }
  }

  /** In every interleaving: bytes submitted = decoded + in hand + buffered + dropped, with s_dropped
    * the dropped bytes modulo 2^32 once they have been counted; the backlog is bounded. */
  lemma BytesConserved(evs: seq<Event>)
    requires Run(evs).Some?
    ensures var s := Run(evs).value;
            var lost := Submitted(s.log) - |s.decoded| - |s.inHand| - |s.jitter|;
            lost >= s.pending && s.dropped == (lost - s.pending) % 0x1_0000_0000 && |s.jitter| <= 1280
  {
    RunKeepsInv(evs);
  }

  /** Bytes are dropped only for want of room: every submission fills the buffer as far as it goes, in
    * order, and exactly the bytes beyond its capacity are refused. */
  lemma DropsOnlyWhenFull(evs: seq<Event>, payload: seq<bv8>)
    requires Run(evs + [Send(payload)]).Some?
    ensures (evs + [Send(payload)])[..|evs|] == evs && Run(evs).Some?
    ensures var s, s' := Run(evs).value, Run(evs + [Send(payload)]).value;
            var wanted := s.jitter + payload;
            && s'.jitter == (if |wanted| <= AUDIO_SPK_JITTER_BYTES then wanted else wanted[..AUDIO_SPK_JITTER_BYTES])
            && s'.pending == |wanted| - |s'.jitter|
  {
    assert (evs + [Send(payload)])[..|evs|] == evs;
    RunKeepsInv(evs);
  }

  /** What the codec gets is the decoded concatenation of the accepted prefixes, as far as it has
    * been drained, however the stream was cut into payloads and reads. */
  lemma PlaysAcceptedStream(evs: seq<Event>)
    requires Run(evs).Some?
    ensures var s := Run(evs).value;
            |s.played| <= |Accepted(s.log)| && s.played == DecodeAll(Accepted(s.log)[..|s.played|])
    ensures var s := Run(evs).value;
            s.inHand == s.jitter == [] ==> s.played == DecodeAll(Accepted(s.log))
    ensures var s := Run(evs).value;
            forall i :: 0 <= i < |s.played| ==> s.played[i] == Decode(Accepted(s.log)[i])
  {
    RunKeepsInv(evs);
    var s := Run(evs).value;
    assert Accepted(s.log)[..|s.decoded|] == s.decoded;
    if s.inHand == s.jitter == [] {
      assert Accepted(s.log) == s.decoded;
    }
  }

  /** The overflow reports add up: with the part not yet announced they account for every dropped
    * byte, modulo 2^32. */
  lemma ReportsAddUp(evs: seq<Event>)
    requires Run(evs).Some?
    ensures var s := Run(evs).value;
            (s.announced + (s.dropped - s.reported + U32) % U32) % U32 ==
            (Submitted(s.log) - |Accepted(s.log)| - s.pending) % U32
  {
    RunKeepsInv(evs);
    var s := Run(evs).value;
    ReportMod(s.announced, s.dropped);
  }
}

/** The speaker task's state and code. */
module Speaker {
  import opened Basics
  import opened G711
  import opened SpeakerSteps

  class SpeakerTask {
    var created: bool            // s_jitter is not NULL
    var jitter: seq<bv8>
    var dropped: nat
    var reported: nat
    ghost var pending: nat
    ghost var inHand: seq<bv8>
    ghost var log: seq<Submission>
    ghost var played: seq<int16>
    ghost var decoded: seq<bv8>
    ghost var announced: nat

    ghost function View(): State
      reads this
    {
      State(jitter, dropped, pending, inHand, reported, log, played, decoded, announced)
    }

    constructor ()
      ensures !created && View() == START
    {
      created, jitter, dropped, reported := false, [], 0, 0;
      pending, inHand, log, played, decoded, announced := 0, [], [], [], [], 0;
    }

    /** `speaker_submit_g711a`: true exactly when the whole payload was accepted. */
    method SubmitG711a(payload: seq<bv8>) returns (ok: bool)
      requires pending == 0
      modifies this`jitter, this`dropped, this`pending, this`log
      ensures pending == 0
      ensures created && |old(jitter)| <= AUDIO_SPK_JITTER_BYTES ==>
                var wanted := old(jitter) + payload;
                jitter == if |wanted| <= AUDIO_SPK_JITTER_BYTES then wanted else wanted[..AUDIO_SPK_JITTER_BYTES]
      ensures ok <==> created && payload != [] && |old(jitter)| + |payload| <= AUDIO_SPK_JITTER_BYTES
      ensures !created || payload == [] ==> View() == old(View())
      ensures created && payload != [] ==>
                var s := Next(old(View()), Send(payload));
                View() == if s.pending > 0 then Next(s, CountDrop) else s
    {
      if !created || |payload| == 0 {
        return false;
      }
      var sent := StreamBufferSend(payload);
      if sent != |payload| {
        dropped := (dropped + (|payload| - sent)) % U32;
        pending := 0;
        return false;
      }
      return true;
    }

    /** `xStreamBufferSend` with timeout 0: as much as fits. */
    method StreamBufferSend(payload: seq<bv8>) returns (sent: nat)
      requires pending == 0 && payload != []
      modifies this`jitter, this`pending, this`log
      ensures sent == Fitting(old(View()), payload) <= |payload|
      ensures View() == Next(old(View()), Send(payload))
    {
      var space := if |jitter| < AUDIO_SPK_JITTER_BYTES then AUDIO_SPK_JITTER_BYTES - |jitter| else 0;
      sent := if |payload| <= space then |payload| else space;
      jitter := jitter + payload[..sent];
      pending, log := |payload| - sent, log + [Submission(payload, sent)];
    }

    /** The decode loop: one sample per byte. */
    method DecodeChunk(alaw: seq<bv8>, pcm: array<int16>)
      requires |alaw| <= pcm.Length
      modifies pcm
      ensures pcm[..|alaw|] == DecodeAll(alaw)
    {
      for i := 0 to |alaw|
        invariant pcm[..i] == DecodeAll(alaw[..i])
      {
        pcm[i] := Decode(alaw[i]);
        assert alaw[..i + 1] == alaw[..i] + [alaw[i]];
        DecodeAnySplit(alaw[..i], [alaw[i]]);
      }
      assert alaw[..|alaw|] == alaw;
    }

    /** `xStreamBufferReceive`: up to a packet of bytes, or none after the timeout. */
    method StreamBufferReceive() returns (alaw: seq<bv8>)
      requires inHand == []
      modifies this`jitter, this`inHand
      ensures inHand == alaw && alaw <= old(jitter)
      ensures |alaw| <= AUDIO_SAMPLES_PER_PACKET && (|alaw| == |old(jitter)| || |alaw| == AUDIO_SAMPLES_PER_PACKET)
      ensures View() == if alaw == [] then old(View()) else Next(old(View()), Receive(|alaw|))
    {
      var got := if |jitter| < AUDIO_SAMPLES_PER_PACKET then |jitter| else AUDIO_SAMPLES_PER_PACKET;
      alaw := jitter[..got];
      jitter, inHand := jitter[got..], alaw;
    }

    /** Decode what was received and write it to the codec. */
    method PlayChunk(alaw: seq<bv8>, pcm: array<int16>)
      requires inHand == alaw != [] && |alaw| <= pcm.Length
      modifies this`inHand, this`played, this`decoded, pcm
      ensures inHand == [] && View() == Next(old(View()), Play)
      ensures forall i :: 0 <= i < |alaw| ==> pcm[i] == Decode(alaw[i])
    {
      DecodeChunk(alaw, pcm);
      assert forall i :: 0 <= i < |alaw| ==> pcm[..|alaw|][i] == Decode(alaw[i]);
      played, decoded, inHand := played + pcm[..|alaw|], decoded + alaw, [];
    }

    /** The overflow report, when there is one and its time has come. */
    method ReportDrops(due: bool)
      modifies this`reported, this`announced
      ensures View() == if due && old(View()).dropped != old(View()).reported then Next(old(View()), Report)
                        else old(View())
    {
      if dropped != reported && due {
        announced := announced + (dropped - reported + U32) % U32;
        reported := dropped;
      }
    }

    /** One pass of the drain loop: up to a packet of bytes is decoded and written, and an overflow is
      * reported when there is one and its time has come. */
    method DrainOnce(pcm: array<int16>, reportDue: bool) returns (got: nat)
      requires inHand == [] && pcm.Length == AUDIO_SAMPLES_PER_PACKET
      modifies this, pcm
      ensures created == old(created) && inHand == []
      ensures got == 0 <==> old(jitter) == []
      ensures got == 0 ==> View() == old(View())
      ensures got <= AUDIO_SAMPLES_PER_PACKET && got <= |old(jitter)|
      ensures got == |old(jitter)| || got == 160
      ensures forall i :: 0 <= i < got ==> pcm[i] == Decode(old(jitter)[i])
      ensures got > 0 ==>
                && Enabled(old(View()), Receive(got))
                && var s := Next(Next(old(View()), Receive(got)), Play);
                   View() == if reportDue && s.dropped != s.reported then Next(s, Report) else s
    {
      hide Next;
      var alaw := StreamBufferReceive();
      got := |alaw|;
      if got == 0 {
        return;
      }
      PlayChunk(alaw, pcm);
      ReportDrops(reportDue);
    }
  }
}
