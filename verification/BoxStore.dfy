/** The latest detections of main/task/task_detect.cpp: written by the detect task, read by the
  * encode task, both under one mutex. */
module BoxStore {
  import opened Basics

  /** One detection as the model returns it: a vector of coordinates and a score. */
  datatype Result = Result(box: seq<int>, score: real)

  datatype DetBox = DetBox(x1: int, y1: int, x2: int, y2: int, score: real)

  predicate Usable(r: Result) {
    |r.box| >= 4
  }

  function ToBox(r: Result): DetBox
    requires Usable(r)
  {
    DetBox(r.box[0], r.box[1], r.box[2], r.box[3], r.score)
  }

  /** The boxes of the usable results, in order. */
  function UsableBoxes(rs: seq<Result>): seq<DetBox> {
    if rs == [] then []
    else UsableBoxes(rs[..|rs| - 1]) + if Usable(rs[|rs| - 1]) then [ToBox(rs[|rs| - 1])] else []
  }

  /** What a completed result set leaves in the store: its first DET_MAX_BOX usable boxes. */
  function Kept(rs: seq<Result>): (kept: seq<DetBox>)
    ensures |kept| <= DET_MAX_BOX
  {
    Prefix(UsableBoxes(rs), DET_MAX_BOX)
  }

  function Prefix<T>(s: seq<T>, n: nat): seq<T> {
    if n <= |s| then s[..n] else s
  }

  lemma {:induction false} UsablePrefix(rs: seq<Result>, i: nat)
    requires i <= |rs|
    ensures UsableBoxes(rs[..i]) <= UsableBoxes(rs)
    decreases |rs|
  {
    if i == |rs| {
      assert rs[..i] == rs;
    } else {
      UsablePrefix(rs[..|rs| - 1], i);
      assert rs[..|rs| - 1][..i] == rs[..i];
    }
  }

  /** `idx` lists the results with at least four coordinates, in order. */
  ghost predicate Indices(rs: seq<Result>, idx: seq<nat>) {
    && (forall i: nat :: i in idx <==> i < |rs| && |rs[i].box| >= 4)
    && (forall j, k :: 0 <= j < k < |idx| ==> idx[j] < idx[k])
  }

  /** `boxes` are the boxes of the results at `idx`. */
  ghost predicate BoxesAt(rs: seq<Result>, idx: seq<nat>, boxes: seq<DetBox>) {
    && |boxes| == |idx|
    && forall k :: 0 <= k < |idx| ==> idx[k] < |rs| && Usable(rs[idx[k]]) && boxes[k] == ToBox(rs[idx[k]])
  }

  lemma {:induction false} UsableAre(rs: seq<Result>) returns (idx: seq<nat>)
    ensures Indices(rs, idx) && BoxesAt(rs, idx, UsableBoxes(rs))
  {
    if rs == [] {
      idx := [];
    } else {
      var n := |rs| - 1;
      var before := UsableAre(rs[..n]);
      idx := if Usable(rs[n]) then before + [n] else before;
      IndicesNext(rs, before, idx);
      BoxesNext(rs, before, UsableBoxes(rs[..n]));
      hide Indices, BoxesAt;
    }
  }

  lemma BoxesNext(rs: seq<Result>, idx: seq<nat>, boxes: seq<DetBox>)
    requires rs != [] && BoxesAt(rs[..|rs| - 1], idx, boxes)
    ensures BoxesAt(rs, idx, boxes)
    ensures var last := rs[|rs| - 1]; Usable(last) ==> BoxesAt(rs, idx + [|rs| - 1], boxes + [ToBox(last)])
  {
    var n := |rs| - 1;
    forall k | 0 <= k < |idx|
      ensures idx[k] < |rs| && Usable(rs[idx[k]]) && boxes[k] == ToBox(rs[idx[k]])
    {
      assert rs[..n][idx[k]] == rs[idx[k]];
    }
    hide ToBox, Usable;
  }

  lemma IndicesNext(rs: seq<Result>, before: seq<nat>, idx: seq<nat>)
    requires rs != [] && Indices(rs[..|rs| - 1], before)
    requires idx == if Usable(rs[|rs| - 1]) then before + [|rs| - 1] else before
    ensures Indices(rs, idx)
  {
    var n := |rs| - 1;
    assert forall k :: 0 <= k < |before| ==> before[k] in before;
    forall i: nat
      ensures i in idx <==> i < |rs| && |rs[i].box| >= 4
    {
      assert i in before <==> i < n && |rs[..n][i].box| >= 4;
    }
  }

  /** What is kept of a result set: the first five results with at least four coordinates, the coordinates
    * as left, top, right and bottom. */
  lemma KeptAre(rs: seq<Result>) returns (idx: seq<nat>)
    ensures Indices(rs, idx)
    ensures |Kept(rs)| == if |idx| < 5 then |idx| else 5
    ensures forall k :: 0 <= k < |idx| ==> idx[k] < |rs| && |rs[idx[k]].box| >= 4
    ensures forall k :: 0 <= k < |Kept(rs)| ==>
              var box := rs[idx[k]].box;
              Kept(rs)[k] == DetBox(box[0], box[1], box[2], box[3], rs[idx[k]].score)
  {
    idx := UsableAre(rs);
  }

  class Store {
    const boxes: array<DetBox>
    var count: nat
    var started: bool            // the mutex exists

    ghost predicate Valid()
      reads this
    {
      boxes.Length == DET_MAX_BOX && count <= DET_MAX_BOX
    }

    constructor ()
      ensures Valid() && count == 0 && !started && fresh(boxes)
    {
      boxes := new DetBox[DET_MAX_BOX](_ => DetBox(0, 0, 0, 0, 0.0));
      count, started := 0, false;
    }

    /** The mutex is created in `ped_start`. */
    method Start()
      requires Valid()
      modifies this`started
      ensures Valid() && started
    {
      started := true;
    }

    /** `store_results`, inside its critical section. */
    method StoreResults(results: seq<Result>)
      requires Valid()
      modifies this`count, boxes
      ensures Valid() && boxes[..count] == Kept(results)
    {
      var n := 0;
      var i := 0;
      while i < |results| && n < DET_MAX_BOX
        invariant 0 <= i <= |results| && 0 <= n <= DET_MAX_BOX
        invariant boxes[..n] == UsableBoxes(results[..i])
      {
        assert results[..i + 1][..i] == results[..i];
        if Usable(results[i]) {
          boxes[n] := ToBox(results[i]);
          n := n + 1;
        }
        i := i + 1;
      }
      UsablePrefix(results, i);
      assert i == |results| ==> results[..i] == results;
      count := n;
    }

    /** `ped_get_boxes`: nothing before the start, else its critical section. */
    method GetBoxes(out: array<DetBox>, max: nat) returns (n: nat)
      requires Valid() && out != boxes && out.Length >= max
      modifies out
      ensures n <= max && out[..n] == if started then Prefix(boxes[..count], max) else []
    {
      if !started {
        return 0;
      }
      n := if count < max then count else max;
      for i := 0 to n
        invariant out[..i] == boxes[..i]
      {
        out[i] := boxes[i];
      }
    }
  }
}

/** The two critical sections, one array element at a time, in every interleaving. */
module BoxStoreSteps {
  import opened Basics
  import opened BoxStore

  /** The writer stores result `i` next, with `n` kept so far. */
  datatype Writer = Resting | Writing(rs: seq<Result>, i: nat, n: nat)

  /** The reader has copied `out` of the `n` boxes it decided on. */
  datatype Reader = Away | Reading(n: nat, out: seq<DetBox>)

  datatype Read = Read(max: nat, boxes: seq<DetBox>, done: nat)

  datatype State = State(
    boxes: seq<DetBox>, count: nat, writer: Writer, reader: Reader, max: nat,
    completed: seq<seq<Result>>,      // result sets stored so far
    returned: seq<Read>)               // what get_boxes returned, and how many sets were complete then

  datatype Event =
    | BeginStore(rs: seq<Result>) | StoreNext | EndStore
    | BeginRead(max: nat) | CopyNext | EndRead

  /** The mutex: only one of the two is ever inside. */
  predicate MutexFree(s: State) {
    s.writer.Resting? && s.reader.Away?
  }

  predicate MoreToStore(w: Writer) {
    w.Writing? && w.i < |w.rs| && w.n < DET_MAX_BOX
  }

  predicate Enabled(s: State, ev: Event) {
    match ev
    case BeginStore(_) => MutexFree(s)
    case StoreNext => MoreToStore(s.writer)
    case EndStore => s.writer.Writing? && !MoreToStore(s.writer)
    case BeginRead(_) => MutexFree(s)
    case CopyNext => s.reader.Reading? && |s.reader.out| < s.reader.n && |s.reader.out| < |s.boxes|
    case EndRead => s.reader.Reading? && |s.reader.out| == s.reader.n
  }

  function Next(s: State, ev: Event): State
    requires Enabled(s, ev)
  {
    match ev
    case BeginStore(rs) => s.(writer := Writing(rs, 0, 0))
    case StoreNext =>
      var w := s.writer;
      if Usable(w.rs[w.i]) then
        s.(boxes := if w.n < |s.boxes| then s.boxes[w.n := ToBox(w.rs[w.i])] else s.boxes,
           writer := Writing(w.rs, w.i + 1, w.n + 1))
      else s.(writer := Writing(w.rs, w.i + 1, w.n))
    case EndStore => s.(count := s.writer.n, completed := s.completed + [s.writer.rs], writer := Resting)
    case BeginRead(max) => s.(reader := Reading(if s.count < max then s.count else max, []), max := max)
    case CopyNext => s.(reader := s.reader.(out := s.reader.out + [s.boxes[|s.reader.out|]]))
    case EndRead => s.(returned := s.returned + [Read(s.max, s.reader.out, |s.completed|)], reader := Away)
  }

  ghost predicate Initial(s: State) {
    |s.boxes| == DET_MAX_BOX && s.count == 0 && MutexFree(s) && s.completed == [] && s.returned == []
  }

  function Run(s: State, evs: seq<Event>): Option<State> {
    if evs == [] then Some(s) else
    match Run(s, evs[..|evs| - 1])
    case None => None
    case Some(m) => if Enabled(m, evs[|evs| - 1]) then Some(Next(m, evs[|evs| - 1])) else None
  }

  /** The boxes of the k-th completed set; none before the first. */
  function Latest(completed: seq<seq<Result>>, k: nat): seq<DetBox>
    requires k <= |completed|
  {
    if k == 0 then [] else Kept(completed[k - 1])
  }

  ghost predicate Inv(s: State) {
    && |s.boxes| == DET_MAX_BOX && s.count <= DET_MAX_BOX
    && (s.writer.Resting? || s.reader.Away?)
    && (s.writer.Resting? ==> s.boxes[..s.count] == Latest(s.completed, |s.completed|))
    && (s.writer.Writing? ==> s.writer.i <= |s.writer.rs| && s.writer.n <= DET_MAX_BOX
                              && s.boxes[..s.writer.n] == UsableBoxes(s.writer.rs[..s.writer.i]))
    && (s.reader.Reading? ==> s.reader.n == (if s.count < s.max then s.count else s.max)
                              && |s.reader.out| <= s.reader.n && s.reader.out == s.boxes[..|s.reader.out|])
    && (forall r :: 0 <= r < |s.returned| ==>
          && s.returned[r].done <= |s.completed|
          && s.returned[r].boxes == Prefix(Latest(s.completed, s.returned[r].done), s.returned[r].max))
  }

  lemma WriterStep(s: State)
    requires Inv(s) && Enabled(s, StoreNext)
    ensures Inv(Next(s, StoreNext))
  {
    var w := s.writer;
    assert w.rs[..w.i + 1][..w.i] == w.rs[..w.i];
  }

  lemma WriterDone(s: State)
    requires Inv(s) && Enabled(s, EndStore)
    ensures Inv(Next(s, EndStore))
  {
    var w := s.writer;
    UsablePrefix(w.rs, w.i);
    assert w.i == |w.rs| ==> w.rs[..w.i] == w.rs;
    var s' := Next(s, EndStore);
    assert s.boxes[..w.n] == Kept(w.rs);
    forall r | 0 <= r < |s'.returned|
      ensures s'.returned[r].boxes == Prefix(Latest(s'.completed, s'.returned[r].done), s'.returned[r].max)
    {
      assert Latest(s'.completed, s'.returned[r].done) == Latest(s.completed, s.returned[r].done);
    }
  }

  lemma StepKeepsInv(s: State, ev: Event)
    requires Inv(s) && Enabled(s, ev)
    ensures Inv(Next(s, ev))
  {
    match ev
    case BeginStore(rs) =>
      assert rs[..0] == [];
    case StoreNext => WriterStep(s);
    case EndStore => WriterDone(s);
    case BeginRead(_) =>
    case CopyNext =>
    case EndRead =>
      assert s.reader.out == Prefix(s.boxes[..s.count], s.max);
  }

  lemma {:induction false} RunKeepsInv(s0: State, evs: seq<Event>)
    requires Initial(s0) && Run(s0, evs).Some?
    ensures Inv(Run(s0, evs).value)
  {
    if evs != [] {
      RunKeepsInv(s0, evs[..|evs| - 1]);
      StepKeepsInv(Run(s0, evs[..|evs| - 1]).value, evs[|evs| - 1]);
    }
  }

  /** Whatever the interleaving, every `get_boxes` returned a prefix of one completed result set, the
    * latest at that time - never a mix of two. */
  lemma ReadsOneSet(s0: State, evs: seq<Event>, r: nat)
    requires Initial(s0) && Run(s0, evs).Some? && r < |Run(s0, evs).value.returned|
    ensures var s := Run(s0, evs).value;
            && s.returned[r].done <= |s.completed|
            && s.returned[r].boxes == Prefix(Latest(s.completed, s.returned[r].done), s.returned[r].max)
  {
    RunKeepsInv(s0, evs);
  }
}
