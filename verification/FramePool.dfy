/** The abstract state of a frame pool: who has which element. */
module PoolLists {
  import opened Basics

  datatype ListName = FreeList | ReadyList

  /** The two lists, head first; every element below `n` on neither list is checked out. */
  datatype Lists = Lists(n: nat, free: seq<nat>, ready: seq<nat>) {

    predicate CheckedOut(e: nat) {
      e < n && e !in free && e !in ready
    }

    function Get(which: ListName): seq<nat> {
      if which == FreeList then free else ready
    }

    function With(which: ListName, s: seq<nat>): Lists {
      if which == FreeList then this.(free := s) else this.(ready := s)
    }

    /** Free, ready and checked out partition the elements. */
    ghost predicate Partitioned() {
      && (forall e :: e in free ==> e < n && e !in ready)
      && (forall e :: e in ready ==> e < n)
      && NoDuplicates(free) && NoDuplicates(ready)
    }

    /** `list_push`: back onto the head of a list, unless it is on one already. */
    function Push(which: ListName, e: nat): Lists {
      if CheckedOut(e) then With(which, [e] + Get(which)) else this
    }

    /** `list_pop`: the head of a list, if any, becomes checked out. */
    function Pop(which: ListName): (Lists, Option<nat>) {
      if Get(which) == [] then (this, None) else (With(which, Get(which)[1..]), Some(Get(which)[0]))
    }
  }

  ghost predicate NoDuplicates(s: seq<nat>) {
    forall i, j :: 0 <= i < j < |s| ==> s[i] != s[j]
  }

  lemma PushKeepsPartition(l: Lists, which: ListName, e: nat)
    requires l.Partitioned()
    ensures l.Push(which, e).Partitioned()
  {
    assert forall x :: x in [e] + l.Get(which) <==> x == e || x in l.Get(which);
  }

  /** A popped element is the caller's alone. */
  lemma PopKeepsPartition(l: Lists, which: ListName)
    requires l.Partitioned()
    ensures var (l', e) := l.Pop(which); l'.Partitioned() && (e.Some? ==> l'.CheckedOut(e.value))
  {
    var s := l.Get(which);
    if s != [] {
      DistinctTail(s);
      assert s[0] in s;
    }
  }

  /** Whatever was pushed last is popped first: each list is a stack, not a queue. */
  lemma PushThenPop(l: Lists, which: ListName, e: nat)
    requires l.CheckedOut(e)
    ensures l.Push(which, e).Pop(which) == (l, Some(e))
  {
    assert ([e] + l.Get(which))[1..] == l.Get(which);
  }

  /** A second submit or release of the same element changes nothing. */
  lemma SecondPushIgnored(l: Lists, first: ListName, second: ListName, e: nat)
    ensures l.Push(first, e).Push(second, e) == l.Push(first, e)
  {
    if l.CheckedOut(e) {
      assert e in l.Push(first, e).Get(first);
    }
  }

  /** No element is lost or duplicated: the three places always add up. */
  lemma PlacesAddUp(l: Lists)
    requires l.Partitioned()
    ensures |l.free| + |l.ready| + |OutSet(l)| == l.n
  {
    var f, r, o := ToSet(l.free), ToSet(l.ready), OutSet(l);
    SetOfDistinct(l.free);
    SetOfDistinct(l.ready);
    PlacesCover(l);
    hide *;
    assert |f + r + o| == |f| + |r| + |o|;
  }

  lemma PlacesCover(l: Lists)
    requires l.Partitioned()
    ensures ToSet(l.free) + ToSet(l.ready) + OutSet(l) == Below(l.n)
    ensures ToSet(l.free) !! ToSet(l.ready) && (ToSet(l.free) + ToSet(l.ready)) !! OutSet(l)
  {
    hide Below, NoDuplicates;
  }

  ghost function ToSet(s: seq<nat>): set<nat> {
    set e | e in s
  }

  ghost function OutSet(l: Lists): set<nat> {
    set e: nat | e < l.n && l.CheckedOut(e)
  }

  lemma DistinctTail(s: seq<nat>)
    requires NoDuplicates(s) && s != []
    ensures NoDuplicates(s[1..]) && s[0] !in s[1..] && forall x :: x in s[1..] ==> x in s
  {
    forall i, j | 0 <= i < j < |s[1..]|
      ensures s[1..][i] != s[1..][j]
    {
      assert s[i + 1] != s[j + 1];
    }
    assert forall k :: 0 <= k < |s[1..]| ==> s[1..][k] == s[k + 1];
  }

  lemma {:induction false} SetOfDistinct(s: seq<nat>)
    requires NoDuplicates(s)
    ensures |ToSet(s)| == |s|
  {
    if s != [] {
      DistinctTail(s);
      SetOfDistinct(s[1..]);
      assert s == [s[0]] + s[1..];
      assert ToSet(s) == {s[0]} + ToSet(s[1..]);
    }
  }
}

/** The pool of main/core/frame_pool.cpp: two intrusive singly linked lists through one `node`
  * field, a checked-out flag per element and a counting semaphore. */
module FramePool {
  import opened Basics
  import opened PoolLists

  datatype Status = Ok | InvalidArg | InvalidState | NoMem

  const NULL := -1

  // ----- allocation -----

  /** What a pool is made of. */
  datatype Block = PoolStruct | ElementArray | ReadySem | Buffer(i: nat)

  ghost function Blocks(n: nat): set<Block> {
    {PoolStruct, ElementArray, ReadySem} + Buffers(n)
  }

  function Buffers(n: nat): set<Block> {
    set i: nat | i in Below(n) :: Buffer(i)
  }

  /** `frame_pool_new` as far as memory goes: which blocks are live afterwards, when the heap grants
    * exactly the blocks in `granted`.  All of them on success, none on any failure. */
  method AllocatePool(elemNum: int, granted: set<Block>) returns (status: Status, live: set<Block>)
    ensures status == Ok <==>
              && elemNum > 0 && PoolStruct in granted && ElementArray in granted && ReadySem in granted
              && forall i: nat :: i < elemNum ==> Buffer(i) in granted
    ensures status == InvalidArg <==> elemNum <= 0
    ensures status != Ok ==> live == {}
    ensures status == Ok ==> forall b :: b in live <==> b.Buffer? ==> b.i < elemNum
  {
    if elemNum <= 0 {
      return InvalidArg, {};
    }
    if PoolStruct !in granted {
      return NoMem, {};
    }
    live := {PoolStruct};
    if ElementArray !in granted {
      return NoMem, live - {PoolStruct};
    }
    live := live + {ElementArray};
    if ReadySem !in granted {
      return NoMem, live - {ElementArray} - {PoolStruct};
    }
    live := live + {ReadySem};
    for i := 0 to elemNum
      invariant live == {PoolStruct, ElementArray, ReadySem} + Buffers(i)
      invariant Buffers(i) <= granted
    {
      if Buffer(i) !in granted {
        assert Buffer(i) in Buffers(elemNum);
        live := DeletePool(i, live);
        return NoMem, live;
      }
      NextBuffer(i);
      live := live + {Buffer(i)};
    }
    BuffersAre(elemNum);
    hide Buffers;
    status := Ok;
  }

  /** `frame_pool_delete` of a pool that got `elemNum` buffers. */
  method DeletePool(elemNum: nat, live: set<Block>) returns (left: set<Block>)
    ensures left == live - Blocks(elemNum)
  {
    left := live;
    assert Buffers(0) == {};
    hide Buffers;
    for i := 0 to elemNum
      invariant left == live - Buffers(i)
    {
      NextBuffer(i);
      left := left - {Buffer(i)};
    }
    left := left - {ReadySem} - {ElementArray} - {PoolStruct};
  }

  lemma BuffersAre(n: nat)
    ensures forall b :: b in Buffers(n) <==> b.Buffer? && b.i < n
  {
  }

  lemma NextBuffer(i: nat)
    ensures Buffers(i + 1) == Buffers(i) + {Buffer(i)}
  {
  }

  // ----- the lists -----

  /** Following `node` from `head` visits exactly `s` and ends at NULL. */
  ghost predicate Chain(head: int, node: seq<int>, s: seq<nat>) {
    && head == (if s == [] then NULL else s[0])
    && (forall i :: 0 <= i < |s| ==> s[i] < |node| && node[s[i]] == Successor(s, i))
  }

  ghost function Successor(s: seq<nat>, i: nat): int
    requires i < |s|
  {
    if i + 1 < |s| then s[i + 1] else NULL
  }

  /** Relinking an element that is not on a list leaves the list alone. */
  lemma ChainFrame(head: int, node: seq<int>, s: seq<nat>, e: nat, next: int)
    requires Chain(head, node, s) && e < |node| && e !in s
    ensures Chain(head, node[e := next], s)
  {
  }

  lemma ChainPush(head: int, node: seq<int>, s: seq<nat>, e: nat)
    requires Chain(head, node, s) && e < |node| && e !in s
    ensures Chain(e, node[e := head], [e] + s)
  {
    var node', s' := node[e := head], [e] + s;
    forall i | 0 <= i < |s'|
      ensures s'[i] < |node'| && node'[s'[i]] == Successor(s', i)
    {
      if i > 0 { assert s'[i] == s[i - 1] && s[i - 1] in s && Successor(s', i) == Successor(s, i - 1); }
    }
  }

  lemma ChainPop(head: int, node: seq<int>, s: seq<nat>)
    requires Chain(head, node, s) && s != []
    ensures 0 <= head < |node| && Chain(node[head], node, s[1..])
  {
    assert node[s[0]] == Successor(s, 0);
    forall i | 0 <= i < |s[1..]|
      ensures s[1..][i] < |node| && node[s[1..][i]] == Successor(s[1..], i)
    {
      assert s[1..][i] == s[i + 1] && Successor(s[1..], i) == Successor(s, i + 1);
    }
  }

  class Pool {
    const elemNum: nat
    var freeHead: int
    var readyHead: int
    const node: array<int>
    const checkedOut: array<bool>
    var readySem: nat
    ghost var lists: Lists

    ghost predicate Valid()
      reads this, node, checkedOut
    {
      && node.Length == checkedOut.Length == elemNum == lists.n
      && lists.Partitioned()
      && Chain(freeHead, node[..], lists.free)
      && Chain(readyHead, node[..], lists.ready)
      && (forall e: nat :: e < elemNum ==> (checkedOut[e] <==> lists.CheckedOut(e)))
    }

    /** No task is between the two halves of a submit or a receive. */
    ghost predicate Quiescent()
      reads this
    {
      readySem == |lists.ready|
    }

    /** `frame_pool_new`: every element starts checked out and is pushed onto the free list. */
    constructor (elemNum: nat)
      requires elemNum > 0
      ensures Valid() && Quiescent() && fresh(node) && fresh(checkedOut)
      ensures this.elemNum == elemNum && lists.ready == []
      ensures |lists.free| == elemNum && forall k :: 0 <= k < elemNum ==> lists.free[k] == elemNum - 1 - k
    {
      this.elemNum := elemNum;
      freeHead, readyHead, readySem := NULL, NULL, 0;
      node := new int[elemNum](_ => NULL);
      checkedOut := new bool[elemNum](_ => true);
      lists := Lists(elemNum, [], []);
      new;
      for i := 0 to elemNum
        invariant Valid() && Quiescent() && lists.ready == [] && |lists.free| == i
        invariant forall k :: 0 <= k < i ==> lists.free[k] == i - 1 - k
      {
        var ok := ListPush(FreeList, i);
      }
    }

    /** `list_push`, one critical section. */
    method ListPush(which: ListName, e: nat) returns (ok: bool)
      requires Valid() && e < elemNum
      modifies this`freeHead, this`readyHead, this`lists, node, checkedOut
      ensures Valid()
      ensures ok <==> old(lists.CheckedOut(e))
      ensures lists == old(lists).Push(which, e)
    {
      if !checkedOut[e] {
        return false;
      }
      ghost var was := node[..];
      checkedOut[e] := false;
      node[e] := if which == FreeList then freeHead else readyHead;
      if which == FreeList {
        ChainPush(freeHead, was, lists.free, e);
        ChainFrame(readyHead, was, lists.ready, e, freeHead);
        freeHead := e;
      } else {
        ChainPush(readyHead, was, lists.ready, e);
        ChainFrame(freeHead, was, lists.free, e, readyHead);
        readyHead := e;
      }
      PushKeepsPartition(lists, which, e);
      lists := lists.Push(which, e);
      assert node[..] == was[e := if which == FreeList then old(freeHead) else old(readyHead)];
      return true;
    }

    /** `list_pop`, one critical section.  NULL when the list is empty. */
    method ListPop(which: ListName) returns (element: int)
      requires Valid()
      modifies this`freeHead, this`readyHead, this`lists, checkedOut
      ensures Valid()
      ensures var (l, e) := old(lists).Pop(which);
              lists == l && element == if e.Some? then e.value else NULL
    {
      element := NULL;
      var head := if which == FreeList then freeHead else readyHead;
      if head != NULL {
        element := head;
        PopKeepsPartition(lists, which);
        if which == FreeList {
          ChainPop(freeHead, node[..], lists.free);
          freeHead := node[head];
        } else {
          ChainPop(readyHead, node[..], lists.ready);
          readyHead := node[head];
        }
        checkedOut[element] := true;
        lists := lists.Pop(which).0;
      }
    }

    /** `frame_pool_acquire`. */
    method Acquire() returns (element: int)
      requires Valid()
      modifies this`freeHead, this`readyHead, this`lists, checkedOut
      ensures Valid() && readySem == old(readySem)
      ensures element == NULL <==> old(lists.free) == []
      ensures lists == old(lists).Pop(FreeList).0 && (element != NULL ==> 0 <= element && lists.CheckedOut(element))
    {
      PopKeepsPartition(lists, FreeList);
      element := ListPop(FreeList);
    }

    /** `xSemaphoreGive` on a counting semaphore whose maximum is the number of elements. */
    method Give()
      modifies this`readySem
      ensures readySem == if old(readySem) < elemNum then old(readySem) + 1 else old(readySem)
    {
      if readySem < elemNum { readySem := readySem + 1; }
    }

    /** `frame_pool_submit`, run without interference.  NULL is the source's null element. */
    method Submit(element: int) returns (status: Status)
      requires Valid() && NULL <= element < elemNum
      modifies this`freeHead, this`readyHead, this`lists, this`readySem, node, checkedOut
      ensures Valid()
      ensures status == if element == NULL then InvalidArg
                        else if old(lists).CheckedOut(element) then Ok else InvalidState
      ensures lists == if element == NULL then old(lists) else old(lists).Push(ReadyList, element)
      ensures readySem == if status == Ok && old(readySem) < elemNum then old(readySem) + 1 else old(readySem)
      ensures old(Quiescent()) ==> Quiescent()
    {
      if element == NULL {
        return InvalidArg;
      }
      var ok := ListPush(ReadyList, element);
      if !ok {
        return InvalidState;
      }
      PlacesAddUp(lists);
      Give();
      return Ok;
    }

    /** `frame_pool_recv`, run without interference: with nothing to take, the timeout. */
    method Recv() returns (element: int)
      requires Valid()
      modifies this`freeHead, this`readyHead, this`lists, this`readySem, checkedOut
      ensures Valid()
      ensures old(readySem) == 0 ==> element == NULL && lists == old(lists) && readySem == 0
      ensures old(readySem) > 0 ==>
                && readySem == old(readySem) - 1
                && lists == old(lists).Pop(ReadyList).0
                && element == (if old(lists.ready) == [] then NULL else old(lists.ready)[0])
                && (element != NULL ==> lists.CheckedOut(element))
      ensures old(Quiescent()) ==> Quiescent() && (element == NULL <==> old(lists.ready) == [])
    {
      if readySem == 0 {
        return NULL;
      }
      readySem := readySem - 1;
      PopKeepsPartition(lists, ReadyList);
      element := ListPop(ReadyList);
    }

    /** `frame_pool_release`. */
    method Release(index: int) returns (status: Status)
      requires Valid()
      modifies this`freeHead, this`readyHead, this`lists, node, checkedOut
      ensures Valid() && readySem == old(readySem)
      ensures status == if index < 0 || index >= elemNum then InvalidArg
                        else if old(lists).CheckedOut(index) then Ok else InvalidState
      ensures lists == if 0 <= index < elemNum then old(lists).Push(FreeList, index) else old(lists)
    {
      if index < 0 || index >= elemNum {
        return InvalidArg;
      }
      var ok := ListPush(FreeList, index);
      return if ok then Ok else InvalidState;
    }
  }
}
