/** The merged, sorted list of dirty row ranges of main/core/osd.c and osd.h. */
module DirtyRows {
  import opened Basics

  const OSD_MAX_DIRTY_RANGES: nat := 2 * DET_MAX_BOX

  datatype Rows = Rows(first: int, last: int) {
    predicate Has(y: int) {
      first <= y <= last
    }
  }

  /** Row y lies in one of the ranges. */
  ghost predicate Covered(rs: seq<Rows>, y: int) {
    exists k :: 0 <= k < |rs| && rs[k].Has(y)
  }

  /** Sorted, non-empty, disjoint, and with at least one clean row between neighbours. */
  ghost predicate Apart(rs: seq<Rows>) {
    && (forall k :: 0 <= k < |rs| ==> rs[k].first <= rs[k].last)
    && (forall j, k :: 0 <= j < k < |rs| ==> rs[j].last + 1 < rs[k].first)
  }

  /** Number of rows the caller will write back. */
  function TotalRows(rs: seq<Rows>): int {
    if rs == [] then 0 else TotalRows(rs[..|rs| - 1]) + rs[|rs| - 1].last - rs[|rs| - 1].first + 1
  }

  /** The table has no entry left and the new rows touch none of its ranges. */
  ghost predicate Overflows(rs: seq<Rows>, first: int, last: int) {
    && |rs| == OSD_MAX_DIRTY_RANGES
    && forall k :: 0 <= k < |rs| ==> rs[k].last + 1 < first || last + 1 < rs[k].first
  }

  /** `merged` covers rows [first, last] besides what `rs` covers; it never loses a row. */
  ghost predicate KeepsRows(rs: seq<Rows>, first: int, last: int, merged: seq<Rows>) {
    forall y :: Covered(rs, y) || first <= y <= last ==> Covered(merged, y)
  }

  /** `merged` covers rows [first, last], what `rs` covers, and nothing else. */
  ghost predicate AddsExactly(rs: seq<Rows>, first: int, last: int, merged: seq<Rows>) {
    forall y :: Covered(merged, y) <==> Covered(rs, y) || first <= y <= last
  }

  lemma {:induction false} TotalOfConcat(a: seq<Rows>, b: seq<Rows>)
    ensures TotalRows(a + b) == TotalRows(a) + TotalRows(b)
  {
    if b == [] {
      assert a + b == a;
    } else {
      assert (a + b)[..|a + b| - 1] == a + b[..|b| - 1];
      TotalOfConcat(a, b[..|b| - 1]);
    }
  }

  /** On a list in order `TotalRows` is the number of rows covered. */
  lemma {:induction false} TotalIsNumberCovered(rs: seq<Rows>) returns (rows: set<int>)
    requires Apart(rs)
    ensures forall y :: y in rows <==> Covered(rs, y)
    ensures |rows| == TotalRows(rs)
  {
    if rs == [] {
      rows := {};
    } else {
      var n := |rs| - 1;
      var before := TotalIsNumberCovered(rs[..n]);
      var added := Between(rs[n].first, rs[n].last);
      rows := before + added;
      forall y
        ensures Covered(rs, y) <==> Covered(rs[..n], y) || rs[n].Has(y)
        ensures Covered(rs[..n], y) ==> y < rs[n].first
      {
        LastRange(rs, y);
      }
      hide Covered, Apart;
      assert before !! added;
    }
  }

  lemma LastRange(rs: seq<Rows>, y: int)
    requires rs != []
    ensures Covered(rs, y) <==> Covered(rs[..|rs| - 1], y) || rs[|rs| - 1].Has(y)
    ensures Apart(rs) && Covered(rs[..|rs| - 1], y) ==> y < rs[|rs| - 1].first
  {
    var n := |rs| - 1;
    CoveredSpliced(rs, n, n + 1, rs[n], y);
    assert rs == rs[..n] + [rs[n]] + rs[n + 1..];
  }

  /** The rows from one to another. */
  function Between(first: int, last: int): (rows: set<int>)
    requires first <= last + 1
    ensures forall y :: y in rows <==> first <= y <= last
    ensures |rows| == last + 1 - first
    decreases last - first
  {
    if first > last then {} else Between(first, last - 1) + {last}
  }

  lemma CoveredConcat(a: seq<Rows>, b: seq<Rows>, y: int)
    ensures Covered(a + b, y) <==> Covered(a, y) || Covered(b, y)
  {
    if Covered(a, y) {
      var k :| 0 <= k < |a| && a[k].Has(y);
      assert (a + b)[k].Has(y);
    }
    if Covered(b, y) {
      var k :| 0 <= k < |b| && b[k].Has(y);
      assert (a + b)[|a| + k].Has(y);
    }
  }

  lemma CoveredSplice(rs: seq<Rows>, i: nat, j: nat, y: int)
    requires i <= j <= |rs|
    ensures Covered(rs, y) <==> Covered(rs[..i], y) || Covered(rs[i..j], y) || Covered(rs[j..], y)
  {
    assert rs == rs[..i] + rs[i..j] + rs[j..];
    CoveredConcat(rs[..i] + rs[i..j], rs[j..], y);
    CoveredConcat(rs[..i], rs[i..j], y);
  }

  lemma CoveredSpliced(rs: seq<Rows>, i: nat, j: nat, r: Rows, y: int)
    requires i <= j <= |rs|
    ensures Covered(rs[..i] + [r] + rs[j..], y) <==> Covered(rs[..i], y) || r.Has(y) || Covered(rs[j..], y)
  {
    CoveredConcat(rs[..i] + [r], rs[j..], y);
    CoveredConcat(rs[..i], [r], y);
    assert Covered([r], y) <==> r.Has(y) by {
      if r.Has(y) { assert [r][0].Has(y); }
    }
  }

  /** What the two search loops of `dirty_add` establish: [f, l] is [first, last] widened by
    * the ranges i to j, which are the ones it touches. */
  ghost predicate Absorbed(rs: seq<Rows>, first: int, last: int, i: nat, j: nat, f: int, l: int) {
    && i <= j <= |rs|
    && f <= first && last <= l
    && (j == i ==> f == first && l == last)
    && (i < j ==> rs[i].first <= last + 1)
    && (forall k :: 0 <= k < i ==> rs[k].last + 1 < first)
    && (forall k :: i <= k < j ==> f <= rs[k].first && rs[k].last <= l)
    && (Apart(rs) && first <= last ==> Hull(rs, first, last, i, j, f, l))
  }

  /** On a list in order, [f, l] is exactly the union of [first, last] and the absorbed ranges. */
  ghost predicate Hull(rs: seq<Rows>, first: int, last: int, i: nat, j: nat, f: int, l: int)
    requires i <= j <= |rs|
  {
    && (i < |rs| ==> first <= rs[i].last + 1)
    && (forall y :: Rows(f, l).Has(y) ==> first <= y <= last || Covered(rs[i..j], y))
    && l - f <= last - first + TotalRows(rs[i..j])
    && (f < first ==> i < j && f == rs[i].first)
  }

  lemma AbsorbNext(rs: seq<Rows>, first: int, last: int, i: nat, j: nat, f: int, l: int, f': int, l': int)
    requires Absorbed(rs, first, last, i, j, f, l) && j < |rs| && rs[j].first <= l + 1
    requires f' == if rs[j].first < f then rs[j].first else f
    requires l' == if rs[j].last > l then rs[j].last else l
    ensures Absorbed(rs, first, last, i, j + 1, f', l')
  {
    if Apart(rs) && first <= last {
      HullNext(rs, first, last, i, j, f, l, f', l');
    }
    hide Apart, Hull;
  }

  lemma HullNext(rs: seq<Rows>, first: int, last: int, i: nat, j: nat, f: int, l: int, f': int, l': int)
    requires Apart(rs) && first <= last && i <= j < |rs| && f <= first && last <= l
    requires Hull(rs, first, last, i, j, f, l) && rs[j].first <= l + 1
    requires f' == if rs[j].first < f then rs[j].first else f
    requires l' == if rs[j].last > l then rs[j].last else l
    requires j == i ==> f == first
    ensures Hull(rs, first, last, i, j + 1, f', l')
  {
    assert first <= rs[j].last + 1;
    assert rs[j].first <= rs[j].last;
    assert i < j ==> rs[i].first < rs[j].first;
    hide Apart, TotalRows, Covered;
    assert rs[i..j + 1] == rs[i..j] + [rs[j]];
    HullTotal(rs[i..j], rs[j]);
    forall y | Rows(f', l').Has(y)
      ensures first <= y <= last || Covered(rs[i..j + 1], y)
    {
      HullCovered(rs[i..j], rs[j], f, l, f', l', first, last, y);
    }
  }

  lemma HullTotal(rs: seq<Rows>, r: Rows)
    ensures TotalRows(rs + [r]) == TotalRows(rs) + r.last - r.first + 1
  {
    assert (rs + [r])[..|rs|] == rs;
  }

  /** A row of the widened hull was in the hull before, or is in the range just absorbed. */
  lemma HullCovered(rs: seq<Rows>, r: Rows, f: int, l: int, f': int, l': int, first: int, last: int, y: int)
    requires r.first <= l + 1 && f <= r.last + 1
    requires f' == if r.first < f then r.first else f
    requires l' == if r.last > l then r.last else l
    requires Rows(f, l).Has(y) ==> first <= y <= last || Covered(rs, y)
    requires Rows(f', l').Has(y)
    ensures first <= y <= last || Covered(rs + [r], y)
  {
    CoveredConcat(rs, [r], y);
    if r.Has(y) { assert [r][0].Has(y); }
  }

  /** Replacing the absorbed run by the merged range loses no row, for any list. */
  lemma SpliceKeeps(rs: seq<Rows>, first: int, last: int, i: nat, j: nat, f: int, l: int)
    requires Absorbed(rs, first, last, i, j, f, l)
    ensures KeepsRows(rs, first, last, rs[..i] + [Rows(f, l)] + rs[j..])
  {
    forall y | Covered(rs, y) || first <= y <= last
      ensures Covered(rs[..i] + [Rows(f, l)] + rs[j..], y)
    {
      CoveredSplice(rs, i, j, y);
      CoveredSpliced(rs, i, j, Rows(f, l), y);
    }
  }

  /** On a list in order it adds exactly the new rows ... */
  lemma SpliceExact(rs: seq<Rows>, first: int, last: int, i: nat, j: nat, f: int, l: int)
    requires Absorbed(rs, first, last, i, j, f, l) && Apart(rs) && first <= last
    ensures AddsExactly(rs, first, last, rs[..i] + [Rows(f, l)] + rs[j..])
  {
    var merged := rs[..i] + [Rows(f, l)] + rs[j..];
    SpliceKeeps(rs, first, last, i, j, f, l);
    forall y | Covered(merged, y)
      ensures Covered(rs, y) || first <= y <= last
    {
      CoveredSplice(rs, i, j, y);
      CoveredSpliced(rs, i, j, Rows(f, l), y);
    }
  }

  /** ... keeps the order ... */
  lemma SpliceApart(rs: seq<Rows>, first: int, last: int, i: nat, j: nat, f: int, l: int)
    requires Absorbed(rs, first, last, i, j, f, l) && Apart(rs) && first <= last
    requires j < |rs| ==> l + 1 < rs[j].first
    ensures Apart(rs[..i] + [Rows(f, l)] + rs[j..])
  {
    assert forall k :: 0 <= k < i ==> rs[k].last + 1 < f;
    assert forall k :: j <= k < |rs| ==> rs[k] == rs[j] || rs[j].first < rs[k].first;
    hide Absorbed;
    ApartJoin(rs[..i], Rows(f, l), rs[j..]);
  }

  lemma ApartJoin(a: seq<Rows>, r: Rows, b: seq<Rows>)
    requires Apart(a) && Apart(b) && r.first <= r.last
    requires forall k :: 0 <= k < |a| ==> a[k].last + 1 < r.first
    requires forall k :: 0 <= k < |b| ==> r.last + 1 < b[k].first
    ensures Apart(a + [r] + b)
  {
    var c := a + [r] + b;
    assert forall k :: 0 <= k < |a| ==> c[k] == a[k];
    assert c[|a|] == r;
    assert forall k :: |a| < k < |c| ==> c[k] == b[k - |a| - 1];
  }

  /** ... and costs no more rows than were there and asked for. */
  lemma SpliceTotal(rs: seq<Rows>, first: int, last: int, i: nat, j: nat, f: int, l: int)
    requires Absorbed(rs, first, last, i, j, f, l) && Apart(rs) && first <= last
    ensures TotalRows(rs[..i] + [Rows(f, l)] + rs[j..]) <= TotalRows(rs) + last - first + 1
  {
    var head, mid, tail, r := rs[..i], rs[i..j], rs[j..], [Rows(f, l)];
    assert rs == head + mid + tail;
    assert TotalRows(r) == l - f + 1 by { assert r[..0] == []; }
    assert l - f <= last - first + TotalRows(mid);
    hide *;
    TotalOfConcat(head + mid, tail);
    TotalOfConcat(head, mid);
    TotalOfConcat(head + r, tail);
    TotalOfConcat(head, r);
  }

  /** The full-table fallback: the last range is widened over the new rows. */
  function Widened(rs: seq<Rows>, first: int, last: int): seq<Rows>
    requires |rs| > 0
  {
    var r := rs[|rs| - 1];
    rs[|rs| - 1 := Rows(if first < r.first then first else r.first, if last > r.last then last else r.last)]
  }

  /** The fallback loses no row either ... */
  lemma WidenKeeps(rs: seq<Rows>, first: int, last: int)
    requires |rs| > 0
    ensures KeepsRows(rs, first, last, Widened(rs, first, last))
  {
    var w := Widened(rs, first, last);
    forall y | Covered(rs, y) || first <= y <= last
      ensures Covered(w, y)
    {
      if first <= y <= last {
        assert w[|rs| - 1].Has(y);
      } else {
        var k :| 0 <= k < |rs| && rs[k].Has(y);
        assert w[k].Has(y);
      }
    }
  }

  /** ... and covers, besides the other ranges, the hull of the last one and the new rows. */
  lemma WidenCovers(rs: seq<Rows>, first: int, last: int, y: int)
    requires |rs| > 0
    ensures Covered(Widened(rs, first, last), y) <==> CoveredOrHull(rs, first, last, y)
  {
    var n, w := |rs| - 1, Widened(rs, first, last);
    assert w == rs[..n] + [w[n]] + rs[n + 1..];
    CoveredSpliced(rs, n, n + 1, w[n], y);
  }

  /** That is always a clean row too many. */
  lemma WidenNotExact(rs: seq<Rows>, first: int, last: int)
    requires Apart(rs) && first <= last && Overflows(rs, first, last)
    ensures !AddsExactly(rs, first, last, Widened(rs, first, last))
  {
    var n := |rs| - 1;
    var w := Widened(rs, first, last);
    var extra := if last < rs[n].first then last + 1 else first - 1;
    assert w[n].Has(extra);
    assert Covered(w, extra);
    assert !Covered(rs, extra);
  }

  /** Row y is covered by a range but the last, or lies between the ends of the last and the new rows. */
  ghost predicate CoveredOrHull(rs: seq<Rows>, first: int, last: int, y: int)
    requires |rs| > 0
  {
    var n := |rs| - 1;
    Covered(rs[..n], y) || ((first <= y || rs[n].first <= y) && (y <= last || y <= rs[n].last))
  }

  /** What one call of `dirty_add` does to the list. */
  ghost predicate AddSpec(rs: seq<Rows>, first: int, last: int, merged: seq<Rows>) {
    && |merged| <= |rs| + 1
    && KeepsRows(rs, first, last, merged)
    && (Apart(rs) ==>
          if Overflows(rs, first, last) then
            && !AddsExactly(rs, first, last, merged)
            && forall y :: Covered(merged, y) <==> CoveredOrHull(rs, first, last, y)
          else
            && Apart(merged)
            && AddsExactly(rs, first, last, merged)
            && TotalRows(merged) <= TotalRows(rs) + last - first + 1)
  }

  lemma SpliceMeetsSpec(rs: seq<Rows>, first: int, last: int, i: nat, j: nat, f: int, l: int)
    requires Absorbed(rs, first, last, i, j, f, l) && first <= last
    requires j < |rs| ==> l + 1 < rs[j].first
    requires j > i || |rs| < OSD_MAX_DIRTY_RANGES
    ensures AddSpec(rs, first, last, rs[..i] + [Rows(f, l)] + rs[j..])
  {
    SpliceKeeps(rs, first, last, i, j, f, l);
    if Apart(rs) {
      assert !Overflows(rs, first, last);
      SpliceExact(rs, first, last, i, j, f, l);
      SpliceApart(rs, first, last, i, j, f, l);
      SpliceTotal(rs, first, last, i, j, f, l);
    }
  }

  lemma WidenMeetsSpec(rs: seq<Rows>, first: int, last: int, i: nat)
    requires Absorbed(rs, first, last, i, i, first, last) && first <= last
    requires |rs| == OSD_MAX_DIRTY_RANGES
    requires i < |rs| ==> last + 1 < rs[i].first
    ensures AddSpec(rs, first, last, Widened(rs, first, last))
  {
    WidenKeeps(rs, first, last);
    if Apart(rs) {
      assert Overflows(rs, first, last);
      WidenNotExact(rs, first, last);
      forall y
        ensures Covered(Widened(rs, first, last), y) <==> CoveredOrHull(rs, first, last, y)
      {
        WidenCovers(rs, first, last, y);
      }
    }
  }

  /** ... and keeps the list in order exactly when the new rows lie beyond all ranges but the last. */
  lemma WidenKeepsOrderIff(rs: seq<Rows>, first: int, last: int)
    requires Apart(rs) && first <= last && Overflows(rs, first, last)
    ensures Apart(Widened(rs, first, last)) <==> first > rs[|rs| - 2].last + 1
  {
    var n, w := |rs| - 1, Widened(rs, first, last);
    assert forall k :: 0 <= k < n ==> w[k] == rs[k];
    if first > rs[n - 1].last + 1 {
      assert forall k :: 0 <= k < n ==> w[k].last + 1 < w[n].first;
    } else {
      assert w[n - 1].last + 1 >= w[n].first;
    }
  }

  class OsdDirty {
    var count: nat
    const range: array<Rows>

    ghost predicate Valid()
      reads this
    {
      range.Length == OSD_MAX_DIRTY_RANGES && count <= OSD_MAX_DIRTY_RANGES
    }

    ghost function List(): seq<Rows>
      reads this, range
      requires Valid()
    {
      range[..count]
    }

    constructor ()
      ensures Valid() && List() == [] && fresh(range)
    {
      count := 0;
      range := new Rows[OSD_MAX_DIRTY_RANGES](_ => Rows(0, 0));
    }

    method Reset()
      requires Valid()
      modifies this
      ensures Valid() && List() == []
    {
      count := 0;
    }

    /** First loop: skip the ranges that end before `first` without touching it. */
    method SkipBelow(first: int, last: int) returns (i: nat)
      requires Valid()
      ensures Absorbed(List(), first, last, i, i, first, last)
    {
      i := 0;
      while i < count && range[i].last + 1 < first
        invariant i <= count
        invariant forall k :: 0 <= k < i ==> range[k].last + 1 < first
      {
        i := i + 1;
      }
      ghost var rs := List();
      assert rs[i..i] == [];
    }

    /** Second loop: widen over every range the new one overlaps or abuts. */
    method Absorb(i: nat, first: int, last: int) returns (j: nat, f: int, l: int)
      requires Valid() && Absorbed(List(), first, last, i, i, first, last)
      ensures Absorbed(List(), first, last, i, j, f, l)
      ensures j < count ==> l + 1 < range[j].first
    {
      hide Absorbed;
      AbsorbedBounds(List(), first, last, i, i, first, last);
      j, f, l := i, first, last;
      while j < count && range[j].first <= l + 1
        invariant i <= j <= count && Absorbed(List(), first, last, i, j, f, l)
      {
        ghost var f0, l0 := f, l;
        if range[j].first < f { f := range[j].first; }
        if range[j].last > l { l := range[j].last; }
        AbsorbNext(List(), first, last, i, j, f0, l0, f, l);
        j := j + 1;
      }
    }

    /** Move the ranges from `src` on down to `dst`. */
    method CloseGap(dst: nat, src: nat)
      requires Valid() && dst <= src <= count
      modifies range
      ensures range[..dst] == old(range[..dst])
      ensures range[dst..dst + (count - src)] == old(range[src..count])
    {
      ghost var was := range[..];
      var k, s := dst, src;
      while s < count
        invariant src <= s <= count && k - dst == s - src
        invariant range[..dst] == was[..dst] && range[dst..k] == was[src..s]
        invariant forall x :: s <= x < count ==> range[x] == was[x]
      {
        range[k] := range[s];
        assert was[src..s + 1] == was[src..s] + [was[s]];
        k, s := k + 1, s + 1;
      }
    }

    /** Move the ranges from `i` on up by one. */
    method OpenGap(i: nat)
      requires Valid() && i <= count < OSD_MAX_DIRTY_RANGES
      modifies range
      ensures range[..i] == old(range[..i])
      ensures range[i + 1..count + 1] == old(range[i..count])
    {
      var k := count;
      while k > i
        invariant i <= k <= count
        invariant range[..k] == old(range[..k])
        invariant range[k + 1..count + 1] == old(range[k..count])
      {
        range[k] := range[k - 1];
        k := k - 1;
      }
    }

    /** Put the merged range in place of the absorbed run, or insert it if the run is empty. */
    method Splice(i: nat, j: nat, r: Rows)
      requires Valid() && i <= j <= count && (j > i || count < OSD_MAX_DIRTY_RANGES)
      modifies this, range
      ensures Valid() && List() == old(List()[..i]) + [r] + old(List()[j..])
    {
      ghost var rs := List();
      if j > i {
        CloseGap(i + 1, j);
        count := count - (j - i - 1);
        assert range[..i] == rs[..i] && range[i + 1..count] == rs[j..];
      } else {
        OpenGap(i);
        count := count + 1;
        assert range[..i] == rs[..i] && range[i + 1..count] == rs[j..];
      }
      label Moved:
      Replaced(range[..], i, count, r);
      range[i] := r;
      assert range[..] == old@Moved(range[..])[i := r];
    }

    /** The full-table fallback. */
    method Widen(first: int, last: int)
      requires Valid() && count > 0
      modifies range
      ensures List() == Widened(old(List()), first, last)
    {
      if first < range[count - 1].first {
        range[count - 1] := Rows(first, range[count - 1].last);
      }
      if last > range[count - 1].last {
        range[count - 1] := Rows(range[count - 1].first, last);
      }
    }

    /** `dirty_add`. */
    method Add(first: int, last: int)
      requires Valid() && first <= last
      modifies this, range
      ensures Valid() && |List()| <= 10
      ensures AddSpec(old(List()), first, last, List())
    {
      hide Absorbed, AddSpec;
      ghost var rs := List();
      var i := SkipBelow(first, last);
      var j, f, l := Absorb(i, first, last);
      AbsorbedBounds(rs, first, last, i, j, f, l);
      if j == i && count >= OSD_MAX_DIRTY_RANGES {
        Widen(first, last);
        WidenMeetsSpec(rs, first, last, i);
      } else {
        Splice(i, j, Rows(f, l));
        SpliceMeetsSpec(rs, first, last, i, j, f, l);
      }
    }
  }

  lemma Replaced(s: seq<Rows>, i: nat, n: nat, r: Rows)
    requires i < n <= |s|
    ensures s[i := r][..n] == s[..i] + [r] + s[i + 1..n]
  {
  }

  lemma AbsorbedBounds(rs: seq<Rows>, first: int, last: int, i: nat, j: nat, f: int, l: int)
    requires Absorbed(rs, first, last, i, j, f, l)
    ensures i <= j <= |rs| && (j == i ==> f == first && l == last)
  {
  }
}
