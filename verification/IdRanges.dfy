/** The inventory of ids as inclusive ranges, and the binary search that answers from it. */
module IdRanges {
  import Walks

  datatype Range = Range(first: int, last: int)

  predicate Within(id: int, r: Range) { r.first <= id <= r.last }

  predicate Covered(ranges: seq<Range>, id: int) { exists i :: 0 <= i < |ranges| && Within(id, ranges[i]) }

  /** What the schema of an inventory demands: no range inverted, each after the one before. */
  predicate Ordered(ranges: seq<Range>) {
    && (forall i :: 0 <= i < |ranges| ==> ranges[i].first <= ranges[i].last)
    && forall i :: 0 < i < |ranges| ==> ranges[i - 1].last < ranges[i].first
  }

  /** Ordered, and no two ranges touch. */
  predicate Apart(ranges: seq<Range>) {
    && (forall i :: 0 <= i < |ranges| ==> ranges[i].first <= ranges[i].last)
    && forall i :: 0 < i < |ranges| ==> ranges[i - 1].last + 1 < ranges[i].first
  }

  // ---------------------------------------------------------------- building

  predicate Increasing(s: seq<int>) { forall i, j :: 0 <= i < j < |s| ==> s[i] < s[j] }

  function Inserted(s: seq<int>, x: int): (t: seq<int>)
    ensures forall y :: y in t <==> y in s || y == x
  {
    if s == [] || x < s[0] then [x] + s else if x == s[0] then s else [s[0]] + Inserted(s[1..], x)
  }

  lemma {:induction false} InsertedIncreases(s: seq<int>, x: int)
    requires Increasing(s)
    ensures Increasing(Inserted(s, x))
  {
    if s != [] && x > s[0] {
      InsertedIncreases(s[1..], x);
      var rest := Inserted(s[1..], x);
      forall j | 0 <= j < |rest| ensures s[0] < rest[j] { assert rest[j] in rest; }
    }
  }

  /** The distinct ids, in increasing order. */
  function Sorted(ids: seq<int>): (s: seq<int>)
    ensures Increasing(s)
    ensures forall x :: x in s <==> x in ids
  {
    if ids == [] then []
    else
      var last := |ids| - 1;
      InsertedIncreases(Sorted(ids[..last]), ids[last]);
      assert ids == ids[..last] + [ids[last]];
      Inserted(Sorted(ids[..last]), ids[last])
  }

  method RangesOf(ids: seq<int>) returns (ranges: seq<Range>)
    ensures Apart(ranges)
    ensures forall id :: Covered(ranges, id) <==> id in ids
  {
    var sorted := Sorted(ids);
    ranges := [];
    for i := 0 to |sorted|
      invariant Apart(ranges)
      invariant forall id :: Covered(ranges, id) <==> id in sorted[..i]
      invariant i == 0 <==> ranges == []
      invariant i > 0 ==> ranges[|ranges| - 1].last == sorted[i - 1]
    {
      var id := sorted[i];
      ghost var before := ranges;
      if ranges != [] && ranges[|ranges| - 1].last == id - 1 {
        ranges := ranges[|ranges| - 1 := ranges[|ranges| - 1].(last := id)];
        LastGrown(before, id);
      } else {
        ranges := ranges + [Range(id, id)];
        RangeAdded(before, id);
      }
    }
  }

  lemma LastGrown(ranges: seq<Range>, id: int)
    requires ranges != [] && Apart(ranges) && ranges[|ranges| - 1].last == id - 1
    ensures var grown := ranges[|ranges| - 1 := ranges[|ranges| - 1].(last := id)];
      Apart(grown) && forall x :: Covered(grown, x) <==> Covered(ranges, x) || x == id
  {
    var n := |ranges| - 1;
    var grown := ranges[n := ranges[n].(last := id)];
    forall x ensures Covered(grown, x) <==> Covered(ranges, x) || x == id {
      if Covered(grown, x) {
        var i :| 0 <= i < |grown| && Within(x, grown[i]);
        if x != id { assert Within(x, ranges[i]); }
      }
      if Covered(ranges, x) {
        var i :| 0 <= i < |ranges| && Within(x, ranges[i]);
        assert Within(x, grown[i]);
      }
      assert Within(id, grown[n]);
    }
  }

  lemma RangeAdded(ranges: seq<Range>, id: int)
    ensures forall x :: Covered(ranges + [Range(id, id)], x) <==> Covered(ranges, x) || x == id
  {
    var more := ranges + [Range(id, id)];
    forall x ensures Covered(more, x) <==> Covered(ranges, x) || x == id {
      if Covered(ranges, x) {
        var i :| 0 <= i < |ranges| && Within(x, ranges[i]);
        assert Within(x, more[i]);
      }
      assert Within(id, more[|ranges|]);
    }
  }

  // ---------------------------------------------------------------- searching

  lemma {:induction false} OrderedFar(ranges: seq<Range>, i: nat, j: nat)
    requires Ordered(ranges) && i < j < |ranges|
    ensures ranges[i].last < ranges[j].first
    decreases j
  {
    if i < j - 1 { OrderedFar(ranges, i, j - 1); }
  }

  method PackHas(ranges: seq<Range>, id: int) returns (has: bool)
    requires Ordered(ranges)
    ensures has <==> Covered(ranges, id)
  {
    var low, high := 0, |ranges| - 1;
    while low <= high
      invariant 0 <= low <= high + 1 <= |ranges|
      invariant forall i :: 0 <= i < low || high < i < |ranges| ==> !Within(id, ranges[i])
    {
      var middle := (low + high) / 2;
      var range := ranges[middle];
      forall i, j | 0 <= i < j < |ranges| ensures ranges[i].last < ranges[j].first { OrderedFar(ranges, i, j); }
      if id < range.first {
        high := middle - 1;
      } else if id > range.last {
        low := middle + 1;
      } else {
        assert Within(id, ranges[middle]);
        return true;
      }
    }
    has := false;
  }

  // ---------------------------------------------------------------- results

  lemma ApartIsOrdered(ranges: seq<Range>)
    requires Apart(ranges)
    ensures Ordered(ranges)
  {}

  /** Asking the ranges made of some ids is asking whether the id is one of them. */
  method InventoryHas(ids: seq<int>, id: int) returns (has: bool)
    ensures has <==> id in ids
  {
    var ranges := RangesOf(ids);
    ApartIsOrdered(ranges);
    has := PackHas(ranges, id);
  }

  ghost function Firsts(ranges: seq<Range>): set<int> { set r | r in ranges :: r.first }

  lemma FirstsOfAppend(rest: seq<Range>, last: Range)
    ensures Firsts(rest + [last]) == Firsts(rest) + {last.first}
  {
    assert forall r :: r in rest + [last] <==> r in rest || r == last;
  }

  lemma LastFirstIsNew(ranges: seq<Range>)
    requires ranges != [] && Apart(ranges)
    ensures ranges[|ranges| - 1].first !in Firsts(ranges[..|ranges| - 1])
  {
    ApartIsOrdered(ranges);
    var rest, last := ranges[..|ranges| - 1], ranges[|ranges| - 1];
    forall r | r in rest ensures r.first < last.first {
      var i :| 0 <= i < |rest| && rest[i] == r;
      OrderedFar(ranges, i, |ranges| - 1);
    }
  }

  lemma OneMore(a: set<int>, x: int, b: set<int>)
    requires b == a + {x}
    ensures |b| == if x in a then |a| else |a| + 1
  {
    if x in a { assert b == a; }
  }

  lemma {:induction false} FirstsAtMost(ranges: seq<Range>)
    ensures |Firsts(ranges)| <= |ranges|
  {
    if ranges == [] {
      assert Firsts(ranges) == {};
    } else {
      var n := |ranges| - 1;
      assert ranges == ranges[..n] + [ranges[n]];
      FirstsOfAppend(ranges[..n], ranges[n]);
      hide Firsts;
      FirstsAtMost(ranges[..n]);
      OneMore(Firsts(ranges[..n]), ranges[n].first, Firsts(ranges));
    }
  }

  lemma {:induction false} FirstsExactly(ranges: seq<Range>)
    requires Apart(ranges)
    ensures |Firsts(ranges)| == |ranges|
  {
    if ranges == [] {
      assert Firsts(ranges) == {};
    } else {
      var n := |ranges| - 1;
      assert ranges == ranges[..n] + [ranges[n]];
      FirstsOfAppend(ranges[..n], ranges[n]);
      LastFirstIsNew(ranges);
      hide Firsts;
      FirstsExactly(ranges[..n]);
      OneMore(Firsts(ranges[..n]), ranges[n].first, Firsts(ranges));
    }
  }

  /** A range that stands apart starts at an id whose predecessor is not covered. */
  lemma FirstHasNoPredecessor(ranges: seq<Range>, i: nat)
    requires Apart(ranges) && i < |ranges|
    ensures Covered(ranges, ranges[i].first) && !Covered(ranges, ranges[i].first - 1)
  {
    ApartIsOrdered(ranges);
    var x := ranges[i].first;
    assert Within(x, ranges[i]);
    forall j | 0 <= j < |ranges| ensures !Within(x - 1, ranges[j]) {
      if j < i {
        assert ranges[i - 1].last + 1 < x;
        if j < i - 1 { OrderedFar(ranges, j, i - 1); }
      } else if j > i {
        OrderedFar(ranges, i, j);
      }
    }
  }

  /** No list of ranges covering the same ids is shorter, in any order, overlapping or not. */
  lemma ApartIsFewest(ranges: seq<Range>, others: seq<Range>)
    requires Apart(ranges)
    requires forall id :: Covered(ranges, id) <==> Covered(others, id)
    ensures |ranges| <= |others|
  {
    FirstsExactly(ranges);
    FirstsAtMost(others);
    forall x | x in Firsts(ranges) ensures x in Firsts(others) {
      var r :| r in ranges && r.first == x;
      var i :| 0 <= i < |ranges| && ranges[i] == r;
      FirstHasNoPredecessor(ranges, i);
      assert Covered(others, x);
      var j :| 0 <= j < |others| && Within(x, others[j]);
      assert !Covered(others, x - 1) && !Within(x - 1, others[j]);
      assert others[j] in others;
    }
    Walks.SubsetSize(Firsts(ranges), Firsts(others));
  }

  lemma EmptyIffNothingCovered(a: seq<Range>)
    requires Apart(a)
    ensures a == [] <==> forall id :: !Covered(a, id)
  {
    if a != [] { assert Within(a[0].first, a[0]) && Covered(a, a[0].first); }
  }

  /** There is one list of ranges apart for each set of ids. */
  lemma {:induction false} ApartIsUnique(a: seq<Range>, b: seq<Range>)
    requires Apart(a) && Apart(b)
    requires forall id :: Covered(a, id) <==> Covered(b, id)
    ensures a == b
  {
    EmptyIffNothingCovered(a);
    EmptyIffNothingCovered(b);
    if a != [] {
      FirstIsLeast(a, b);
      FirstIsLeast(b, a);
      LastFollows(a, b);
      LastFollows(b, a);
      forall id ensures Covered(a[1..], id) <==> Covered(b[1..], id) {
        TailCovers(a, id);
        TailCovers(b, id);
      }
      ApartIsUnique(a[1..], b[1..]);
    }
  }

  lemma FirstIsLeast(a: seq<Range>, b: seq<Range>)
    requires a != [] && b != [] && Apart(a) && Apart(b)
    requires forall id :: Covered(a, id) <==> Covered(b, id)
    ensures b[0].first <= a[0].first
  {
    ApartIsOrdered(b);
    assert Within(a[0].first, a[0]);
    assert Covered(b, a[0].first);
    var j :| 0 <= j < |b| && Within(a[0].first, b[j]);
    if j > 0 { OrderedFar(b, 0, j); }
  }

  lemma LastFollows(a: seq<Range>, b: seq<Range>)
    requires a != [] && b != [] && Apart(a) && Apart(b) && a[0].first == b[0].first
    requires forall id :: Covered(a, id) <==> Covered(b, id)
    ensures b[0].last <= a[0].last
  {
    if a[0].last < b[0].last {
      var x := a[0].last + 1;
      assert Within(x, b[0]) && Covered(b, x);
      var j :| 0 <= j < |a| && Within(x, a[j]);
      ApartIsOrdered(a);
      if j > 1 { OrderedFar(a, 1, j); }
    }
  }

  lemma TailCovers(a: seq<Range>, id: int)
    requires a != [] && Apart(a)
    ensures Covered(a[1..], id) <==> Covered(a, id) && id > a[0].last
  {
    ApartIsOrdered(a);
    if Covered(a[1..], id) {
      var i :| 0 <= i < |a| - 1 && Within(id, a[1..][i]);
      assert Within(id, a[i + 1]);
      OrderedFar(a, 0, i + 1);
    }
    if Covered(a, id) && id > a[0].last {
      var i :| 0 <= i < |a| && Within(id, a[i]);
      assert Within(id, a[1..][i - 1]);
    }
  }
}
