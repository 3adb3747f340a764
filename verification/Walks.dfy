/** Walks in a graph given by an edge relation, and the bound every breadth-first search relies on. */
module Walks {
  ghost predicate IsWalk<V(!new)>(edge: (V, V) -> bool, w: seq<V>) {
    |w| > 0 && forall i :: 0 <= i < |w| - 1 ==> edge(w[i], w[i + 1])
  }

  /**
   * `dist` labels the vertices met so far and `done` holds those already expanded. If no unexpanded
   * vertex has a label below `frontier`, a walk from the origin either ends on a vertex already met,
   * labelled with at most the walk's length, or is longer than `frontier`.
   */
  lemma {:induction false} FrontierBound<V(!new)>(edge: (V, V) -> bool, w: seq<V>, dist: map<V, nat>, done: set<V>, frontier: nat)
    requires IsWalk(edge, w)
    requires w[0] in dist && dist[w[0]] == 0
    requires forall u, v :: u in done && u in dist && edge(u, v) ==> v in dist && dist[v] <= dist[u] + 1
    requires forall u :: u in dist && u !in done ==> frontier <= dist[u]
    ensures (w[|w| - 1] in dist && dist[w[|w| - 1]] <= |w| - 1) || frontier < |w| - 1
    decreases |w|
  {
    if |w| > 1 {
      var shorter := w[..|w| - 1];
      FrontierBound(edge, shorter, dist, done, frontier);
      assert edge(w[|w| - 2], w[|w| - 1]);
      assert shorter[|shorter| - 1] == w[|w| - 2];
    }
  }

  /** A queue without repetitions inside a finite set is no longer than it. */
  lemma QueueFits<V>(queue: seq<V>, seen: set<V>, universe: set<V>)
    requires forall i, j :: 0 <= i < j < |queue| ==> queue[i] != queue[j]
    requires seen == (set p | p in queue) && seen <= universe
    ensures |queue| <= |universe|
  {
    DistinctSize(queue);
    SubsetSize(seen, universe);
  }

  lemma {:induction false} DistinctSize<V>(s: seq<V>)
    requires forall i, j :: 0 <= i < j < |s| ==> s[i] != s[j]
    ensures |(set p | p in s)| == |s|
    decreases |s|
  {
    if s != [] {
      DistinctSize(s[1..]);
      assert (set p | p in s) == {s[0]} + (set p | p in s[1..]);
    }
  }

  lemma {:induction false} SubsetSize<V>(a: set<V>, b: set<V>)
    requires a <= b
    ensures |a| <= |b|
    decreases a
  {
    if a != {} {
      var x :| x in a;
      SubsetSize(a - {x}, b - {x});
    }
  }
}
