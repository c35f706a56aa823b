/**
 Sparse neighbor planning: every member's neighbors are the next few members on the canonical ring,
 and what the union of all plans looks like as a directed graph.
 */
module Neighbors {
  import opened Arithmetic
  import opened Collections

  type Node = nat

  const MAX_DEGREE: nat := 64

  /** The membership in canonical order, as an ordered set iterates. */
  predicate Ascending(ring: seq<Node>)
  {
    forall i, j :: 0 <= i < j < |ring| ==> ring[i] < ring[j]
  }

  /** How many neighbors a member of `ring` plans. */
  function Target(ring: seq<Node>, degree: nat): (t: nat)
    ensures ring != [] ==> t < |ring|
    ensures |ring| >= 2 ==> t >= 1
  {
    var available := if ring == [] then 0 else |ring| - 1;
    var wanted := Clamp(degree, 1, MAX_DEGREE);
    if wanted <= available then wanted else available
  }

  /** The target is the most that the request (one at least), the bound and the other members allow. */
  lemma TargetIsMost(ring: seq<Node>, degree: nat, m: nat)
    requires ring != []
    ensures m <= Target(ring, degree) <==> m <= |ring| - 1 && m <= MAX_DEGREE && (m <= degree || m <= 1)
  {
  }

  /** The position `k` places on from `p`, wrapping once at most. */
  function Shift(p: nat, k: nat, n: nat): (q: nat)
    requires p < n && k <= n
    ensures q < n
  {
    if p + k < n then p + k else p + k - n
  }

  /** How many places on from `i` the position `j` is. */
  function Distance(i: nat, j: nat, n: nat): (d: nat)
    requires i < n && j < n
    ensures d < n && Shift(i, d, n) == j
    ensures d == 0 <==> i == j
  {
    if i <= j then j - i else n - i + j
  }

  /** The `count` members that follow position `p` on the ring. */
  function NextMembers(ring: seq<Node>, p: nat, count: nat): (s: seq<Node>)
    requires p < |ring| && count < |ring|
    ensures |s| == count
  {
    seq(count, k requires 0 <= k < count => ring[Shift(p, k + 1, |ring|)])
  }

  /** The walk on the cycle. It meets neither the local node nor a member twice before it is done,
      which is why it ends. */
  method PlanNeighbors(local: Node, ring: seq<Node>, degree: nat) returns (neighbors: seq<Node>)
    requires Ascending(ring)
    ensures local !in ring ==> neighbors == []
    ensures forall p :: 0 <= p < |ring| && ring[p] == local ==>
              neighbors == NextMembers(ring, p, Target(ring, degree))
  {
    neighbors := [];
    if local !in ring {
      return;
    }
    var target := Target(ring, degree);
    var position := 0;
    while ring[position] != local
      invariant 0 <= position < |ring|
      invariant local in ring[position..]
      decreases |ring| - position
    {
      position := position + 1;
    }
    PositionUnique(ring, position);
    hide Ascending, NextMembers, Target;
    NothingNext(ring, position);
    if target == 0 {
      return;
    }
    var n := |ring|;
    var at := 0;
    for k := 0 to position + 1
      invariant 0 <= at < n && at == if k == n then 0 else k
    {
      at := if at + 1 == n then 0 else at + 1;
    }
    while true
      invariant |neighbors| < target && 0 <= at < n
      invariant at == Shift(position, |neighbors| + 1, n)
      invariant neighbors == NextMembers(ring, position, |neighbors|)
      decreases target - |neighbors|
    {
      var next := ring[at];
      at := if at + 1 == n then 0 else at + 1;
      NextIsNew(ring, position, |neighbors|);
      if next != local && next !in neighbors {
        neighbors := neighbors + [next];
        if |neighbors| >= target {
          break;
        }
      }
    }
  }

  lemma PositionUnique(ring: seq<Node>, p: nat)
    requires Ascending(ring) && p < |ring|
    ensures forall q :: 0 <= q < |ring| && ring[q] == ring[p] ==> q == p
  {
  }

  lemma NothingNext(ring: seq<Node>, p: nat)
    requires p < |ring|
    ensures NextMembers(ring, p, 0) == []
  {
  }

  /** The next member on the ring is neither the local one nor one collected before, and extends them. */
  lemma NextIsNew(ring: seq<Node>, p: nat, count: nat)
    requires Ascending(ring) && p < |ring| && count + 1 < |ring|
    ensures var next := ring[Shift(p, count + 1, |ring|)];
            && next != ring[p] && next !in NextMembers(ring, p, count)
            && NextMembers(ring, p, count + 1) == NextMembers(ring, p, count) + [next]
  {
  }

  /** The plan as a function of the inputs. */
  function Plan(ring: seq<Node>, degree: nat, p: nat): seq<Node>
    requires p < |ring|
  {
    NextMembers(ring, p, Target(ring, degree))
  }

  // ---- The graph of all plans ----

  predicate Edge(ring: seq<Node>, degree: nat, i: nat, j: nat)
    requires i < |ring| && j < |ring|
  {
    ring[j] in Plan(ring, degree, i)
  }

  /** A planned neighbor is a member at a distance from 1 to the target, and every such member is one. */
  lemma EdgeIsDistance(ring: seq<Node>, degree: nat, i: nat, j: nat)
    requires Ascending(ring) && i < |ring| && j < |ring|
    ensures Edge(ring, degree, i, j) <==> 1 <= Distance(i, j, |ring|) <= Target(ring, degree)
  {
    var d, t, plan := Distance(i, j, |ring|), Target(ring, degree), Plan(ring, degree, i);
    if 1 <= d <= t {
      assert plan[d - 1] == ring[j];
    }
    if Edge(ring, degree, i, j) {
      var k :| 0 <= k < |plan| && plan[k] == ring[j];
      assert Shift(i, k + 1, |ring|) == j;
    }
  }

  /** A plan names `Target` different members and never the local one. */
  lemma OutDegree(ring: seq<Node>, degree: nat, p: nat)
    requires Ascending(ring) && p < |ring|
    ensures var plan := Plan(ring, degree, p);
            && Distinct(plan) && ring[p] !in plan
            && (forall x :: x in plan ==> x in ring)
            && |Members(plan)| == Target(ring, degree)
  {
    DistinctCount(Plan(ring, degree, p));
  }

  /** The members that plan position `j` as a neighbor. */
  function Planners(ring: seq<Node>, degree: nat, j: nat): set<Node>
    requires j < |ring|
  {
    set i | 0 <= i < |ring| && Edge(ring, degree, i, j) :: ring[i]
  }

  function Previous(ring: seq<Node>, j: nat, count: nat): (s: seq<Node>)
    requires j < |ring| && count < |ring|
    ensures |s| == count
  {
    seq(count, k requires 0 <= k < count => ring[Shift(j, |ring| - k - 1, |ring|)])
  }

  lemma PreviousDistinct(ring: seq<Node>, j: nat, count: nat)
    requires Ascending(ring) && j < |ring| && count < |ring|
    ensures Distinct(Previous(ring, j, count))
  {
    var n, s := |ring|, Previous(ring, j, count);
    forall a, b | 0 <= a < b < count ensures s[a] != s[b] {
      var p, q := Shift(j, n - a - 1, n), Shift(j, n - b - 1, n);
      assert p < q || q < p;
    }
  }

  lemma PreviousPlan(ring: seq<Node>, degree: nat, j: nat, k: nat)
    requires Ascending(ring) && j < |ring| && k < Target(ring, degree)
    ensures Previous(ring, j, Target(ring, degree))[k] in Planners(ring, degree, j)
  {
    var i := Shift(j, |ring| - k - 1, |ring|);
    assert Distance(i, j, |ring|) == k + 1;
    EdgeIsDistance(ring, degree, i, j);
  }

  lemma PlannersPrecede(ring: seq<Node>, degree: nat, i: nat, j: nat)
    requires Ascending(ring) && i < |ring| && j < |ring| && Edge(ring, degree, i, j)
    ensures ring[i] in Previous(ring, j, Target(ring, degree))
  {
    EdgeIsDistance(ring, degree, i, j);
    var d := Distance(i, j, |ring|);
    assert Shift(j, |ring| - d, |ring|) == i;
    assert Previous(ring, j, Target(ring, degree))[d - 1] == ring[i];
  }

  /** Every member is planned by as many others as it plans itself. */
  lemma InDegree(ring: seq<Node>, degree: nat, j: nat)
    requires Ascending(ring) && j < |ring|
    ensures |Planners(ring, degree, j)| == Target(ring, degree) == |Members(Plan(ring, degree, j))|
    ensures ring[j] !in Planners(ring, degree, j)
  {
    OutDegree(ring, degree, j);
    PreviousDistinct(ring, j, Target(ring, degree));
    var before := Previous(ring, j, Target(ring, degree));
    DistinctCount(before);
    EdgeIsDistance(ring, degree, j, j);
    assert forall i :: 0 <= i < |ring| && ring[i] == ring[j] ==> i == j;
    hide Ascending, Distinct, Previous, Target, Plan, Edge;
    forall x ensures x in Members(before) <==> x in Planners(ring, degree, j) {
      if x in before {
        var k :| 0 <= k < |before| && before[k] == x;
        PreviousPlan(ring, degree, j, k);
      }
      if x in Planners(ring, degree, j) {
        var i :| 0 <= i < |ring| && Edge(ring, degree, i, j) && ring[i] == x;
        PlannersPrecede(ring, degree, i, j);
      }
    }
    assert Members(before) == Planners(ring, degree, j);
  }

  predicate Hop(ring: seq<Node>, degree: nat, path: seq<nat>, k: nat)
    requires k + 1 < |path| && path[k] < |ring| && path[k + 1] < |ring|
  {
    Edge(ring, degree, path[k], path[k + 1])
  }

  /** A walk along planned edges, by position. */
  predicate Walk(ring: seq<Node>, degree: nat, path: seq<nat>)
  {
    && path != []
    && (forall k :: 0 <= k < |path| ==> path[k] < |ring|)
    && (forall k :: 0 <= k < |path| - 1 ==> Hop(ring, degree, path, k))
  }

  lemma Triangle(i: nat, m: nat, j: nat, n: nat)
    requires i < n && m < n && j < n
    ensures Distance(i, j, n) <= Distance(i, m, n) + Distance(m, j, n)
  {
  }

  /** No walk is faster than one target per hop. */
  lemma {:induction false} WalkCovers(ring: seq<Node>, degree: nat, path: seq<nat>)
    requires Ascending(ring) && Walk(ring, degree, path)
    ensures Distance(path[0], path[|path| - 1], |ring|) <= Times(|path| - 1, Target(ring, degree))
  {
    hide Times;
    if |path| > 1 {
      WalkInit(ring, degree, path);
      WalkCovers(ring, degree, path[..|path| - 1]);
      LastHop(ring, degree, path[0], path[|path| - 2], path[|path| - 1]);
      TimesStep(|path| - 2, Target(ring, degree));
    }
  }

  lemma LastHop(ring: seq<Node>, degree: nat, i: nat, m: nat, j: nat)
    requires Ascending(ring) && i < |ring| && m < |ring| && j < |ring| && Edge(ring, degree, m, j)
    ensures Distance(i, j, |ring|) <= Distance(i, m, |ring|) + Target(ring, degree)
  {
    EdgeIsDistance(ring, degree, m, j);
    Triangle(i, m, j, |ring|);
  }

  lemma WalkInit(ring: seq<Node>, degree: nat, path: seq<nat>)
    requires Walk(ring, degree, path) && |path| > 1
    ensures Walk(ring, degree, path[..|path| - 1])
    ensures Edge(ring, degree, path[|path| - 2], path[|path| - 1])
  {
    hide Edge;
    var init := path[..|path| - 1];
    forall k | 0 <= k < |init| - 1 ensures Hop(ring, degree, init, k) {
      assert Hop(ring, degree, path, k);
    }
    assert Hop(ring, degree, path, |path| - 2);
  }

  lemma WalkPrepend(ring: seq<Node>, degree: nat, i: nat, rest: seq<nat>)
    requires Walk(ring, degree, rest) && i < |ring| && Edge(ring, degree, i, rest[0])
    ensures Walk(ring, degree, [i] + rest)
  {
    hide Edge;
    var path := [i] + rest;
    forall k | 0 <= k < |path| - 1 ensures Hop(ring, degree, path, k) {
      if k > 0 {
        assert Hop(ring, degree, rest, k - 1);
      }
    }
  }

  /** The greedy walk from a position to the one `d` places on. */
  lemma {:induction false} GreedyWalk(ring: seq<Node>, degree: nat, i: nat, d: nat) returns (path: seq<nat>)
    requires Ascending(ring) && i < |ring| && d < |ring|
    ensures Walk(ring, degree, path) && path[0] == i && path[|path| - 1] == Shift(i, d, |ring|)
    ensures if d == 0 then |path| == 1 else |path| >= 2 && Times(|path| - 2, Target(ring, degree)) < d
    decreases d
  {
    if d == 0 {
      path := [i];
    } else {
      var n, t := |ring|, Target(ring, degree);
      var hop := if d <= t then d else t;
      var m := Shift(i, hop, n);
      var rest := GreedyWalk(ring, degree, m, d - hop);
      EdgeIsDistance(ring, degree, i, m);
      path := [i] + rest;
      WalkPrepend(ring, degree, i, rest);
      if d > t {
        TimesStep(|rest| - 2, t);
      }
    }
  }

  /** The union of all plans is strongly connected, and the fewest hops between two members are exactly
      their distance on the ring divided by the target, rounded up. */
  lemma StronglyConnected(ring: seq<Node>, degree: nat, i: nat, j: nat) returns (path: seq<nat>)
    requires Ascending(ring) && i < |ring| && j < |ring|
    ensures Walk(ring, degree, path) && path[0] == i && path[|path| - 1] == j
    ensures forall other :: Walk(ring, degree, other) && other[0] == i && other[|other| - 1] == j ==>
              |path| <= |other|
    ensures i != j ==> |path| - 1 == (Distance(i, j, |ring|) + Target(ring, degree) - 1) / Target(ring, degree)
  {
    var d, t := Distance(i, j, |ring|), Target(ring, degree);
    path := GreedyWalk(ring, degree, i, d);
    forall other | Walk(ring, degree, other) && other[0] == i && other[|other| - 1] == j
      ensures |path| <= |other|
    {
      WalkCovers(ring, degree, other);
      if |other| < |path| {
        TimesKeepsOrder(|other| - 1, |path| - 2, t);
      }
    }
    if i != j {
      WalkCovers(ring, degree, path);
      TimesStep(|path| - 2, t);
      DivisionUnique(d + t - 1, t, |path| - 1, d + t - 1 - (|path| - 1) * t);
    }
  }
}
