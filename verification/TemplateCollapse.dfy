/**
 * Collapsing a template instance or specialization onto its primary template: the next-hop
 * map built in one ordered scan, the guarded walk along it, and its cache
 * (project/indexer/entity_rollup.py:132-191).
 */
module TemplateCollapse {
  import opened Layer0
  import opened Options

  type Hops = map<int, int>

  // ---- The next-hop map --------------------------------------------------------------------

  predicate IsHop(e: Edge) {
    e.kind == 4 || e.kind == 5
  }

  /** `ORDER BY src_id, kind, dst_id`. */
  predicate InOrder(a: Edge, b: Edge) {
    a.src < b.src || (a.src == b.src && (a.kind < b.kind || (a.kind == b.kind && a.dst <= b.dst)))
  }

  /** `a` wins over `b` as the hop out of their common source. */
  predicate Preferred(a: Edge, b: Edge) {
    a.kind < b.kind || (a.kind == b.kind && a.dst <= b.dst)
  }

  function Sources(edges: seq<Edge>): set<int> {
    set e | e in edges && IsHop(e) :: e.src
  }

  /** The hop out of `src` with the least kind, then the least destination. */
  function BestHop(edges: seq<Edge>, src: int): (best: Option<Edge>)
    ensures best.Some? <==> src in Sources(edges)
    ensures best.Some? ==> best.value in edges && IsHop(best.value) && best.value.src == src
    ensures forall e :: e in edges && IsHop(e) && e.src == src ==> Preferred(best.value, e)
  {
    if edges == [] then None
    else
      var rest := BestHop(edges[1..], src);
      var e := edges[0];
      if IsHop(e) && e.src == src && (rest.None? || Preferred(e, rest.value)) then Some(e) else rest
  }

  function NextHops(edges: seq<Edge>): Hops {
    map src | src in Sources(edges) :: BestHop(edges, src).value.dst
  }

  /** The hop out of s leads along its row of kind 4, or 5 without one, to the least destination of that kind. */
  lemma {:induction false} NextHopIff(edges: seq<Edge>, s: int, d: int)
    ensures (s in NextHops(edges) && NextHops(edges)[s] == d)
       <==> exists e :: e in edges && e.src == s && e.dst == d && e.kind in {4, 5}
                        && forall f :: f in edges && f.src == s && f.kind in {4, 5} ==> e.kind < f.kind || (e.kind == f.kind && d <= f.dst)
  {
    var best := BestHop(edges, s);
    if best.Some? {
      forall f | f in edges && f.src == s && f.kind in {4, 5} ensures Preferred(best.value, f) {
        assert IsHop(f);
      }
    }
  }

  predicate Sorted(rows: seq<Edge>) {
    forall i, j :: 0 <= i < j < |rows| ==> InOrder(rows[i], rows[j])
  }

  /** The constructor's scan: rows come ordered, and the first row of each source is kept. */
  method BuildNextHops(rows: seq<Edge>, ghost edges: seq<Edge>) returns (next: Hops)
    requires Sorted(rows) && forall e :: e in rows <==> e in edges && IsHop(e)
    ensures next == NextHops(edges)
  {
    next := map[];
    for i := 0 to |rows|
      invariant forall s :: s in next <==> exists k :: 0 <= k < i && rows[k].src == s
      invariant forall s :: s in next ==> next[s] == BestHop(edges, s).value.dst
    {
      if rows[i].src !in next {
        FirstIsBest(rows, i, edges);
        next := next[rows[i].src := rows[i].dst];
      }
    }
    forall s
      ensures s in next <==> s in Sources(edges)
    {
      if s in Sources(edges) {
        var e :| e in edges && IsHop(e) && e.src == s;
        assert e in rows;
      }
    }
  }

  lemma {:induction false} FirstIsBest(rows: seq<Edge>, i: nat, edges: seq<Edge>)
    requires i < |rows| && Sorted(rows) && forall e :: e in rows <==> e in edges && IsHop(e)
    requires forall k :: 0 <= k < i ==> rows[k].src != rows[i].src
    ensures BestHop(edges, rows[i].src).Some? && BestHop(edges, rows[i].src).value.dst == rows[i].dst
  {
    var first := rows[i];
    assert first in rows;
    var best := BestHop(edges, first.src).value;
    assert best in rows;
    var k :| 0 <= k < |rows| && rows[k] == best;
    assert k >= i;
    assert k == i || InOrder(rows[i], rows[k]);
  }

  /** The scan sees the edge table in any order: only which edges there are matters. */
  lemma {:induction false} NextHopsIgnoreOrder(edges: seq<Edge>, others: seq<Edge>)
    requires multiset(edges) == multiset(others)
    ensures NextHops(edges) == NextHops(others)
  {
    assert forall e :: e in edges <==> e in multiset(edges);
    assert forall e :: e in others <==> e in multiset(others);
    forall s | s in Sources(edges)
      ensures s in Sources(others) && BestHop(edges, s).value.dst == BestHop(others, s).value.dst
    {
      var a := BestHop(edges, s).value;
      assert a in others;
      var b := BestHop(others, s).value;
      assert Preferred(a, b) && Preferred(b, a);
    }
    forall s | s in Sources(others)
      ensures s in Sources(edges)
    {
      var e :| e in others && IsHop(e) && e.src == s;
      assert e in edges;
    }
  }

  // ---- The walk -------------------------------------------------------------------------------

  /** Follow the map from `cur` until it ends or meets a node of `seen`. */
  function Chase(next: Hops, cur: int, seen: set<int>): int
    decreases next.Keys - seen
  {
    if cur in seen || cur !in next then cur else Chase(next, next[cur], seen + {cur})
  }

  function Collapse(next: Hops, x: int): int {
    Chase(next, x, {})
  }

  /** The walk with its cache. */
  class RollupState {
    const nextHop: Hops
    var cache: map<int, int>

    constructor (nextHop: Hops)
      ensures Valid() && this.nextHop == nextHop
    {
      this.nextHop := nextHop;
      cache := map[];
    }

    ghost predicate Valid()
      reads this
    {
      forall x :: x in cache ==> cache[x] == Collapse(nextHop, x)
    }

    method CollapseId(x: int) returns (r: int)
      requires Valid()
      modifies this`cache
      ensures Valid() && r == Collapse(nextHop, x)
    {
      if x in cache {
        return cache[x];
      }
      var seen: set<int> := {};
      var cur := x;
      while cur !in seen
        invariant Chase(nextHop, cur, seen) == Collapse(nextHop, x)
        decreases nextHop.Keys - seen
      {
        if cur !in nextHop {
          break;
        }
        seen := seen + {cur};
        cur := nextHop[cur];
      }
      cache := cache[x := cur];
      r := cur;
    }
  }

  // ---- What the walk finds ----------------------------------------------------------------

  /** Distinct nodes, each the next of the one before. */
  ghost predicate IsChain(next: Hops, p: seq<int>) {
    && (forall i, j :: 0 <= i < j < |p| ==> p[i] != p[j])
    && (forall i :: 0 <= i < |p| ==> p[i] in next)
    && (forall i :: 0 < i < |p| ==> p[i] == next[p[i - 1]])
  }

  function Elements(p: seq<int>): set<int> {
    set x | x in p
  }

  /** From `path[k]` with `path[..k]` already seen, a chain that closes on its first node ends there. */
  lemma {:induction false} ChaseClosedChain(next: Hops, p: seq<int>, k: nat)
    requires p != [] && IsChain(next, p) && next[p[|p| - 1]] == p[0] && k < |p|
    ensures Chase(next, p[k], Elements(p[..k])) == p[0]
    decreases |p| - k
  {
    assert p[..k + 1] == p[..k] + [p[k]];
    assert Elements(p[..k + 1]) == Elements(p[..k]) + {p[k]};
    if k + 1 < |p| {
      assert p[k + 1] == next[p[k]];
      ChaseClosedChain(next, p, k + 1);
    } else {
      assert p[0] in p[..k + 1];
    }
  }

  lemma {:induction false} ChainSuffix(next: Hops, p: seq<int>, i: nat)
    requires IsChain(next, p) && i < |p|
    ensures IsChain(next, p[i..])
  {
    var rest := p[i..];
    assert forall k :: 0 <= k < |rest| ==> rest[k] == p[i + k];
  }

  /** A walk that has come along the chain `p` to `cur` stops where a fresh walk from there stops. */
  lemma {:induction false} ChaseEndsAtFixpoint(next: Hops, p: seq<int>, cur: int)
    requires IsChain(next, p) && (p != [] ==> cur == next[p[|p| - 1]])
    ensures var r := Chase(next, cur, Elements(p)); Collapse(next, r) == r
    decreases next.Keys - Elements(p)
  {
    if cur in p {
      var i :| 0 <= i < |p| && p[i] == cur;
      ChainSuffix(next, p, i);
      ChaseClosedChain(next, p[i..], 0);
      assert p[i..][..0] == [] && Elements([]) == {};
    } else if cur in next {
      assert Elements(p + [cur]) == Elements(p) + {cur};
      ChaseEndsAtFixpoint(next, p + [cur], next[cur]);
    }
  }

  /** Collapsing twice is collapsing once, on every map, cyclic ones included. */
  lemma {:induction false} CollapseIsIdempotent(next: Hops, x: int)
    ensures Collapse(next, Collapse(next, x)) == Collapse(next, x)
  {
    ChaseEndsAtFixpoint(next, [], x);
    assert Elements([]) == {};
  }

  predicate StepsAt(next: Hops, path: seq<int>, i: nat)
    requires 0 < i < |path|
  {
    path[i - 1] in next && path[i] == next[path[i - 1]]
  }

  /** A walk along the map, from `path[0]` to a node with no next hop. */
  ghost predicate LeavesMap(next: Hops, path: seq<int>) {
    && (forall i :: 0 < i < |path| ==> StepsAt(next, path, i))
    && path != [] && path[|path| - 1] !in next
  }

  /** A walk that leaves the map never repeats a node: it would go round for ever. */
  lemma {:induction false} LeavingWalkRepeatsNothing(next: Hops, path: seq<int>, a: nat, b: nat)
    requires LeavesMap(next, path) && a < b < |path|
    ensures path[a] != path[b]
    decreases |path| - b
  {
    assert StepsAt(next, path, a + 1);
    if b + 1 < |path| {
      assert StepsAt(next, path, b + 1);
      LeavingWalkRepeatsNothing(next, path, a + 1, b + 1);
    }
  }

  lemma {:induction false} ChaseLeaves(next: Hops, path: seq<int>, i: nat, k: nat)
    requires LeavesMap(next, path) && i <= k < |path|
    ensures Chase(next, path[k], Elements(path[i..k])) == path[|path| - 1]
    decreases |path| - k
  {
    forall j | i <= j < k
      ensures path[j] != path[k]
    {
      LeavingWalkRepeatsNothing(next, path, j, k);
    }
    if k + 1 < |path| {
      assert StepsAt(next, path, k + 1);
      assert path[i..k + 1] == path[i..k] + [path[k]];
      assert Elements(path[i..k + 1]) == Elements(path[i..k]) + {path[k]};
      ChaseLeaves(next, path, i, k + 1);
    }
  }

  /** On a chain that ends, every node collapses to the one node it ends on. */
  lemma {:induction false} ChainCollapsesToItsEnd(next: Hops, path: seq<int>, i: nat)
    requires LeavesMap(next, path) && i < |path|
    ensures Collapse(next, path[i]) == path[|path| - 1]
  {
    ChaseLeaves(next, path, i, i);
    assert Elements(path[i..i]) == {};
  }
}
