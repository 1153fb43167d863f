/** Greedy descent through the upper levels, as in addPoint, repairConnectionsForUpdate and searchKnn of
    hnswlib_omp/hnswalg.h. */
module Descent {
  import opened Graph

  ghost predicate LocalMin(links: Links, level: nat, dist: nat -> real, x: nat) {
    forall y | y in NeighborsAt(links, x, level) :: dist(x) <= dist(y)
  }

  /** The nodes strictly closer than d: how often the descent may still move. */
  ghost function CloserThan(links: Links, dist: nat -> real, d: real): set<nat> {
    set x | 0 <= x < |links| && dist(x) < d
  }

  // ---------- Where the descent goes ----------

  /** One pass over a list: the first of the closest nodes in it, unless none is closer than `best`. */
  function Scanned(dist: nat -> real, best: nat, data: seq<nat>): (r: nat)
    ensures r == best || (r in data && dist(r) < dist(best))
    ensures forall y | y in data :: dist(r) <= dist(y)
    decreases |data|
  {
    if data == [] then best
    else Scanned(dist, if dist(data[0]) < dist(best) then data[0] else best, data[1..])
  }

  /** From node to node, until a pass over the list finds nothing closer. */
  ghost function Greedy(links: Links, level: nat, dist: nat -> real, from: nat): nat
    decreases CloserThan(links, dist, dist(from))
  {
    var next := Scanned(dist, from, NeighborsAt(links, from, level));
    if next == from || next >= |links| then from
    else
      assert next in CloserThan(links, dist, dist(from)) && next !in CloserThan(links, dist, dist(next));
      Greedy(links, level, dist, next)
  }

  /** Where the descent from level `top` to level `target` ends. */
  ghost function Landing(links: Links, dist: nat -> real, ep: nat, top: nat, target: nat): nat
    decreases top
  {
    if top <= target then ep else Landing(links, dist, Greedy(links, top, dist, ep), top - 1, target)
  }

  lemma {:induction false} ScannedExtends(dist: nat -> real, best: nat, data: seq<nat>, y: nat)
    ensures Scanned(dist, best, data + [y])
         == if dist(y) < dist(Scanned(dist, best, data)) then y else Scanned(dist, best, data)
    decreases |data|
  {
    if data == [] {
      assert data + [y] == [y];
    } else {
      assert (data + [y])[1..] == data[1..] + [y];
      ScannedExtends(dist, if dist(data[0]) < dist(best) then data[0] else best, data[1..], y);
    }
  }

  // ---------- A new element that nobody links to ----------

  /** It changes nothing about where the descent goes. */
  lemma {:induction false} GreedyAppend(links: Links, m: nat, extra: seq<LinkList>, level: nat, dist: nat -> real,
                                        dist': nat -> real, from: nat)
    requires GoodLinks(links, m) && Exists(links, from, level) && forall i: nat | i < |links| :: dist'(i) == dist(i)
    ensures Greedy(links + [extra], level, dist', from) == Greedy(links, level, dist, from)
    ensures Exists(links, Greedy(links, level, dist, from), level)
    decreases CloserThan(links, dist, dist(from))
  {
    var data := NeighborsAt(links, from, level);
    assert GoodList(links, m, from, level) && NeighborsAt(links + [extra], from, level) == data;
    ScannedSame(dist, dist', from, data, |links|);
    var next := Scanned(dist, from, data);
    if next != from {
      assert next in CloserThan(links, dist, dist(from)) && next !in CloserThan(links, dist, dist(next));
      GreedyAppend(links, m, extra, level, dist, dist', next);
    }
  }

  lemma {:induction false} ScannedSame(dist: nat -> real, dist': nat -> real, best: nat, data: seq<nat>, n: nat)
    requires best < n && (forall y | y in data :: y < n) && forall i: nat | i < n :: dist'(i) == dist(i)
    ensures Scanned(dist', best, data) == Scanned(dist, best, data)
    decreases |data|
  {
    if data != [] {
      assert data[0] in data && forall y | y in data[1..] :: y in data;
      ScannedSame(dist, dist', if dist(data[0]) < dist(best) then data[0] else best, data[1..], n);
    }
  }

  lemma {:induction false} LandingAppend(links: Links, m: nat, extra: seq<LinkList>, dist: nat -> real,
                                         dist': nat -> real, ep: nat, top: nat, target: nat)
    requires GoodLinks(links, m) && Exists(links, ep, top) && target <= top
        && forall i: nat | i < |links| :: dist'(i) == dist(i)
    ensures Landing(links + [extra], dist', ep, top, target) == Landing(links, dist, ep, top, target)
    ensures Exists(links, Landing(links, dist, ep, top, target), target)
    decreases top
  {
    hide GoodLinks, Greedy;
    if top > target {
      GreedyAppend(links, m, extra, top, dist, dist', ep);
      LandingAppend(links, m, extra, dist, dist', Greedy(links, top, dist, ep), top - 1, target);
    }
  }

  // ---------- The loops ----------

  /** One level.  After a move the scan goes on over the old node's list; only a scan without a move ends the loop. */
  method DescendLevel(links: Links, ghost m: nat, dist: nat -> real, start: nat, startDist: real, level: nat)
    returns (currObj: nat, curdist: real)
    requires GoodLinks(links, m) && Exists(links, start, level) && startDist == dist(start)
    ensures currObj in Reach(links, level, start) && Exists(links, currObj, level)
    ensures curdist == dist(currObj) <= startDist
    ensures LocalMin(links, level, dist, currObj) && currObj == Greedy(links, level, dist, start)
  {
    currObj, curdist := start, startDist;
    ReachStart(links, level, start);
    var changed := true;
    while changed
      invariant currObj in Reach(links, level, start)
      invariant curdist == dist(currObj) <= startDist
      invariant Greedy(links, level, dist, currObj) == Greedy(links, level, dist, start)
      invariant !changed ==> LocalMin(links, level, dist, currObj) && Greedy(links, level, dist, currObj) == currObj
      decreases CloserThan(links, dist, curdist), changed
    {
      ghost var d0 := curdist;
      currObj, curdist, changed := ScanList(links, m, dist, start, currObj, curdist, level);
      if changed {
        assert currObj in CloserThan(links, dist, d0) && currObj !in CloserThan(links, dist, curdist);
        assert CloserThan(links, dist, curdist) < CloserThan(links, dist, d0);
      }
    }
    ReachExists(links, level, start);
  }

  /** One pass over the list of `from`. */
  method ScanList(links: Links, ghost m: nat, dist: nat -> real, ghost start: nat, from: nat, fromDist: real,
                  level: nat)
    returns (currObj: nat, curdist: real, changed: bool)
    requires GoodLinks(links, m) && from in Reach(links, level, start) && fromDist == dist(from)
    ensures currObj in Reach(links, level, start) && curdist == dist(currObj) && currObj < |links|
    ensures currObj == Scanned(dist, from, NeighborsAt(links, from, level))
    ensures if changed then curdist < fromDist else currObj == from && LocalMin(links, level, dist, from)
  {
    hide Reach, GoodLinks, Scanned;
    currObj, curdist, changed := from, fromDist, false;
    ReachExists(links, level, start);
    var data := NeighborsAt(links, from, level);
    NothingScanned(dist, from, data);
    for i := 0 to |data|
      invariant currObj in Reach(links, level, start) && curdist == dist(currObj) && currObj < |links|
      invariant currObj == Scanned(dist, from, data[..i])
      invariant if changed then curdist < fromDist else currObj == from
    {
      var cand := data[i];
      NeighborOk(links, m, from, level, cand);
      assert cand < |links|;  // "cand error" is never thrown
      var d := dist(cand);
      ScannedExtends(dist, from, data[..i], cand);
      assert data[..i + 1] == data[..i] + [cand];
      if d < curdist {
        ReachStep(links, level, start, from, cand);
        currObj, curdist, changed := cand, d, true;
      }
    }
    assert data[..|data|] == data;
  }

  lemma NothingScanned(dist: nat -> real, from: nat, data: seq<nat>)
    ensures Scanned(dist, from, data[..0]) == from
  {
  }

  lemma NeighborOk(links: Links, m: nat, u: nat, level: nat, y: nat)
    requires GoodLinks(links, m) && Exists(links, u, level) && y in NeighborsAt(links, u, level)
    ensures y < |links| && Exists(links, y, level)
  {
    assert GoodList(links, m, u, level);
  }

  /** From a to b on one level: along links, downhill, ending in a local minimum. */
  ghost predicate DownTo(links: Links, level: nat, dist: nat -> real, a: nat, b: nat) {
    b in Reach(links, level, a) && dist(b) <= dist(a) && LocalMin(links, level, dist, b)
  }

  /** trail[k] is where the descent stands after k levels. */
  ghost predicate Trail(links: Links, dist: nat -> real, ep: nat, top: nat, target: nat, trail: seq<nat>)
    requires target <= top
  {
    && |trail| == top - target + 1 && trail[0] == ep
    && forall k | 0 <= k < top - target :: DownTo(links, top - k, dist, trail[k], trail[k + 1])
  }

  lemma NoDescent(links: Links, dist: nat -> real, ep: nat, top: nat)
    ensures Landing(links, dist, ep, top, top) == ep
  {
  }

  /** Levels top, top - 1, ..., target + 1. */
  method Descend(links: Links, ghost m: nat, dist: nat -> real, ep: nat, top: nat, target: nat)
    returns (currObj: nat, ghost trail: seq<nat>)
    requires GoodLinks(links, m) && target <= top && Exists(links, ep, top)
    ensures Trail(links, dist, ep, top, target, trail) && currObj == trail[top - target]
    ensures Exists(links, currObj, target) && currObj == Landing(links, dist, ep, top, target)
  {
    hide Reach, LocalMin, GoodLinks, Greedy;
    currObj := ep;
    var curdist := dist(ep);
    trail := [ep];
    var level := top;
    while level > target
      invariant target <= level <= top
      invariant Trail(links, dist, ep, top, level, trail) && currObj == trail[top - level]
      invariant curdist == dist(currObj) && Exists(links, currObj, level)
      invariant Landing(links, dist, currObj, level, target) == Landing(links, dist, ep, top, target)
    {
      ghost var before := currObj;
      currObj, curdist := DescendLevel(links, m, dist, currObj, curdist, level);
      assert DownTo(links, level, dist, before, currObj);
      trail := trail + [currObj];
      level := level - 1;
    }
  }
}
