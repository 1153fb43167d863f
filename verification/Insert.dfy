/** Linking a new element level by level: the loop of addPoint in hnswlib_omp/hnswalg.h. */
module Insert {
  import opened Selection
  import opened Graph
  import opened VisitedLists
  import opened LayerSearch
  import opened Heuristic
  import opened Connect

  /** Nothing links to x on this level. */
  ghost predicate Unlinked(links: Links, x: nat, level: nat) {
    forall j: nat | Exists(links, j, level) :: x !in NeighborsAt(links, j, level)
  }

  /** Lists of the given level and below are as they were. */
  ghost predicate UntouchedUpTo(a: Links, b: Links, level: int) {
    SameShape(a, b) && forall j: nat, l: nat | Exists(a, j, l) && l <= level :: b[j][l] == a[j][l]
  }

  ghost predicate UntouchedAbove(a: Links, b: Links, level: int) {
    SameShape(a, b) && forall j: nat, l: nat | Exists(a, j, l) && l > level :: b[j][l] == a[j][l]
  }

  /** Inserting cur only ever adds cur to an existing list, or drops links from it. */
  ghost predicate OnlyGains(a: Links, b: Links, cur: nat) {
    SameShape(a, b)
    && forall j: nat, l: nat | Exists(a, j, l) && j != cur ::
         SetOf(NeighborsAt(b, j, l)) <= SetOf(NeighborsAt(a, j, l)) + {cur}
  }

  lemma NotReached(links: Links, level: nat, ep: nat, x: nat)
    requires ep != x && Unlinked(links, x, level)
    ensures x !in Reach(links, level, ep)
  {
    forall p | IsPath(links, level, p) && p[0] == ep ensures p[|p| - 1] != x {
      if |p| > 1 {
        assert p[|p| - 1] in NeighborsAt(links, p[|p| - 2], level);
      }
    }
  }

  /** What one connection does to the lists of the other elements. */
  lemma LinkedOnlyGains(a: Links, b: Links, m: nat, between: Between, cur: nat, level: nat, chosen: set<nat>)
    requires Linked(a, b, m, between, cur, level, chosen, false)
    ensures OnlyGains(a, b, cur)
    ensures UntouchedUpTo(a, b, level - 1) && UntouchedAbove(a, b, level)
  {
    forall j: nat, l: nat | Exists(a, j, l) && j != cur
      ensures SetOf(NeighborsAt(b, j, l)) <= SetOf(NeighborsAt(a, j, l)) + {cur}
    {
      if l == level && j in chosen {
        assert BackLinked(between, NeighborsAt(a, j, l), NeighborsAt(b, j, l), j, cur, Capacity(m, l), false);
      } else {
        assert b[j][l] == a[j][l];
      }
    }
  }

  lemma OnlyGainsTrans(a: Links, b: Links, c: Links, cur: nat)
    requires OnlyGains(a, b, cur) && OnlyGains(b, c, cur)
    ensures OnlyGains(a, c, cur)
  {
    forall j: nat, l: nat | Exists(a, j, l) && j != cur
      ensures SetOf(NeighborsAt(c, j, l)) <= SetOf(NeighborsAt(a, j, l)) + {cur}
    {
      assert Exists(b, j, l);
    }
  }

  /** The new element has between 1 and M neighbours on the level. */
  ghost predicate Connected(links: Links, m: nat, cur: nat, level: nat) {
    0 < |NeighborsAt(links, cur, level)| <= m
  }

  /** The candidates: what the search found and a deleted entry point; if that is too many, all but a farthest. */
  ghost predicate Offered(dist: nat -> real, found: set<nat>, ep: nat, epDeleted: bool, efConstruction: nat,
                          s: set<nat>) {
    if !epDeleted then s == found
    else if |found + {ep}| <= efConstruction then s == found + {ep}
    else exists w :: w in found + {ep} && AllWithin(dist, found + {ep}, dist(w)) && s == found + {ep} - {w}
  }

  /** The graph, and the node the search of the next level starts from. */
  datatype Stage = Stage(links: Links, currObj: nat)

  /** One level of addPoint or repairConnectionsForUpdate: the candidates s are pruned by the heuristic to `chosen`, cur
      is linked with them in both directions, nothing else moves, and the next level starts from a candidate nearest to
      cur. */
  ghost predicate ConnectedTo(a: Stage, b: Stage, m: nat, between: Between, dist: nat -> real, cur: nat, level: nat,
                              s: set<nat>, isUpdate: bool) {
    exists chosen ::
        chosen <= s && Reselected(between, dist, s, m, chosen)
            && Linked(a.links, b.links, m, between, cur, level, chosen, isUpdate)
                  && b.currObj in chosen && forall x | x in s :: dist(b.currObj) <= dist(x)
  }

  /** One level of addPoint, from the search to the links. */
  ghost predicate LevelConnected(a: Stage, b: Stage, m: nat, efConstruction: nat, deleted: set<nat>, between: Between,
                                 dist: nat -> real,
                                 cur: nat, ep: nat, level: nat) {
    exists visited, found, s ::
      && SearchResult(a.links, level, a.currObj, Live(a.links, true, deleted), dist, efConstruction, visited, found)
      && Offered(dist, found, ep, ep in deleted, efConstruction, s)
      && ConnectedTo(a, b, m, between, dist, cur, level, s, false)
  }

  /** The levels top, top - 1, ..., top - |stages| + 2, one after the other. */
  ghost predicate LevelsConnected(stages: seq<Stage>, m: nat, efConstruction: nat, deleted: set<nat>, between: Between,
                                  dist: nat -> real,
                                  cur: nat, ep: nat, top: nat) {
    0 < |stages| <= top + 2
    && forall k | 0 <= k < |stages| - 1 ::
         LevelConnected(stages[k], stages[k + 1], m, efConstruction, deleted, between, dist, cur, ep, top - k)
  }

  /** The whole of addPoint on the graph: from where the descent lands, every level the element shares, down to 0. */
  ghost predicate Inserted(before: Links, after: Links, m: nat, efConstruction: nat, deleted: set<nat>,
                           between: Between, dist: nat -> real,
                           cur: nat, ep: nat, start: nat, top: nat) {
    exists stages: seq<Stage> ::
      && LevelsConnected(stages, m, efConstruction, deleted, between, dist, cur, ep, top) && |stages| == top + 2
      && stages[0] == Stage(before, start) && stages[top + 1].links == after
  }

  /** A search that starts here, on this level, has nobody to offer: no live node can be reached from `start`, and the
      entry point is not offered in its place because it is live itself. */
  ghost predicate NobodyToOffer(links: Links, deleted: set<nat>, ep: nat, start: nat, level: nat) {
    ep !in deleted && Reach(links, level, start) * Live(links, true, deleted) == {}
  }

  /** A deleted entry point is always offered as a neighbour; if that overfills the queue, a farthest entry goes. */
  method AddDeletedEntry(found: multiset<Entry>, dist: nat -> real, ep: nat, efConstruction: nat, ghost t: set<nat>)
    returns (cands: multiset<Entry>, ghost s: set<nat>)
    requires found == EntriesOf(dist, t) && ep !in t && 0 < efConstruction && |t| <= efConstruction
    ensures cands == EntriesOf(dist, s) && s != {} && s <= t + {ep}
    ensures Offered(dist, t, ep, true, efConstruction, s)
  {
    hide EntriesOf;
    EntriesAdd(dist, t, ep);
    cands, s := found + multiset{Entry(dist(ep), ep)}, t + {ep};
    EntriesSize(dist, s);
    if |cands| > efConstruction {
      var worst := TopByDist(cands);
      EntriesTop(dist, s, worst);
      EntriesRemove(dist, s, worst.id);
      cands, s := cands - multiset{worst}, s - {worst.id};
      EntriesSize(dist, s);
      assert worst.id in t + {ep} && AllWithin(dist, t + {ep}, dist(worst.id)) && s == t + {ep} - {worst.id};
    }
  }

  /** Finds neighbours for cur on one level and links them; `ok` is false when there is no candidate at all. */
  method ConnectLevel(links: Links, m: nat, efConstruction: nat, deleted: set<nat>, between: Between, dist: nat -> real,
                      maxDist: real,
                      cur: nat, currObj: nat, enterpoint: nat, level: nat, pool: VisitedListPool)
    returns (ok: bool, links': Links, next: nat)
    requires GoodLinks(links, m) && 0 < m <= efConstruction && 2 * m < 65536
    requires Exists(links, cur, level) && Blank(links[cur][level]) && Unlinked(links, cur, level)
    requires Exists(links, currObj, level) && currObj != cur
    requires Exists(links, enterpoint, level) && enterpoint != cur
    requires pool.Valid() && |links| <= pool.numElements
    modifies pool.Repr
    ensures pool.Valid() && pool.lent == old(pool.lent) && fresh(pool.Repr - old(pool.Repr))
    ensures GoodLinks(links', m) && OnlyGains(links, links', cur)
    ensures UntouchedUpTo(links, links', level - 1) && UntouchedAbove(links, links', level)
    ensures ok ==> Connected(links', m, cur, level) && Exists(links', next, level) && next != cur
    ensures ok ==>
      LevelConnected(Stage(links, currObj), Stage(links', next), m, efConstruction, deleted, between, dist, cur,
                     enterpoint, level)
    ensures ok <==> !NobodyToOffer(links, deleted, enterpoint, currObj, level)
    ensures !ok ==> currObj in deleted && links' == links
    ensures ok && enterpoint !in deleted ==> next !in deleted
  {
    hide SearchResult, EntriesOf, Reach, GoodLinks, Blank, Unlinked, Linked, Reselected, OnlyGains, UntouchedUpTo,
        UntouchedAbove, VisitedListPool.Valid;
    hide Live, Offered, LevelConnected;
    var top; ghost var visited, found;
    top, visited, found := SearchLevel(true, links, m, deleted, dist, maxDist, currObj, efConstruction, level, pool);
    SuitableNeighbors(links, level, currObj, deleted, dist, efConstruction, visited, found, cur);
    SuitableEntry(links, cur, enterpoint, level);
    ghost var s := found;
    if enterpoint in deleted {
      top, s := AddDeletedEntry(top, dist, enterpoint, efConstruction, found);
    } else {
      OfferedAsFound(dist, found, enterpoint, efConstruction);
    }
    EntriesSize(dist, s);
    if |top| == 0 {
      NothingChanged(links, cur, level);
      return false, links, currObj;
    }
    ghost var chosen;
    links', next, chosen := MutuallyConnectNewElement(links, m, between, cur, top, level, false, dist, s);
    LinkedOnlyGains(links, links', m, between, cur, level, chosen);
    LinkedConnects(links, links', m, between, cur, level, chosen, next);
    ok := true;
    assert ConnectedTo(Stage(links, currObj), Stage(links', next), m, between, dist, cur, level, s, false);
    LevelDone(Stage(links, currObj), Stage(links', next), m, efConstruction, deleted, between, dist, cur, enterpoint,
              level, visited, found, s);
  }

  lemma OfferedAsFound(dist: nat -> real, found: set<nat>, ep: nat, efConstruction: nat)
    ensures Offered(dist, found, ep, false, efConstruction, found)
  {
  }

  lemma LevelDone(a: Stage, b: Stage, m: nat, efConstruction: nat, deleted: set<nat>, between: Between,
                  dist: nat -> real,
                  cur: nat, ep: nat, level: nat, visited: set<nat>, found: set<nat>, s: set<nat>)
    requires SearchResult(a.links, level, a.currObj, Live(a.links, true, deleted), dist, efConstruction, visited, found)
    requires Offered(dist, found, ep, ep in deleted, efConstruction, s)
        && ConnectedTo(a, b, m, between, dist, cur, level, s, false)
    ensures LevelConnected(a, b, m, efConstruction, deleted, between, dist, cur, ep, level)
  {
    hide SearchResult, Offered, ConnectedTo, Live;
  }

  lemma NothingChanged(links: Links, cur: nat, level: nat)
    ensures OnlyGains(links, links, cur) && UntouchedUpTo(links, links, level - 1)
        && UntouchedAbove(links, links, level)
  {
  }

  lemma SuitableEntry(links: Links, cur: nat, enterpoint: nat, level: nat)
    requires Exists(links, enterpoint, level) && Unlinked(links, cur, level)
    ensures cur !in NeighborsAt(links, enterpoint, level)
  {
  }

  /** What the search for a new element's neighbours guarantees about its result. */
  lemma SuitableNeighbors(links: Links, level: nat, ep: nat, deleted: set<nat>, dist: nat -> real, ef: nat,
                          visited: set<nat>, found: set<nat>, cur: nat)
    requires Exists(links, ep, level) && ef > 0 && ep != cur && Unlinked(links, cur, level)
    requires SearchResult(links, level, ep, Live(links, true, deleted), dist, ef, visited, found)
    ensures forall x | x in found ::
        x != cur && Exists(links, x, level) && cur !in NeighborsAt(links, x, level) && x !in deleted
    ensures ep !in deleted ==> found != {}
    ensures |found| <= ef && (found != {} <==> Reach(links, level, ep) * Live(links, true, deleted) != {})
  {
    ReachStart(links, level, ep);
    ReachExists(links, level, ep);
    NotReached(links, level, ep, cur);
    assert ep !in deleted ==> ep in Reach(links, level, ep) * Live(links, true, deleted);
    forall x | x in found
      ensures x != cur && Exists(links, x, level) && cur !in NeighborsAt(links, x, level) && x !in deleted {
      assert x in Reach(links, level, ep) && x in Live(links, true, deleted);
    }
  }

  lemma LinkedConnects(a: Links, b: Links, m: nat, between: Between, cur: nat, level: nat, chosen: set<nat>, next: nat)
    requires Linked(a, b, m, between, cur, level, chosen, false)
    requires 0 < |chosen| <= m && next in chosen && Exists(a, next, level)
    ensures Connected(b, m, cur, level) && Exists(b, next, level)
  {
  }

  /** The loop over the levels, from the top one the new element shares with the graph down to 0.  Every level that
      succeeds hands on a live node, unless the entry point is deleted; so only the first one can fail. */
  method ConnectLevels(links: Links, m: nat, efConstruction: nat, deleted: set<nat>, between: Between,
                       dist: nat -> real, maxDist: real,
                       cur: nat, start: nat, enterpoint: nat, topLevel: nat, pool: VisitedListPool)
    returns (ok: bool, links': Links)
    requires GoodLinks(links, m) && 0 < m <= efConstruction && 2 * m < 65536
    requires forall l: nat | l <= topLevel :: Exists(links, cur, l) && Blank(links[cur][l]) && Unlinked(links, cur, l)
    requires Exists(links, start, topLevel) && start != cur
    requires Exists(links, enterpoint, topLevel) && enterpoint != cur
    requires pool.Valid() && |links| <= pool.numElements
    modifies pool.Repr
    ensures pool.Valid() && pool.lent == old(pool.lent) && fresh(pool.Repr - old(pool.Repr))
    ensures GoodLinks(links', m) && OnlyGains(links, links', cur) && UntouchedAbove(links, links', topLevel)
    ensures ok ==> forall l: nat | l <= topLevel :: Connected(links', m, cur, l)
    ensures ok ==> Inserted(links, links', m, efConstruction, deleted, between, dist, cur, enterpoint, start, topLevel)
    ensures ok <==> !NobodyToOffer(links, deleted, enterpoint, start, topLevel)
    ensures !ok ==> start in deleted && links' == links
  {
    hide GoodLinks, Blank, Unlinked, OnlyGains, UntouchedUpTo, UntouchedAbove, Connected, VisitedListPool.Valid;
    hide LevelConnected, Inserted, NobodyToOffer;
    links' := links;
    ghost var stages := [Stage(links, start)];
    var currObj := start;
    var level: int := topLevel;
    NothingChanged(links, cur, topLevel + 1);
    NothingChanged(links, cur, topLevel);
    while level >= 0
      invariant -1 <= level <= topLevel
      invariant pool.Valid() && pool.lent == old(pool.lent) && fresh(pool.Repr - old(pool.Repr))
      invariant GoodLinks(links', m) && OnlyGains(links, links', cur)
      invariant UntouchedUpTo(links, links', level) && UntouchedAbove(links, links', topLevel)
      invariant currObj != cur && (level >= 0 ==> Exists(links', currObj, level))
      invariant if level == topLevel then links' == links && currObj == start
                else enterpoint !in deleted ==> currObj !in deleted
      invariant level < topLevel ==> !NobodyToOffer(links, deleted, enterpoint, start, topLevel)
      invariant forall l: nat | level < l <= topLevel :: Connected(links', m, cur, l)
      invariant |stages| == topLevel - level + 1 && stages[0] == Stage(links, start)
          && stages[|stages| - 1] == Stage(links', currObj)
      invariant LevelsConnected(stages, m, efConstruction, deleted, between, dist, cur, enterpoint, topLevel)
    {
      ghost var before := links';
      UntouchedStays(links, before, cur, level);
      ok, links', currObj := ConnectLevel(links', m, efConstruction, deleted, between, dist, maxDist, cur, currObj,
                                          enterpoint, level, pool);
      OnlyGainsTrans(links, before, links', cur);
      UntouchedTrans(links, before, links', level, topLevel);
      if !ok {
        LiveEntry(before, deleted, enterpoint, stages[|stages| - 1].currObj, level);
        return;
      }
      ConnectedStays(before, links', m, cur, level, topLevel);
      stages := stages + [Stage(links', currObj)];
      level := level - 1;
    }
    ok := true;
    AllConnected(links, links', m, efConstruction, deleted, between, dist, cur, enterpoint, start, topLevel, stages);
  }

  lemma LiveEntry(links: Links, deleted: set<nat>, ep: nat, start: nat, level: nat)
    requires NobodyToOffer(links, deleted, ep, start, level)
    ensures ep !in deleted
  {
  }

  lemma AllConnected(before: Links, after: Links, m: nat, efConstruction: nat, deleted: set<nat>, between: Between,
                     dist: nat -> real,
                     cur: nat, ep: nat, start: nat, top: nat, stages: seq<Stage>)
    requires LevelsConnected(stages, m, efConstruction, deleted, between, dist, cur, ep, top) && |stages| == top + 2
    requires stages[0] == Stage(before, start) && stages[top + 1].links == after
    ensures Inserted(before, after, m, efConstruction, deleted, between, dist, cur, ep, start, top)
  {
    hide LevelsConnected;
  }

  lemma UntouchedStays(a: Links, b: Links, cur: nat, level: nat)
    requires Exists(a, cur, level) && Blank(a[cur][level]) && Unlinked(a, cur, level) && UntouchedUpTo(a, b, level)
    ensures |b| == |a| && Exists(b, cur, level) && Blank(b[cur][level]) && Unlinked(b, cur, level)
    ensures forall j: nat, l: nat :: Exists(a, j, l) <==> Exists(b, j, l)
  {
    forall j: nat | Exists(b, j, level) ensures cur !in NeighborsAt(b, j, level) {
      assert b[j][level] == a[j][level] && Exists(a, j, level);
    }
  }

  lemma UntouchedTrans(a: Links, b: Links, c: Links, level: nat, topLevel: nat)
    requires UntouchedUpTo(a, b, level) && UntouchedUpTo(b, c, level - 1) && level <= topLevel
    requires UntouchedAbove(a, b, topLevel) && UntouchedAbove(b, c, level)
    ensures UntouchedUpTo(a, c, level - 1) && UntouchedAbove(a, c, topLevel)
    ensures forall j: nat, l: nat :: Exists(a, j, l) <==> Exists(c, j, l)
  {
    forall j: nat, l: nat | Exists(a, j, l) && l <= level - 1 ensures c[j][l] == a[j][l] {
      assert Exists(b, j, l);
    }
    forall j: nat, l: nat | Exists(a, j, l) && l > topLevel ensures c[j][l] == a[j][l] {
      assert Exists(b, j, l);
    }
  }

  lemma ConnectedStays(a: Links, b: Links, m: nat, cur: nat, level: nat, topLevel: nat)
    requires UntouchedAbove(a, b, level) && Exists(a, cur, topLevel) && level <= topLevel
    requires forall l: nat | level < l <= topLevel :: Connected(a, m, cur, l)
    requires Connected(b, m, cur, level)
    ensures forall l: nat | level - 1 < l <= topLevel :: Connected(b, m, cur, l)
  {
    forall l: nat | level - 1 < l <= topLevel ensures Connected(b, m, cur, l) {
      if l > level {
        assert Exists(a, cur, l) && b[cur][l] == a[cur][l] && Connected(a, m, cur, l);
      }
    }
  }
}
