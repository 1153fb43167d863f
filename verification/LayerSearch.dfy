/** Best-first search of one level with pruning: searchBaseLayer and searchBaseLayerST of hnswlib_omp/hnswalg.h.

    The two functions are one algorithm.  searchBaseLayer runs on any level with ef_construction and always looks at the
    delete marks; searchBaseLayerST<has_deletions> runs on level 0 and ignores the marks when has_deletions is false, in
    which case it may also stop before the result is full. */
module LayerSearch {
  import opened Selection
  import opened Graph
  import opened VisitedLists

  ghost predicate AllWithin(dist: nat -> real, s: set<nat>, d: real) {
    forall t | t in s :: dist(t) <= d
  }

  ghost predicate IsMax(dist: nat -> real, s: set<nat>, d: real) {
    AllWithin(dist, s, d) && exists t :: t in s && dist(t) == d
  }

  /** The nodes a search may return. */
  ghost function Live(links: Links, hasDeletions: bool, deleted: set<nat>): set<nat> {
    set x | 0 <= x < |links| && (!hasDeletions || x !in deleted)
  }

  /** What a finished search knows. */
  ghost predicate SearchResult(links: Links, level: nat, ep: nat, live: set<nat>, dist: nat -> real, ef: nat,
                               visited: set<nat>, found: set<nat>) {
    // complete: as many live nodes as can be reached, up to ef
    && |found| == Min(ef, |Reach(links, level, ep) * live|)
    && (|found| < ef ==> visited == Reach(links, level, ep))
    // sound
    && ep in visited && visited <= Reach(links, level, ep)
    && found <= visited * live
    // the ef closest of those visited
    && (forall x | x in visited && x in live && x !in found :: |found| == ef && AllWithin(dist, found, dist(x)))
    // every returned node has been expanded
    && (forall t, y | t in found && y in NeighborsAt(links, t, level) :: y in visited)
  }

  /** Local optimality: a live neighbour of a returned node is returned itself, or is no closer than a full result's
      worst. */
  lemma LocallyOptimal(links: Links, level: nat, ep: nat, live: set<nat>, dist: nat -> real, ef: nat,
                       visited: set<nat>, found: set<nat>, t: nat, y: nat)
    requires SearchResult(links, level, ep, live, dist, ef, visited, found)
    requires t in found && y in NeighborsAt(links, t, level) && y in live
    ensures y in found || (|found| == ef && AllWithin(dist, found, dist(y)))
  {
    assert y in visited;
  }

  // ---------- The invariant of the search loop ----------

  /** `open` are the nodes in the candidate queue, `kept` those in top_candidates.
      A visited node that is neither expanded nor open was pruned: a full result was at least as close.
      A search for no node at all (ef == 0) may keep one in between, and prunes against that. */
  ghost predicate Inv(dist: nat -> real, live: set<nat>, ef: nat, lowerBound: real,
                      visited: set<nat>, expanded: set<nat>, open: set<nat>, kept: set<nat>) {
    && open <= visited && expanded <= visited && open !! expanded
    && kept <= visited * live && (ef > 0 ==> |kept| <= ef)
    && (kept != {} ==> IsMax(dist, kept, lowerBound))
    && (forall x | ef > 0 && x in visited && x in live && x !in kept :: |kept| == ef && AllWithin(dist, kept, dist(x)))
    && (forall x | ef > 0 && x in visited && x !in expanded && x !in open ::
          |kept| == ef && AllWithin(dist, kept, dist(x)) && x !in kept)
  }

  lemma Pruned(dist: nat -> real, live: set<nat>, ef: nat, lowerBound: real,
               visited: set<nat>, expanded: set<nat>, open: set<nat>, kept: set<nat>, x: nat)
    requires Inv(dist, live, ef, lowerBound, visited, expanded, open, kept)
    requires x !in visited && |kept| >= ef && lowerBound <= dist(x)
    ensures Inv(dist, live, ef, lowerBound, visited + {x}, expanded, open, kept)
  {
    assert ef > 0 ==> kept != {};
  }

  /** A node that is queued but, being deleted, not kept. */
  lemma QueuedOnly(dist: nat -> real, live: set<nat>, ef: nat, lowerBound: real,
                   visited: set<nat>, expanded: set<nat>, open: set<nat>, kept: set<nat>, x: nat)
    requires Inv(dist, live, ef, lowerBound, visited, expanded, open, kept)
    requires x !in visited && x !in live
    ensures Inv(dist, live, ef, lowerBound, visited + {x}, expanded, open + {x}, kept)
  {
  }

  /** A live node that fits into the result. */
  lemma QueuedAndKept(dist: nat -> real, live: set<nat>, ef: nat, lowerBound: real, lowerBound': real,
                      visited: set<nat>, expanded: set<nat>, open: set<nat>, kept: set<nat>, x: nat)
    requires Inv(dist, live, ef, lowerBound, visited, expanded, open, kept)
    requires x !in visited && x in live && |kept| < ef
    requires IsMax(dist, kept + {x}, lowerBound')
    ensures Inv(dist, live, ef, lowerBound', visited + {x}, expanded, open + {x}, kept + {x})
  {
  }

  /** A live node that pushes the worst one out of a full result. */
  lemma QueuedAndReplaced(dist: nat -> real, live: set<nat>, ef: nat, lowerBound: real, lowerBound': real,
                          visited: set<nat>, expanded: set<nat>, open: set<nat>, kept: set<nat>, x: nat, worst: nat)
    requires Inv(dist, live, ef, lowerBound, visited, expanded, open, kept)
    requires ef > 0 && x !in visited && x in live && |kept| == ef && lowerBound > dist(x)
    requires worst in kept + {x} && AllWithin(dist, kept + {x}, dist(worst))
    requires IsMax(dist, kept + {x} - {worst}, lowerBound')
    ensures Inv(dist, live, ef, lowerBound', visited + {x}, expanded, open + {x}, kept + {x} - {worst})
  {
    var kept' := kept + {x} - {worst};
    assert kept != {};
    var m :| m in kept && dist(m) == lowerBound;
    assert m in kept + {x} && dist(worst) >= lowerBound;
    assert |kept'| == ef;
    assert AllWithin(dist, kept', lowerBound);
  }

  /** Taking a node from the queue in order to expand it. */
  lemma Expand(dist: nat -> real, live: set<nat>, ef: nat, lowerBound: real,
               visited: set<nat>, expanded: set<nat>, open: set<nat>, kept: set<nat>, x: nat)
    requires Inv(dist, live, ef, lowerBound, visited, expanded, open, kept)
    requires x in open
    ensures Inv(dist, live, ef, lowerBound, visited, expanded + {x}, open - {x}, kept)
  {
  }

  /** With ef == 0 a node that is kept pushes one out at once. */
  lemma QueuedInTransit(dist: nat -> real, live: set<nat>, lowerBound: real, lowerBound': real,
                        visited: set<nat>, expanded: set<nat>, open: set<nat>, kept: set<nat>, x: nat, kept': set<nat>)
    requires Inv(dist, live, 0, lowerBound, visited, expanded, open, kept)
    requires x !in visited && kept' <= (kept + {x}) * live
    requires kept' != {} ==> IsMax(dist, kept', lowerBound')
    ensures Inv(dist, live, 0, lowerBound', visited + {x}, expanded, open + {x}, kept')
  {
  }

  /** All the ways in which queueing x can change the result. */
  lemma Queued(dist: nat -> real, live: set<nat>, ef: nat, lowerBound: real, lowerBound': real,
               visited: set<nat>, expanded: set<nat>, open: set<nat>, kept: set<nat>, x: nat, worst: nat,
               kept': set<nat>)
    requires Inv(dist, live, ef, lowerBound, visited, expanded, open, kept)
    requires x !in visited && (|kept| < ef || lowerBound > dist(x))
    requires var pushed := if x in live then kept + {x} else kept;
      if |pushed| > ef then worst in pushed && AllWithin(dist, pushed, dist(worst)) && kept' == pushed - {worst}
      else kept' == pushed
    requires if kept' != {} then IsMax(dist, kept', lowerBound') else lowerBound' == lowerBound
    ensures Inv(dist, live, ef, lowerBound', visited + {x}, expanded, open + {x}, kept')
  {
    if ef == 0 {
      QueuedInTransit(dist, live, lowerBound, lowerBound', visited, expanded, open, kept, x, kept');
    } else if x !in live {
      assert kept' == kept;
      QueuedOnly(dist, live, ef, lowerBound, visited, expanded, open, kept, x);
      SameBound(dist, kept, lowerBound, lowerBound');
    } else if |kept| < ef {
      assert |kept + {x}| == |kept| + 1;
      QueuedAndKept(dist, live, ef, lowerBound, lowerBound', visited, expanded, open, kept, x);
    } else {
      assert |kept + {x}| == |kept| + 1;
      QueuedAndReplaced(dist, live, ef, lowerBound, lowerBound', visited, expanded, open, kept, x, worst);
    }
  }

  lemma SameBound(dist: nat -> real, s: set<nat>, d: real, d': real)
    requires s != {} ==> IsMax(dist, s, d)
    requires if s != {} then IsMax(dist, s, d') else d' == d
    ensures d' == d
  {
  }

  /** When the loop breaks, nothing returned is still waiting to be expanded, and the result is full.
      With has_deletions == false the break does not test the size, but then it cannot fire on a short result. */
  lemma BreakMeansFull(dist: nat -> real, live: set<nat>, ef: nat, lowerBound: real,
                       visited: set<nat>, expanded: set<nat>, open: set<nat>, kept: set<nat>, checkMarks: bool)
    requires Inv(dist, live, ef, lowerBound, visited, expanded, open, kept)
    requires open != {} && forall x | x in open && x in live :: dist(x) > lowerBound
    requires ef > 0 && (|kept| == ef || !checkMarks)
    requires !checkMarks ==> visited <= live && kept != {}
    ensures open !! kept && |kept| == ef
  {
    var x :| x in open;
    assert x !in kept;
  }

  /** The loop is over, by an empty queue or by a break on a full result. */
  lemma Finish(links: Links, level: nat, ep: nat, dist: nat -> real, live: set<nat>, ef: nat, lowerBound: real,
               visited: set<nat>, expanded: set<nat>, open: set<nat>, kept: set<nat>)
    requires Inv(dist, live, ef, lowerBound, visited, expanded, open, kept)
    requires ef > 0 && (open == {} || (open !! kept && |kept| == ef))
    requires ep in visited && visited <= Reach(links, level, ep)
    requires forall x, y | x in expanded && y in NeighborsAt(links, x, level) :: y in visited
    ensures SearchResult(links, level, ep, live, dist, ef, visited, kept)
  {
    forall t, y | t in kept && y in NeighborsAt(links, t, level) ensures y in visited {
      assert t in expanded;
    }
    var reach := Reach(links, level, ep);
    if |kept| < ef {
      assert visited <= expanded;
      ReachWithin(links, level, ep, visited);
      assert kept == reach * live;
    } else {
      SubsetSize(kept, reach * live);
    }
  }

  lemma SubsetSize(a: set<nat>, b: set<nat>)
    requires a <= b
    ensures |a| <= |b|
  {
    assert b == a + (b - a);
  }

  // ---------- The loop ----------

  lemma EntriesTop(key: nat -> real, s: set<nat>, e: Entry)
    requires IsTop(ByDist, EntriesOf(key, s), e)
    ensures e.id in s && e.dist == key(e.id) && IsMax(key, s, e.dist)
  {
    EntriesMember(key, s);
    forall t | t in s ensures key(t) <= e.dist {
      assert Entry(key(t), t) in EntriesOf(key, s);
    }
  }

  /** An unvisited neighbour y: queue it and keep it if it can still matter. */
  method Visit(hasDeletions: bool, deleted: set<nat>, dist: nat -> real, ef: nat, y: nat,
               cands: multiset<Entry>, top: multiset<Entry>, lowerBound: real,
               ghost key: nat -> real, ghost live: set<nat>,
               ghost visited: set<nat>, ghost expanded: set<nat>, ghost open: set<nat>, ghost kept: set<nat>)
    returns (cands': multiset<Entry>, top': multiset<Entry>, lowerBound': real, ghost open': set<nat>,
             ghost kept': set<nat>)
    requires Inv(dist, live, ef, lowerBound, visited, expanded, open, kept)
    requires y !in visited && key(y) == -dist(y)
    requires y in live <==> !hasDeletions || y !in deleted
    requires cands == EntriesOf(key, open) && top == EntriesOf(dist, kept)
    ensures Inv(dist, live, ef, lowerBound', visited + {y}, expanded, open', kept')
    ensures cands' == EntriesOf(key, open') && top' == EntriesOf(dist, kept')
    ensures !hasDeletions && kept != {} ==> kept' != {}
    ensures open' <= open + {y}
  {
    hide Inv, EntriesOf;
    cands', top', lowerBound', open', kept' := cands, top, lowerBound, open, kept;
    EntriesSize(dist, kept);
    Within(dist, live, ef, lowerBound, visited, expanded, open, kept);
    if |top| < ef || lowerBound > dist(y) {
      EntriesAdd(key, open, y);
      cands', open' := cands + multiset{Entry(-dist(y), y)}, open + {y};
      if !hasDeletions || y !in deleted {
        EntriesAdd(dist, kept, y);
        top', kept' := top + multiset{Entry(dist(y), y)}, kept + {y};
      }
      EntriesSize(dist, kept');
      ghost var worst: nat := y;
      if |top'| > ef {
        var w := TopByDist(top');
        EntriesTop(dist, kept', w);
        EntriesRemove(dist, kept', w.id);
        worst := w.id;
        top', kept' := top' - multiset{w}, kept' - {w.id};
        EntriesSize(dist, kept');
      }
      if |top'| > 0 {
        var t := TopByDist(top');
        EntriesTop(dist, kept', t);
        lowerBound' := t.dist;
      }
      Queued(dist, live, ef, lowerBound, lowerBound', visited, expanded, open, kept, y, worst, kept');
    } else {
      Pruned(dist, live, ef, lowerBound, visited, expanded, open, kept, y);
    }
  }

  lemma Within(dist: nat -> real, live: set<nat>, ef: nat, lowerBound: real,
               visited: set<nat>, expanded: set<nat>, open: set<nat>, kept: set<nat>)
    requires Inv(dist, live, ef, lowerBound, visited, expanded, open, kept)
    ensures open <= visited && kept <= visited
  {
  }

  ghost predicate Expanded(links: Links, level: nat, expanded: set<nat>, visited: set<nat>) {
    forall x, y | x in expanded && y in NeighborsAt(links, x, level) :: y in visited
  }

  /** Everything the outer loop maintains. */
  ghost predicate Searching(links: Links, level: nat, ep: nat, dist: nat -> real, key: nat -> real, live: set<nat>,
                            ef: nat,
                            cands: multiset<Entry>, top: multiset<Entry>, lowerBound: real,
                            visited: set<nat>, expanded: set<nat>, open: set<nat>, kept: set<nat>) {
    && Inv(dist, live, ef, lowerBound, visited, expanded, open, kept)
    && cands == EntriesOf(key, open) && top == EntriesOf(dist, kept)
    && ep in visited && visited <= Reach(links, level, ep)
    && (forall x | x in live && x in open :: key(x) == -dist(x))
  }

  /** One entry y of the link list of u. */
  method VisitNeighbor(hasDeletions: bool, links: Links, deleted: set<nat>, dist: nat -> real, ef: nat,
                       ghost level: nat,
                       ghost u: nat, y: nat, vl: VisitedList, cands: multiset<Entry>, top: multiset<Entry>,
                           lowerBound: real,
                       ghost ep: nat, ghost key: nat -> real, ghost expanded: set<nat>, ghost open: set<nat>,
                           ghost kept: set<nat>)
    returns (cands': multiset<Entry>, top': multiset<Entry>, lowerBound': real, ghost open': set<nat>,
             ghost kept': set<nat>)
    requires vl.Valid() && y < vl.mass.Length
    requires Searching(links, level, ep, dist, key, Live(links, hasDeletions, deleted), ef, cands, top, lowerBound,
                       vl.Marked(), expanded, open, kept)
    requires y in NeighborsAt(links, u, level) && Exists(links, y, level) && u in vl.Marked()
    requires y != ep ==> key(y) == -dist(y)
    modifies vl.mass
    ensures vl.Valid() && vl.Marked() == old(vl.Marked()) + {y}
    ensures Searching(links, level, ep, dist, key, Live(links, hasDeletions, deleted), ef, cands', top', lowerBound',
                      vl.Marked(), expanded, open', kept')
    ensures !hasDeletions && kept != {} ==> kept' != {}
  {
    hide EntriesOf, Inv, Reach, Live;
    ghost var live := Live(links, hasDeletions, deleted);
    var seen := vl.IsMarked(y);
    if seen {
      assert vl.Marked() + {y} == vl.Marked();
      cands', top', lowerBound', open', kept' := cands, top, lowerBound, open, kept;
    } else {
      ghost var visited := vl.Marked();
      vl.Mark(y);
      NotSeenBefore(hasDeletions, links, deleted, level, ep, u, y, visited);
      cands', top', lowerBound', open', kept' :=
        Visit(hasDeletions, deleted, dist, ef, y, cands, top, lowerBound, key, live, visited, expanded, open, kept);
      assert open' <= open + {y};
    }
  }

  lemma NotSeenBefore(hasDeletions: bool, links: Links, deleted: set<nat>, level: nat, ep: nat, u: nat, y: nat,
                      visited: set<nat>)
    requires visited <= Reach(links, level, ep) && u in visited
    requires y in NeighborsAt(links, u, level) && Exists(links, y, level)
    ensures visited + {y} <= Reach(links, level, ep)
    ensures y in Live(links, hasDeletions, deleted) <==> !hasDeletions || y !in deleted
  {
    ReachStep(links, level, ep, u, y);
  }

  /** The whole link list `data` of the node u that has just been taken from the queue. */
  method VisitNeighbors(hasDeletions: bool, links: Links, deleted: set<nat>, dist: nat -> real, ef: nat,
                        ghost level: nat,
                        ghost u: nat, data: seq<nat>, vl: VisitedList, cands: multiset<Entry>, top: multiset<Entry>,
                            lowerBound: real,
                        ghost ep: nat, ghost key: nat -> real, ghost expanded: set<nat>, ghost open: set<nat>,
                            ghost kept: set<nat>)
    returns (cands': multiset<Entry>, top': multiset<Entry>, lowerBound': real, ghost open': set<nat>,
             ghost kept': set<nat>)
    requires vl.Valid() && u in vl.Marked()
    requires Searching(links, level, ep, dist, key, Live(links, hasDeletions, deleted), ef, cands, top, lowerBound,
                       vl.Marked(), expanded, open, kept)
    requires data == NeighborsAt(links, u, level)
    requires forall j | 0 <= j < |data| :: Exists(links, data[j], level) && data[j] < vl.mass.Length
    requires forall j | 0 <= j < |data| :: data[j] != ep ==> key(data[j]) == -dist(data[j])
    modifies vl.mass
    ensures vl.Valid() && old(vl.Marked()) <= vl.Marked()
    ensures Searching(links, level, ep, dist, key, Live(links, hasDeletions, deleted), ef, cands', top', lowerBound',
                      vl.Marked(), expanded, open', kept')
    ensures forall j | 0 <= j < |data| :: data[j] in vl.Marked()
    ensures !hasDeletions && kept != {} ==> kept' != {}
  {
    hide Searching, Reach;
    cands', top', lowerBound', open', kept' := cands, top, lowerBound, open, kept;
    for j := 0 to |data|
      invariant vl.Valid() && old(vl.Marked()) <= vl.Marked()
      invariant Searching(links, level, ep, dist, key, Live(links, hasDeletions, deleted), ef, cands', top',
                          lowerBound', vl.Marked(), expanded, open', kept')
      invariant forall i | 0 <= i < j :: data[i] in vl.Marked()
      invariant !hasDeletions && kept != {} ==> kept' != {}
    {
      cands', top', lowerBound', open', kept' :=
        VisitNeighbor(hasDeletions, links, deleted, dist, ef, level, u, data[j], vl, cands', top', lowerBound', ep, key,
                      expanded, open', kept');
    }
  }

  lemma NowExpanded(links: Links, level: nat, expanded: set<nat>, before: set<nat>, visited: set<nat>, u: nat)
    requires Expanded(links, level, expanded, before) && before <= visited
    requires forall j | 0 <= j < |NeighborsAt(links, u, level)| :: NeighborsAt(links, u, level)[j] in visited
    ensures Expanded(links, level, expanded + {u}, visited)
  {
  }

  /** One turn of the loop: stop, or expand the closest candidate. */
  method Turn(hasDeletions: bool, links: Links, ghost m: nat, deleted: set<nat>, dist: nat -> real, ef: nat, level: nat,
              vl: VisitedList, cands: multiset<Entry>, top: multiset<Entry>, lowerBound: real,
              ghost ep: nat, ghost key: nat -> real, ghost expanded: set<nat>, ghost open: set<nat>,
                  ghost kept: set<nat>)
    returns (stop: bool, cands': multiset<Entry>, top': multiset<Entry>, lowerBound': real,
             ghost expanded': set<nat>, ghost open': set<nat>, ghost kept': set<nat>)
    requires GoodLinks(links, m) && vl.Valid() && |links| <= vl.mass.Length && cands != multiset{}
    requires forall i | i != ep :: key(i) == -dist(i)
    requires Searching(links, level, ep, dist, key, Live(links, hasDeletions, deleted), ef, cands, top, lowerBound,
                       vl.Marked(), expanded, open, kept)
    requires Expanded(links, level, expanded, vl.Marked())
    requires !hasDeletions ==> kept != {}
    modifies vl.mass
    ensures vl.Valid()
    ensures Searching(links, level, ep, dist, key, Live(links, hasDeletions, deleted), ef, cands', top', lowerBound',
                      vl.Marked(), expanded', open', kept')
    ensures Expanded(links, level, expanded', vl.Marked())
    ensures !hasDeletions ==> kept' != {}
    ensures stop && ef > 0 ==> open' !! kept' && |kept'| == ef
    ensures !stop ==> expanded < expanded' <= Reach(links, level, ep)
  {
    hide Searching, Reach, Expanded, GoodLinks, Live, EntriesOf;
    var current := TopByDist(cands);
    ghost var before := vl.Marked();
    Closest(hasDeletions, links, level, ep, dist, key, deleted, ef, cands, top, lowerBound, before, expanded, open,
            kept, current);
    if -current.dist > lowerBound && (|top| == ef || hasDeletions == false) {
      stop, cands', top', lowerBound', expanded', open', kept' := true, cands, top, lowerBound, expanded, open, kept;
    } else {
      stop := false;
      Take(links, level, ep, dist, key, Live(links, hasDeletions, deleted), ef, cands, top, lowerBound, before,
           expanded, open, kept, current);
      NeighborsExist(links, m, current.id, level);
      expanded' := expanded + {current.id};
      cands', top', lowerBound', open', kept' := VisitNeighbors(hasDeletions, links, deleted, dist, ef, level,
        current.id, NeighborsAt(links, current.id, level), vl, cands - multiset{current}, top, lowerBound,
        ep, key, expanded', open - {current.id}, kept);
      NowExpanded(links, level, expanded, before, vl.Marked(), current.id);
    }
  }

  /** What the choice of the closest candidate means for the sets. */
  lemma Closest(hasDeletions: bool, links: Links, level: nat, ep: nat, dist: nat -> real, key: nat -> real,
                deleted: set<nat>, ef: nat,
                cands: multiset<Entry>, top: multiset<Entry>, lowerBound: real,
                visited: set<nat>, expanded: set<nat>, open: set<nat>, kept: set<nat>, current: Entry)
    requires Searching(links, level, ep, dist, key, Live(links, hasDeletions, deleted), ef, cands, top, lowerBound,
                       visited, expanded, open, kept)
    requires IsTop(ByDist, cands, current)
    requires !hasDeletions ==> kept != {}
    ensures current.id in open && current.dist == key(current.id)
    ensures current.id in visited && current.id !in expanded && expanded + {current.id} <= Reach(links, level, ep)
    ensures ef > 0 && -current.dist > lowerBound && (|top| == ef || !hasDeletions) ==> open !! kept && |kept| == ef
  {
    EntriesTop(key, open, current);
    EntriesSize(dist, kept);
    if ef > 0 && -current.dist > lowerBound && (|top| == ef || !hasDeletions) {
      ReachExists(links, level, ep);
      BreakMeansFull(dist, Live(links, hasDeletions, deleted), ef, lowerBound, visited, expanded, open, kept,
                     hasDeletions);
    }
  }

  lemma StillOpen(links: Links, level: nat, ep: nat, dist: nat -> real, key: nat -> real, live: set<nat>, ef: nat,
                  cands: multiset<Entry>, top: multiset<Entry>, lowerBound: real,
                  visited: set<nat>, expanded: set<nat>, open: set<nat>, kept: set<nat>)
    requires Searching(links, level, ep, dist, key, live, ef, cands, top, lowerBound, visited, expanded, open, kept)
    requires Expanded(links, level, expanded, visited)
    requires ef > 0 ==> cands == multiset{} || (open !! kept && |kept| == ef)
    ensures top == EntriesOf(dist, kept) && kept <= Reach(links, level, ep) * live
    ensures ef > 0 ==> SearchResult(links, level, ep, live, dist, ef, visited, kept)
  {
    EntriesSize(key, open);
    if ef > 0 {
      Finish(links, level, ep, dist, live, ef, lowerBound, visited, expanded, open, kept);
    }
  }

  /** The search itself, marking what it visits in the list vl. */
  method SearchWith(hasDeletions: bool, links: Links, ghost m: nat, deleted: set<nat>, dist: nat -> real, maxDist: real,
                    ep: nat, ef: nat, level: nat, vl: VisitedList)
    returns (top: multiset<Entry>, ghost visited: set<nat>, ghost found: set<nat>)
    requires GoodLinks(links, m) && Exists(links, ep, level)
    requires vl.Valid() && |links| <= vl.mass.Length && vl.Marked() == {}
    modifies vl.mass
    ensures vl.Valid()
    ensures top == EntriesOf(dist, found)
    ensures found <= Reach(links, level, ep) * Live(links, hasDeletions, deleted)
    ensures ef > 0 ==> SearchResult(links, level, ep, Live(links, hasDeletions, deleted), dist, ef, visited, found)
  {
    var epDeleted := hasDeletions && ep in deleted;
    ghost var key := (i: nat) => if i == ep && epDeleted then -maxDist else -dist(i);
    var candidates, lowerBound;
    if !epDeleted {
      top, lowerBound, found := multiset{Entry(dist(ep), ep)}, dist(ep), {ep};
      candidates := multiset{Entry(-dist(ep), ep)};
    } else {
      top, lowerBound, found := multiset{}, maxDist, {};
      candidates := multiset{Entry(-lowerBound, ep)};
    }
    vl.Mark(ep);
    ghost var expanded, open := {}, {ep};
    Begin(links, level, ep, dist, key, Live(links, hasDeletions, deleted), ef, candidates, top, lowerBound, found);
    assert vl.Marked() == {ep};
    hide Searching, Reach, GoodLinks, EntriesOf, SearchResult;
    var stop := false;
    while candidates != multiset{}
      invariant vl.Valid() && !stop
      invariant Searching(links, level, ep, dist, key, Live(links, hasDeletions, deleted), ef, candidates, top,
                          lowerBound, vl.Marked(), expanded, open, found)
      invariant Expanded(links, level, expanded, vl.Marked())
      invariant !hasDeletions ==> found != {}
      decreases Reach(links, level, ep) - expanded
    {
      stop, candidates, top, lowerBound, expanded, open, found := Turn(hasDeletions, links, m, deleted, dist, ef, level,
        vl, candidates, top, lowerBound, ep, key, expanded, open, found);
      if stop {
        break;
      }
    }
    visited := vl.Marked();
    StillOpen(links, level, ep, dist, key, Live(links, hasDeletions, deleted), ef, candidates, top, lowerBound, visited,
              expanded, open, found);
  }

  /** searchBaseLayerST<hasDeletions> when the level is 0, and searchBaseLayer when hasDeletions is true. */
  method SearchLevel(hasDeletions: bool, links: Links, ghost m: nat, deleted: set<nat>, dist: nat -> real,
                     maxDist: real,
                     ep: nat, ef: nat, level: nat, pool: VisitedListPool)
    returns (top: multiset<Entry>, ghost visited: set<nat>, ghost found: set<nat>)
    requires GoodLinks(links, m) && Exists(links, ep, level)
    requires pool.Valid() && |links| <= pool.numElements
    modifies pool.Repr
    ensures pool.Valid() && pool.lent == old(pool.lent) && fresh(pool.Repr - old(pool.Repr))
    ensures top == EntriesOf(dist, found)
    ensures found <= Reach(links, level, ep) * Live(links, hasDeletions, deleted)
    ensures ef > 0 ==> SearchResult(links, level, ep, Live(links, hasDeletions, deleted), dist, ef, visited, found)
  {
    hide SearchResult, EntriesOf, GoodLinks, Live, Reach;
    var vl := pool.GetFreeVisitedList();
    top, visited, found := SearchWith(hasDeletions, links, m, deleted, dist, maxDist, ep, ef, level, vl);
    pool.ReleaseVisitedList(vl);
  }

  lemma NeighborsExist(links: Links, m: nat, u: nat, level: nat)
    requires GoodLinks(links, m)
    ensures forall j | 0 <= j < |NeighborsAt(links, u, level)| ::
              NeighborsAt(links, u, level)[j] != u && Exists(links, NeighborsAt(links, u, level)[j], level)
  {
    if Exists(links, u, level) {
      assert GoodList(links, m, u, level);
    }
  }

  lemma Begin(links: Links, level: nat, ep: nat, dist: nat -> real, key: nat -> real, live: set<nat>, ef: nat,
              cands: multiset<Entry>, top: multiset<Entry>, lowerBound: real, kept: set<nat>)
    requires Exists(links, ep, level)
    requires cands == multiset{Entry(key(ep), ep)}
    requires if ep in live then kept == {ep} && top == multiset{Entry(dist(ep), ep)} && lowerBound == dist(ep)
        && key(ep) == -dist(ep)
             else kept == {} && top == multiset{}
    ensures Searching(links, level, ep, dist, key, live, ef, cands, top, lowerBound, {ep}, {}, {ep}, kept)
  {
    ReachStart(links, level, ep);
    EntriesAdd(key, {}, ep);
    EntriesAdd(dist, {}, ep);
    assert {} + {ep} == {ep};
  }

  lemma Take(links: Links, level: nat, ep: nat, dist: nat -> real, key: nat -> real, live: set<nat>, ef: nat,
             cands: multiset<Entry>, top: multiset<Entry>, lowerBound: real,
             visited: set<nat>, expanded: set<nat>, open: set<nat>, kept: set<nat>, current: Entry)
    requires Searching(links, level, ep, dist, key, live, ef, cands, top, lowerBound, visited, expanded, open, kept)
    requires current.id in open && current.dist == key(current.id)
    ensures Searching(links, level, ep, dist, key, live, ef, cands - multiset{current}, top, lowerBound,
                      visited, expanded + {current.id}, open - {current.id}, kept)
  {
    EntriesRemove(key, open, current.id);
    Expand(dist, live, ef, lowerBound, visited, expanded, open, kept, current.id);
  }
}
