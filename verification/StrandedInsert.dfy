/** A run of calls after which addPoint of hnswlib_omp/hnswalg.h reads the back of an empty vector.

    M = ef_construction = 2.  0 and 1 reach up to level 1; 2, 3, 4 and 5 lie close around 1, on level 0 only, and link
    to nothing but 1.  The last of them fills the list of 1, and the heuristic drops 0 from it.  Once 1 to 5 are marked
    deleted, an insertion next to them descends from 0 to 1, and from 1 only deleted elements can be reached on level
    0. */
module StrandedInsert {
  import opened Arith
  import opened Selection
  import opened Graph
  import opened LayerSearch
  import opened Heuristic
  import opened Connect
  import opened Descent
  import opened Insert
  import opened HnswData
  import opened Hnsw

  /** A star around 1, and 0 far away from it; everything from 2 on is a leaf. */
  function Distance(a: nat, b: nat): real {
    if a == b then 0.0
    else if a > b then Distance(b, a)
    else if a == 0 then (if b == 1 then 100.0 else 101.0)
    else if a == 1 then 1.0
    else 2.0
  }

  /** The first k elements. */
  function Vectors(k: nat): (r: seq<nat>)
    ensures |r| == k && forall i | 0 <= i < k :: r[i] == i
  {
    seq(k, i requires 0 <= i => i)
  }

  /** The lists of a graph, without their unused slots. */
  type Lists3 = seq<seq<seq<nat>>>

  ghost predicate Shows(links: Links, lists: Lists3) {
    && |links| == |lists| && (forall j | 0 <= j < |lists| :: |links[j]| == |lists[j]|)
    && forall j: nat, l: nat | j < |lists| && l < |lists[j]| :: NeighborsAt(links, j, l) == lists[j][l]
  }

  /** 0 and 1 linked on both levels, and the leaves 2, ..., k - 1 around 1. */
  function Star(k: nat): (r: Lists3)
    requires k >= 2
    ensures |r| == k && |r[0]| == |r[1]| == 2 && r[0][1] == [1] && r[1][1] == [0]
    ensures |r[1][0]| == k - 1 && forall x | x in r[1][0] :: x < k && x != 1
    ensures forall j | 2 <= j < k :: r[j] == [[1]]
    ensures r[0][0] == [1]
  {
    if k == 2 then [[[1], [1]], [[0], [0]]]
    else var r := Star(k - 1); r[1 := [r[1][0] + [k - 1], [0]]] + [[[1]]]
  }

  // ---------- What one insertion does ----------

  /** The heuristic keeps only `first` if that is the closest candidate and closer to every other than the query is. */
  lemma KeepsFirst(between: Between, dist: nat -> real, s: set<nat>, chosen: set<nat>, first: nat)
    requires Reselected(between, dist, s, 2, chosen) && first in s && |s| <= 2
    requires forall x | x in s && x != first :: dist(first) < dist(x) && between(first, x) < dist(x)
    ensures chosen == {first}
  {
    hide EntriesOf, HeuristicResult;
    EntriesSize(dist, s);
    EntriesMember(dist, s);
    EntriesMember(dist, chosen);
    var picks: seq<Entry> :| HeuristicResult(between, EntriesOf(dist, s), 2, EntriesOf(dist, chosen), picks);
    hide Reselected;
    OnlyFirstKept(between, EntriesOf(dist, s), EntriesOf(dist, chosen), picks, Entry(dist(first), first));
    forall x: nat
      ensures x in chosen <==> x == first
    {
      assert x in chosen <==> Entry(dist(x), x) in EntriesOf(dist, chosen);
    }
  }

  lemma OnlyFirstKept(between: Between, cands: multiset<Entry>, kept: multiset<Entry>, picks: seq<Entry>, first: Entry)
    requires HeuristicResult(between, cands, 2, kept, picks) && |cands| <= 2 && first in cands
        && forall c :: cands[c] <= 1
    requires forall c | c in cands && c != first :: first.dist < c.dist && between(first.id, c.id) < c.dist
    ensures kept == multiset{first}
  {
    hide Pruning;
    if |cands| < 2 {
      assert cands == multiset{first} + (cands - multiset{first});
    } else {
      OnlyFirst(between, cands, picks, first);
    }
  }

  lemma OnlyFirst(between: Between, cands: multiset<Entry>, picks: seq<Entry>, first: Entry)
    requires Pruning(between, cands, 2, picks) && first in cands && forall c :: cands[c] <= 1
    requires forall c | c in cands && c != first :: first.dist < c.dist && between(first.id, c.id) < c.dist
    ensures picks == [first]
  {
    hide Shadowed, NoneCloserThan;
    assert picks[0] in multiset(picks);
    assert picks[0] == first;
    SecondDiffers(cands, picks);
  }

  lemma SecondDiffers(cands: multiset<Entry>, picks: seq<Entry>)
    requires multiset(picks) <= cands && forall c :: cands[c] <= 1
    ensures |picks| == 2 ==> picks[1] in cands && picks[1] != picks[0]
  {
    if |picks| == 2 {
      assert picks == [picks[0], picks[1]];
      assert picks[1] in multiset(picks) && (picks[1] == picks[0] ==> multiset(picks)[picks[0]] == 2);
    }
  }

  /** A search that starts at a live node which is closer than all it can reach, and close to all it can reach, links
      the new element to just that node. */
  lemma LinksToStart(a: Stage, b: Stage, between: Between, dist: nat -> real, cur: nat, ep: nat, level: nat)
    requires LevelConnected(a, b, 2, 2, {}, between, dist, cur, ep, level) && Exists(a.links, a.currObj, level)
    requires forall x | x in Reach(a.links, level, a.currObj) && x != a.currObj ::
               dist(a.currObj) < dist(x) && between(a.currObj, x) < dist(x)
    ensures Linked(a.links, b.links, 2, between, cur, level, {a.currObj}, false) && b.currObj == a.currObj
  {
    hide Reach, Linked, Reselected;
    var live := Live(a.links, true, {});
    ReachStart(a.links, level, a.currObj);
    ReachExists(a.links, level, a.currObj);
    var visited, found, s :|
      && SearchResult(a.links, level, a.currObj, live, dist, 2, visited, found)
      && Offered(dist, found, ep, false, 2, s) && ConnectedTo(a, b, 2, between, dist, cur, level, s, false);
    assert a.currObj in Reach(a.links, level, a.currObj) * live;
    StartFound(a.links, level, a.currObj, live, dist, visited, found);
    var chosen :| chosen <= s && Reselected(between, dist, s, 2, chosen)
      && Linked(a.links, b.links, 2, between, cur, level, chosen, false) && b.currObj in chosen;
    KeepsFirst(between, dist, s, chosen, a.currObj);
  }

  lemma StartFound(links: Links, level: nat, start: nat, live: set<nat>, dist: nat -> real, visited: set<nat>,
                   found: set<nat>)
    requires SearchResult(links, level, start, live, dist, 2, visited, found) && start in live
    requires forall x | x in Reach(links, level, start) && x != start :: dist(start) < dist(x)
    ensures start in found && |found| <= 2
  {
    assert start in Reach(links, level, start) * live;
    hide Reach;
    assert found != {};
    var x :| x in found;
  }

  /** Only the lists of cur and c on this level differ. */
  ghost predicate Changed(lists: Lists3, lists': Lists3, cur: nat, c: nat, level: nat, listOfC: seq<nat>) {
    && cur != c && cur < |lists| && c < |lists| && level < |lists[cur]| && level < |lists[c]|
    && |lists'| == |lists| && (forall j | 0 <= j < |lists| :: |lists'[j]| == |lists[j]|)
    && lists'[cur][level] == [c] && lists'[c][level] == listOfC
    && forall j: nat, l: nat | j < |lists| && l < |lists[j]| && !(l == level && (j == cur || j == c)) ::
         lists'[j][l] == lists[j][l]
  }

  /** cur and c link to each other, and c still had room. */
  lemma LinkedWithRoom(before: Links, after: Links, lists: Lists3, lists': Lists3, between: Between, cur: nat, c: nat,
                       level: nat)
    requires Shows(before, lists) && Linked(before, after, 2, between, cur, level, {c}, false)
    requires c < |lists| && level < |lists[c]| && |lists[c][level]| < Capacity(2, level)
    requires Changed(lists, lists', cur, c, level, lists[c][level] + [cur])
    ensures Shows(after, lists')
  {
    SingleList(NeighborsAt(after, cur, level), c);
    OthersStay(before, after, lists, between, cur, c, level);
  }

  /** cur and c link to each other, and the heuristic had to choose for c. */
  lemma LinkedFull(before: Links, after: Links, lists: Lists3, between: Between, cur: nat, c: nat, level: nat)
    returns (t: set<nat>)
    requires Shows(before, lists) && Linked(before, after, 2, between, cur, level, {c}, false)
    requires cur != c && cur < |lists| && c < |lists| && level < |lists[cur]| && level < |lists[c]|
    requires |lists[c][level]| == Capacity(2, level)
    ensures NeighborsAt(after, cur, level) == [c]
        && SetOf(NeighborsAt(after, c, level)) == t <= SetOf(lists[c][level]) + {cur}
    ensures Reselected(between, DistTo(between, c), SetOf(lists[c][level]) + {cur}, Capacity(2, level), t)
  {
    hide Reselected;
    SingleList(NeighborsAt(after, cur, level), c);
    assert BackLinked(between, lists[c][level], NeighborsAt(after, c, level), c, cur, Capacity(2, level), false);
    t :| Lists(NeighborsAt(after, c, level), t) && t <= SetOf(lists[c][level]) + {cur}
      && Reselected(between, DistTo(between, c), SetOf(lists[c][level]) + {cur}, Capacity(2, level), t);
  }

  lemma SingleList(ids: seq<nat>, x: nat)
    requires Lists(ids, {x})
    ensures ids == [x]
  {
    assert ids[0] in ids;
  }

  lemma OthersStay(before: Links, after: Links, lists: Lists3, between: Between, cur: nat, c: nat, level: nat)
    requires Shows(before, lists) && Linked(before, after, 2, between, cur, level, {c}, false)
    ensures |after| == |lists| && forall j | 0 <= j < |lists| :: |after[j]| == |lists[j]|
    ensures forall j: nat, l: nat | j < |lists| && l < |lists[j]| && !(l == level && (j == cur || j == c)) ::
              NeighborsAt(after, j, l) == lists[j][l]
  {
    forall j: nat, l: nat | j < |lists| && l < |lists[j]| && !(l == level && (j == cur || j == c))
      ensures NeighborsAt(after, j, l) == lists[j][l]
    {
      assert Exists(before, j, l) && after[j][l] == before[j][l];
    }
  }

  lemma BlankShows(links: Links, lists: Lists3, blank: seq<seq<nat>>, level: nat)
    requires Shows(links, lists) && |blank| == level + 1 && forall l | 0 <= l <= level :: blank[l] == []
    ensures Shows(links + [BlankLists(2, level)], lists + [blank])
  {
  }

  // ---------- The elements, one after the other ----------

  /** The descent from 0 steps over to 1 and stays there. */
  lemma LandsOnOne(links: Links, k: nat, vec: nat)
    requires k >= 2 && vec >= 2 && |links| == k && NeighborsAt(links, 0, 1) == [1] && NeighborsAt(links, 1, 1) == [0]
    ensures Landing(links, ToQuery(Distance, Vectors(k), vec), 0, 1, 0) == 1
  {
    var dist := ToQuery(Distance, Vectors(k), vec);
    assert Vectors(k)[0] == 0 && Vectors(k)[1] == 1;
    assert dist(0) == Distance(vec, 0) == Distance(0, vec) && dist(1) == Distance(vec, 1) == Distance(1, vec);
    assert Scanned(dist, 0, [1]) == 1 && Scanned(dist, 1, [0]) == 1;
    assert Greedy(links, 1, dist, 1) == 1;
    assert 1 in CloserThan(links, dist, dist(0)) && 1 !in CloserThan(links, dist, dist(1));
    assert Greedy(links, 1, dist, 0) == 1;
    assert Landing(links, dist, 1, 0, 0) == 1;
  }

  /** 1, on levels 1 and 0. */
  lemma SecondElement(before: Links, after: Links, between: Between, dist: nat -> real)
    requires Shows(before, [[[], []], [[], []]]) && Inserted(before, after, 2, 2, {}, between, dist, 1, 0, 0, 1)
    ensures Shows(after, Star(2))
  {
    hide LevelConnected, Shows;
    var stages: seq<Stage> :|
      && LevelsConnected(stages, 2, 2, {}, between, dist, 1, 0, 1) && |stages| == 3
      && stages[0] == Stage(before, 0) && stages[2].links == after;
    FirstPair(stages[0], stages[1], [[[], []], [[], []]], [[[], [1]], [[], [0]]], between, dist, 1);
    FirstPair(stages[1], stages[2], [[[], [1]], [[], [0]]], [[[1], [1]], [[0], [0]]], between, dist, 0);
  }

  /** On each level 1 finds only 0, which has no list yet. */
  lemma FirstPair(a: Stage, b: Stage, lists: Lists3, lists': Lists3, between: Between, dist: nat -> real, level: nat)
    requires Shows(a.links, lists) && a.currObj == 0 && LevelConnected(a, b, 2, 2, {}, between, dist, 1, 0, level)
    requires |lists| == 2 && level < |lists[0]| && level < |lists[1]| && lists[0][level] == []
    requires |lists[0][level]| < Capacity(2, level) && Changed(lists, lists', 1, 0, level, lists[0][level] + [1])
    ensures Shows(b.links, lists') && b.currObj == 0
  {
    hide *;
    NobodyLinked(a.links, lists, level);
    LinksToStart(a, b, between, dist, 1, 0, level);
    LinkedWithRoom(a.links, b.links, lists, lists', between, 1, 0, level);
  }

  lemma NobodyLinked(links: Links, lists: Lists3, level: nat)
    requires Shows(links, lists) && |lists| > 0 && level < |lists[0]| && lists[0][level] == []
    ensures Exists(links, 0, level) && Reach(links, level, 0) <= {0}
  {
    hide Reach;
    ReachWithin(links, level, 0, {0});
  }

  /** An insertion on level 0 that starts at `start`, from where nothing outside s can be reached. */
  lemma OneLevel(before: Links, after: Links, between: Between, dist: nat -> real, cur: nat, ep: nat, start: nat,
                 s: set<nat>)
    requires Inserted(before, after, 2, 2, {}, between, dist, cur, ep, start, 0) && Exists(before, start, 0)
    requires start in s && ClosedUnderLinks(before, 0, s)
    requires forall x | x in s && x != start :: dist(start) < dist(x) && between(start, x) < dist(x)
    ensures Linked(before, after, 2, between, cur, 0, {start}, false)
  {
    hide LevelConnected, Linked, Reach;
    var stages: seq<Stage> :|
      && LevelsConnected(stages, 2, 2, {}, between, dist, cur, ep, 0) && |stages| == 2
      && stages[0] == Stage(before, start) && stages[1].links == after;
    ReachWithin(before, 0, start, s);
    LinksToStart(stages[0], stages[1], between, dist, cur, ep, 0);
  }

  /** The leaf k links to 1 alone. */
  lemma LeafLinks(before: Links, after: Links, k: nat)
    requires 2 <= k && Shows(before, Star(k) + [[[]]])
    requires Inserted(before, after, 2, 2, {}, BetweenOf(Distance, Vectors(k + 1)),
                      ToQuery(Distance, Vectors(k + 1), k), k, 0, 1, 0)
    ensures Linked(before, after, 2, BetweenOf(Distance, Vectors(k + 1)), k, 0, {1}, false)
  {
    hide Inserted, Linked, Star, Distance, Vectors, Shows, Below;
    LeafDistances(k);
    LeafClosed(before, k, Below(k));
    OneLevel(before, after, BetweenOf(Distance, Vectors(k + 1)), ToQuery(Distance, Vectors(k + 1), k), k, 0, 1,
             Below(k));
  }

  lemma LeafDistances(k: nat)
    requires 2 <= k
    ensures var between, dist := BetweenOf(Distance, Vectors(k + 1)), ToQuery(Distance, Vectors(k + 1), k);
      forall x: nat | x < k && x != 1 :: dist(1) < dist(x) && between(1, x) < dist(x)
  {
    var between, dist := BetweenOf(Distance, Vectors(k + 1)), ToQuery(Distance, Vectors(k + 1), k);
    forall x: nat | x < k && x != 1
      ensures dist(1) < dist(x) && between(1, x) < dist(x)
    {
      assert dist(1) == Distance(k, 1) == Distance(1, k) == 1.0;
      assert dist(x) == Distance(k, x) == Distance(x, k);
      assert between(1, x) == Distance(1, x);
    }
  }

  lemma LeafClosed(before: Links, k: nat, known: set<nat>)
    requires 2 <= k && Shows(before, Star(k) + [[[]]]) && forall x: nat :: x in known <==> x < k
    ensures ClosedUnderLinks(before, 0, known) && Exists(before, 1, 0)
  {
    var lists := Star(k) + [[[]]];
    forall x, y | x in known && y in NeighborsAt(before, x, 0)
      ensures y in known
    {
      assert NeighborsAt(before, x, 0) == lists[x][0];
    }
  }

  /** Up to four in the list of 1: the leaf is added to it. */
  lemma LeafWithRoom(before: Links, after: Links, k: nat)
    requires 2 <= k < 5 && Shows(before, Star(k) + [[[]]])
    requires Inserted(before, after, 2, 2, {}, BetweenOf(Distance, Vectors(k + 1)),
                      ToQuery(Distance, Vectors(k + 1), k), k, 0, 1, 0)
    ensures Shows(after, Star(k + 1))
  {
    hide Inserted, Linked, Shows, Distance, Vectors;
    LeafLinks(before, after, k);
    LinkedWithRoom(before, after, Star(k) + [[[]]], Star(k + 1), BetweenOf(Distance, Vectors(k + 1)), k, 1, 0);
  }

  /** The lists with 0 gone from that of 1. */
  ghost predicate Dropped(links: Links) {
    && |links| == 6 && |links[0]| == |links[1]| == 2 && NeighborsAt(links, 0, 1) == [1]
         && NeighborsAt(links, 1, 1) == [0]
    && (forall y | y in NeighborsAt(links, 1, 0) :: 2 <= y < 6)
         && forall j | 2 <= j < 6 :: NeighborsAt(links, j, 0) == [1]
  }

  /** The fifth is one too many, and 0 is the farthest. */
  lemma LastLeaf(before: Links, after: Links)
    requires Shows(before, Star(5) + [[[]]])
    requires Inserted(before, after, 2, 2, {}, BetweenOf(Distance, Vectors(6)), ToQuery(Distance, Vectors(6), 5), 5, 0,
                      1, 0)
    ensures Dropped(after)
  {
    hide *;
    LeafLinks(before, after, 5);
    FourLeaves();
    ListsOfFive();
    OthersStay(before, after, Star(5) + [[[]]], BetweenOf(Distance, Vectors(6)), 5, 1, 0);
    var t := LinkedFull(before, after, Star(5) + [[[]]], BetweenOf(Distance, Vectors(6)), 5, 1, 0);
    DropsFarthest(BetweenOf(Distance, Vectors(6)), DistTo(BetweenOf(Distance, Vectors(6)), 1), t);
    NowDropped(after, Star(5) + [[[]]], t);
  }

  lemma ListsOfFive()
    ensures var lists := Star(5) + [[[]]];
      && |lists| == 6 && |lists[5]| == 1 && lists[1] == Star(5)[1] && |lists[1]| == 2
           && |lists[1][0]| == Capacity(2, 0) == 4
      && |lists[0]| == 2 && lists[0][1] == [1] && lists[1][1] == [0] && forall j | 2 <= j < 5 :: lists[j] == [[1]]
  {
    hide Star;
  }

  lemma NowDropped(after: Links, lists: Lists3, t: set<nat>)
    requires |after| == 6 == |lists| && forall j | 0 <= j < 6 :: |after[j]| == |lists[j]|
    requires |lists[0]| == |lists[1]| == 2 && lists[0][1] == [1] && lists[1][1] == [0]
        && forall j | 2 <= j < 5 :: lists[j] == [[1]]
    requires forall j: nat, l: nat | j < |lists| && l < |lists[j]| && !(l == 0 && (j == 5 || j == 1)) ::
        NeighborsAt(after, j, l) == lists[j][l]
    requires NeighborsAt(after, 5, 0) == [1] && SetOf(NeighborsAt(after, 1, 0)) == t <= {0, 2, 3, 4, 5} && 0 !in t
    ensures Dropped(after)
  {
    forall y | y in NeighborsAt(after, 1, 0)
      ensures 2 <= y < 6
    {
      assert y in SetOf(NeighborsAt(after, 1, 0));
    }
  }

  lemma FourLeaves()
    ensures Star(5)[1][0] == [0, 2, 3, 4] && SetOf(Star(5)[1][0]) + {5} == {0, 2, 3, 4, 5}
  {
    assert Star(2)[1][0] == [0];
    assert Star(3)[1][0] == [0, 2];
    assert Star(4)[1][0] == [0, 2, 3];
    assert Star(5)[1][0] == [0, 2, 3, 4];
  }

  /** Of five candidates the heuristic keeps four; 0 is the farthest, and none of the others makes way for it. */
  lemma DropsFarthest(between: Between, key: nat -> real, t: set<nat>)
    requires between == BetweenOf(Distance, Vectors(6)) && key == DistTo(between, 1)
    requires Reselected(between, key, {0, 2, 3, 4, 5}, 4, t)
    ensures 0 !in t
  {
    hide EntriesOf, HeuristicResult;
    EntriesMember(key, t);
    var picks: seq<Entry> :| HeuristicResult(between, EntriesOf(key, {0, 2, 3, 4, 5}), 4, EntriesOf(key, t), picks);
    StarDistances();
    hide Reselected, Distance, Vectors, BetweenOf;
    EntriesSize(key, {0, 2, 3, 4, 5});
    EntriesMember(key, {0, 2, 3, 4, 5});
    FarthestOut(between, key, EntriesOf(key, {0, 2, 3, 4, 5}), EntriesOf(key, t), picks);
  }

  lemma FarthestOut(between: Between, key: nat -> real, cands: multiset<Entry>, kept: multiset<Entry>,
                    picks: seq<Entry>)
    requires HeuristicResult(between, cands, 4, kept, picks) && |cands| == 5
    requires forall e :: e in cands <==> e.id in {0, 2, 3, 4, 5} && e.dist == key(e.id)
    requires key(0) == 100.0 && forall c: nat | 2 <= c < 6 :: key(c) == 1.0
    requires forall a: nat, c: nat | a < 6 && a != 1 && 2 <= c < 6 && a != c :: between(a, c) >= 2.0
    ensures Entry(100.0, 0) !in kept
  {
    hide Shadowed, NoneCloserThan, Diverse;
    if Entry(100.0, 0) in multiset(picks) {
      var c := SomeLeafMissing(cands, picks);
      assert c in cands - multiset(picks);
      NotShadowed(between, picks, c);
    }
  }

  lemma StarDistances()
    ensures var between := BetweenOf(Distance, Vectors(6));
      between(0, 1) == 100.0 && forall c: nat | 2 <= c < 6 :: between(c, 1) == 1.0
    ensures var between := BetweenOf(Distance, Vectors(6));
      forall a: nat, c: nat | a < 6 && a != 1 && 2 <= c < 6 && a != c :: between(a, c) >= 2.0
  {
    var between := BetweenOf(Distance, Vectors(6));
    forall a: nat, c: nat | a < 6 && a != 1 && 2 <= c < 6 && a != c
      ensures between(a, c) >= 2.0
    {
      assert between(a, c) == Distance(a, c);
      assert a > c ==> Distance(a, c) == Distance(c, a);
    }
    forall c: nat | 2 <= c < 6
      ensures between(c, 1) == 1.0
    {
      assert between(c, 1) == Distance(c, 1) == Distance(1, c);
    }
    assert between(0, 1) == Distance(0, 1);
  }

  lemma SomeLeafMissing(cands: multiset<Entry>, picks: seq<Entry>) returns (c: Entry)
    requires multiset(picks) <= cands && |picks| <= 4 && Entry(100.0, 0) in multiset(picks)
    requires forall x: nat | 2 <= x < 6 :: Entry(1.0, x) in cands
    ensures c in cands && c !in multiset(picks) && c.dist == 1.0 && 2 <= c.id < 6
  {
    var five := multiset{Entry(100.0, 0), Entry(1.0, 2), Entry(1.0, 3), Entry(1.0, 4), Entry(1.0, 5)};
    SmallerBag(five, multiset(picks));
    assert exists x: nat :: 2 <= x < 6 && Entry(1.0, x) !in multiset(picks);
    var x: nat :| 2 <= x < 6 && Entry(1.0, x) !in multiset(picks);
    c := Entry(1.0, x);
  }

  lemma SmallerBag(a: multiset<Entry>, b: multiset<Entry>)
    ensures |a| > |b| ==> exists e :: e in a && a[e] > b[e]
  {
    if forall e :: e in a ==> a[e] <= b[e] {
      assert b == a + (b - a);
    }
  }

  lemma NotShadowed(between: Between, picks: seq<Entry>, c: Entry)
    requires c.dist == 1.0 && 2 <= c.id < 6 && Entry(100.0, 0) in multiset(picks)
    requires forall a: nat, c: nat | a < 6 && a != 1 && 2 <= c < 6 && a != c :: between(a, c) >= 2.0
    requires forall e | e in multiset(picks) :: e.id in {0, 2, 3, 4, 5} && e.id != c.id
    ensures !Shadowed(between, picks, c) && !NoneCloserThan(picks, c)
  {
    forall a | 0 <= a < |picks|
      ensures between(picks[a].id, c.id) >= 1.0
    {
      assert picks[a] in multiset(picks);
    }
    var a :| 0 <= a < |picks| && picks[a] == Entry(100.0, 0);
  }

  /** From 1, level 0 leads only to deleted elements. */
  lemma NobodyLeft(links: Links)
    requires Dropped(links)
    ensures Stranded(links, {1, 2, 3, 4, 5}, ToQuery(Distance, Vectors(6), 6), 0, 1, 0)
  {
    LandsOnOne(links, 6, 6);
    hide Reach, Landing, ToQuery, Vectors;
    ReachWithin(links, 0, 1, {1, 2, 3, 4, 5});
    assert Reach(links, 0, 1) * Live(links, true, {1, 2, 3, 4, 5}) == {};
  }

  // ---------- The run ----------

  lemma NewLabel(labels: seq<nat>, labelLookup: map<nat, nat>, lbl: nat)
    requires LabelsMatch(labels, labelLookup) && lbl !in labels
    ensures lbl !in labelLookup
  {
  }

  /** The index after k insertions, except for its graph. */
  ghost predicate Holds(index: HierarchicalNSW<nat>, k: nat)
    reads index, index.visitedListPool, index.visitedListPool.Repr
  {
    && index.Valid() && index.metric == Distance && index.m == 2 && index.efConstruction == 2 && index.maxElements == 7
    && index.vectors == Vectors(k) && index.labels == Vectors(k) && index.deleted == {} && index.enterpoint == 0
         && index.maxlevel == 1
  }

  method FirstElement() returns (index: HierarchicalNSW<nat>)
    ensures fresh(index) && fresh(index.visitedListPool.Repr)
    ensures Holds(index, 1) && Shows(index.links, [[[], []]])
  {
    index := new HierarchicalNSW<nat>(Distance, 1000.0, 7, 2, 2);
    NewLabel(index.labels, index.labelLookup, 0);
    BlankShows([], [], [[], []], 1);
    hide HierarchicalNSW.Core, EntryOk, Shows, Inserted, OnlyGains;
    var r := index.AddPoint(0, 0, 1);
    assert r == Added(0);
  }

  /** Element k, under the label k, as long as nothing is deleted. */
  method Add(index: HierarchicalNSW<nat>, k: nat, level: nat, ghost lists: Lists3, ghost blank: seq<seq<nat>>)
    returns (ghost before: Links)
    requires Holds(index, k) && Shows(index.links, lists) && 0 < k < 7 && level <= 1
    requires |blank| == level + 1 && forall l | 0 <= l <= level :: blank[l] == []
    modifies index, index.visitedListPool.Repr
    ensures fresh(index.visitedListPool.Repr - old(index.visitedListPool.Repr))
    ensures Holds(index, k + 1) && Shows(before, lists + [blank])
    ensures Inserted(before, index.links, 2, 2, {}, BetweenOf(Distance, Vectors(k + 1)),
                     ToQuery(Distance, Vectors(k + 1), k), k, 0,
                     Landing(old(index.links), ToQuery(Distance, Vectors(k), k), 0, 1, level), level)
  {
    NewLabel(index.labels, index.labelLookup, k);
    BlankShows(index.links, lists, blank, level);
    hide HierarchicalNSW.Core, EntryOk, Shows, Inserted, OnlyGains, Landing, Stranded;
    before := index.links + [BlankLists(2, level)];
    assert Vectors(k + 1) == Vectors(k) + [k];
    var r := index.AddPoint(k, k, level);
    assert r == Added(k);
  }

  /** 0, 1 and the leaves 2, 3 and 4. */
  method FiveElements() returns (index: HierarchicalNSW<nat>)
    ensures fresh(index) && fresh(index.visitedListPool.Repr)
    ensures Holds(index, 5) && Shows(index.links, Star(5))
  {
    hide *;
    index := TwoElements();
    for k := 2 to 5
      invariant fresh(index) && fresh(index.visitedListPool.Repr)
      invariant Holds(index, k) && Shows(index.links, Star(k))
    {
      LandsInStar(index.links, k);
      ghost var before := Add(index, k, 0, Star(k), [[]]);
      LeafWithRoom(before, index.links, k);
    }
  }

  lemma LandsInStar(links: Links, k: nat)
    requires 2 <= k && Shows(links, Star(k))
    ensures Landing(links, ToQuery(Distance, Vectors(k), k), 0, 1, 0) == 1
  {
    assert NeighborsAt(links, 0, 1) == [1] && NeighborsAt(links, 1, 1) == [0];
    LandsOnOne(links, k, k);
  }

  method TwoElements() returns (index: HierarchicalNSW<nat>)
    ensures fresh(index) && fresh(index.visitedListPool.Repr)
    ensures Holds(index, 2) && Shows(index.links, Star(2))
  {
    hide *;
    index := FirstElement();
    NoDescent(index.links, ToQuery(Distance, Vectors(1), 1), 0, 1);
    ghost var none: Lists3 := [[[], []]];
    ghost var before := Add(index, 1, 1, none, [[], []]);
    assert none + [[[], []]] == [[[], []], [[], []]];
    SecondElement(before, index.links, BetweenOf(Distance, Vectors(2)), ToQuery(Distance, Vectors(2), 1));
  }

  lemma LookedUp(index: HierarchicalNSW<nat>, k: nat)
    requires Holds(index, k)
    ensures k !in index.labelLookup && forall l: nat | l < k :: l in index.labelLookup && index.labelLookup[l] == l
    ensures |index.vectors| == k
  {
    hide GoodLinks, LevelsMatch, EntryOk;
    NewLabel(index.labels, index.labelLookup, k);
    forall l: nat | l < k
      ensures l in index.labelLookup && index.labelLookup[l] == l
    {
      assert index.labels[l] == l;
    }
  }

  lemma IsStored(index: HierarchicalNSW<nat>, l: nat)
    requires l < |index.vectors| && l in index.labelLookup && index.labelLookup[l] == l && l !in index.deleted
    ensures l in index.Stored()
  {
  }

  method DeleteAllButFirst(index: HierarchicalNSW<nat>)
    requires index.Valid() && index.deleted == {}
    requires |index.vectors| == 6 && forall l: nat | l < 6 :: l in index.labelLookup && index.labelLookup[l] == l
    modifies index`deleted, index`numDeleted
    ensures index.Valid() && index.deleted == {1, 2, 3, 4, 5}
  {
    hide *;
    for l := 1 to 6
      invariant index.Valid() && forall x: nat :: x in index.deleted <==> 1 <= x < l
    {
      IsStored(index, l);
      var ok := index.MarkDelete(l);
    }
  }

  /** The whole run, from an empty index and through the methods of the index only: the last insertion finds no
      candidate. */
  method InsertNextToDeleted() returns (r: Outcome)
    ensures r == NoCandidate
  {
    hide *;
    var index := FiveElements();
    LandsInStar(index.links, 5);
    ghost var before := Add(index, 5, 0, Star(5), [[]]);
    LastLeaf(before, index.links);
    LookedUp(index, 6);
    NobodyLeft(index.links);
    HoldsMore(index);
    DeleteAllButFirst(index);
    r := index.AddPoint(6, 6, 0);
  }

  lemma HoldsMore(index: HierarchicalNSW<nat>)
    requires Holds(index, 6)
    ensures index.Valid() && index.metric == Distance && index.maxElements == 7 && index.vectors == Vectors(6)
    ensures index.deleted == {} && index.enterpoint == 0 && index.maxlevel == 1
  {
  }
}
