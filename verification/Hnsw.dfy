/** The HNSW index of hnswlib_omp/hnswalg.h as a mutable object: addPoint, markDelete, unmarkDelete and searchKnn. */
module Hnsw {
  import opened Selection
  import opened Graph
  import opened VisitedLists
  import opened LayerSearch
  import opened Heuristic
  import opened Connect
  import opened Descent
  import opened Insert
  import opened Update
  import opened HnswData
  import opened KnnSearch
  import BruteForce

  /** What addPoint came to.  NoCandidate stands for the undefined `selectedNeighbors.back()` on an empty vector. */
  datatype Outcome = Added(id: nat) | Updated(id: nat) | Full | NoCandidate

  class HierarchicalNSW<Vec> {
    const metric: Metric<Vec>
    const maxDist: real
    const maxElements: nat
    const m: nat
    const efConstruction: nat
    const visitedListPool: VisitedListPool
    var ef: nat
    var vectors: seq<Vec>
    var labels: seq<nat>
    var levels: seq<nat>
    var links: Links
    var labelLookup: map<nat, nat>
    var deleted: set<nat>
    var numDeleted: nat
    var enterpoint: int
    var maxlevel: int

    /** The constants, the memory, and the graph; everything except where a search starts. */
    ghost predicate Core()
      reads this, visitedListPool, visitedListPool.Repr
    {
      && 0 < m <= efConstruction && 2 * m < 65536
      && this !in visitedListPool.Repr && visitedListPool.Valid()
      && visitedListPool.numElements == maxElements && visitedListPool.lent == {}
      && |vectors| == |labels| == |levels| <= maxElements
      && LevelsMatch(links, levels) && GoodLinks(links, m)
      && LabelsMatch(labels, labelLookup)
      && (forall i | i in deleted :: i < |vectors|) && numDeleted == |deleted|
    }

    ghost predicate Valid()
      reads this, visitedListPool, visitedListPool.Repr
    {
      Core() && EntryOk(levels, enterpoint, maxlevel)
    }

    /** The vectors that are not marked deleted, by label. */
    ghost function Stored(): map<nat, Vec>
      reads this
    {
      StoredVectors(vectors, labelLookup, deleted)
    }

    constructor (metric: Metric<Vec>, maxDist: real, maxElements: nat, m: nat, efConstruction: nat)
      requires 0 < m && 2 * m < 65536
      ensures Valid() && fresh(visitedListPool.Repr) && Stored() == map[]
      ensures this.metric == metric && this.maxElements == maxElements && this.m == m
      ensures this.efConstruction == (if efConstruction < m then m else efConstruction) && ef == 10
      ensures vectors == [] && labels == [] && links == [] && deleted == {}
    {
      this.metric, this.maxDist, this.maxElements, this.m := metric, maxDist, maxElements, m;
      this.efConstruction := if efConstruction < m then m else efConstruction;
      visitedListPool := new VisitedListPool(1, maxElements);
      ef := 10;
      vectors, labels, levels, links := [], [], [], [];
      labelLookup, deleted, numDeleted := map[], {}, 0;
      enterpoint, maxlevel := -1, -1;
    }

    /** M slots per list above the base level, twice as many on it; a list is as long as its count says. */
    lemma ListSizes(i: nat, level: nat)
      requires Valid() && Exists(links, i, level)
      ensures |links[i][level].slots| == (if level > 0 then m else 2 * m)
      ensures |NeighborsAt(links, i, level)| == links[i][level].count <= (if level > 0 then m else 2 * m)
    {
      assert GoodList(links, m, i, level);
    }

    method SetEf(ef: nat)
      requires Valid()
      modifies this`ef
      ensures Valid() && this.ef == ef
    {
      this.ef := ef;
    }

    /** Marks an element; refuses an unknown label and an element that is already marked. */
    method MarkDelete(lbl: nat) returns (ok: bool)
      requires Valid()
      modifies this`deleted, this`numDeleted
      ensures Valid()
      ensures ok <==> lbl in old(Stored())
      ensures Stored() == old(Stored()) - {lbl}
      ensures deleted == old(deleted) + (if ok then {labelLookup[lbl]} else {})
    {
      hide GoodLinks, LevelsMatch, EntryOk;
      if lbl !in labelLookup || labelLookup[lbl] in deleted {
        return false;
      }
      deleted, numDeleted := deleted + {labelLookup[lbl]}, numDeleted + 1;
      return true;
    }

    /** Removes the mark; refuses an unknown label and an element that is not marked. */
    method UnmarkDelete(lbl: nat) returns (ok: bool)
      requires Valid()
      modifies this`deleted, this`numDeleted
      ensures Valid()
      ensures ok <==> lbl in labelLookup && lbl !in old(Stored())
      ensures ok ==> Stored() == old(Stored())[lbl := vectors[labelLookup[lbl]]]
      ensures !ok ==> Stored() == old(Stored())
    {
      if lbl !in labelLookup || labelLookup[lbl] !in deleted {
        return false;
      }
      var id := labelLookup[lbl];
      deleted, numDeleted := deleted - {id}, numDeleted - 1;
      return true;
    }

    /** Inserts a vector under a new label, or replaces the vector of a known one.
        `level` is the level drawn (or given) for a new element. */
    method AddPoint(vec: Vec, lbl: nat, level: nat) returns (r: Outcome)
      requires Valid()
      modifies this, visitedListPool.Repr
      ensures fresh(visitedListPool.Repr - old(visitedListPool.Repr))
      ensures !r.NoCandidate? ==> Valid()
      ensures Stored() == if r.Full? then old(Stored()) else old(Stored())[lbl := vec]
      // exactly which outcome
      ensures r.Updated? <==> lbl in old(labelLookup)
      ensures r.Full? <==> lbl !in old(labelLookup) && |old(vectors)| >= maxElements
      ensures r.NoCandidate? <==>
        lbl !in old(labelLookup) && |old(vectors)| < maxElements
        && Stranded(old(links), old(deleted), ToQuery(metric, old(vectors), vec), old(enterpoint), old(maxlevel), level)
      ensures r.NoCandidate? ==> old(deleted) != {} && links == old(links) + [BlankLists(m, level)]
      // a new element
      ensures r.Added? ==> r.id == |old(vectors)| && levels == old(levels) + [level]
      ensures r.Added? ==> vectors == old(vectors) + [vec] && labels == old(labels) + [lbl] && deleted == old(deleted)
      ensures r.Added? ==> maxlevel == (if level > old(maxlevel) then level else old(maxlevel))
      ensures r.Added? ==> enterpoint == (if level > old(maxlevel) then r.id else old(enterpoint))
      ensures r.Added? ==> forall l: nat | l <= level && l <= old(maxlevel) :: Connected(links, m, r.id, l)
      ensures r.Added? ==> OnlyGains(old(links) + [BlankLists(m, level)], links, r.id)
      ensures r.Added? && old(enterpoint) == -1 ==> links == old(links) + [BlankLists(m, level)]
      // level by level, what it searched, chose and linked, from where the descent lands
      ensures r.Added? && old(enterpoint) >= 0 ==>
        Inserted(old(links) + [BlankLists(m, level)], links, m, efConstruction, deleted, BetweenOf(metric, vectors),
                 ToQuery(metric, vectors, vec),
                 r.id, old(enterpoint),
                 Landing(old(links), ToQuery(metric, old(vectors), vec), old(enterpoint), old(maxlevel),
                         Min(level, old(maxlevel))),
                 Min(level, old(maxlevel)))
      // an update
      ensures r.Updated? ==> r.id == old(labelLookup)[lbl] && levels == old(levels)
      ensures r.Updated? ==>
        vectors == old(vectors)[r.id := vec] && labels == old(labels) && deleted == old(deleted) - {r.id}
      ensures r.Updated? ==> enterpoint == old(enterpoint) && maxlevel == old(maxlevel)
      ensures r.Updated? && (enterpoint != r.id || |vectors| > 1) ==>
        Reconnected(old(links), links, m, efConstruction, deleted, BetweenOf(metric, vectors),
                    ToQuery(metric, vectors, vec),
                    r.id, enterpoint, maxlevel, levels[r.id])
      ensures r.Updated? && enterpoint == r.id && |vectors| == 1 ==> links == old(links)
    {
      hide Inserted, Stranded, Reconnected, OnlyGains, Connected, GoodLinks, BlankLists, LevelsMatch, Landing, EntryOk;
      if lbl in labelLookup {
        var existing := labelLookup[lbl];
        StoredOverwrite(vectors, labels, labelLookup, deleted, vec, lbl);
        if existing in deleted {
          deleted, numDeleted := deleted - {existing}, numDeleted - 1;
        }
        assert deleted == old(deleted) - {existing};
        UpdatePoint(vec, existing);
        return Updated(existing);
      }
      if |vectors| >= maxElements {
        return Full;
      }
      r := InsertNew(vec, lbl, level);
    }

    /** Everything addPoint does for a label it does not know. */
    method InsertNew(vec: Vec, lbl: nat, level: nat) returns (r: Outcome)
      requires Valid() && lbl !in labelLookup && |vectors| < maxElements
      modifies this, visitedListPool.Repr
      ensures fresh(visitedListPool.Repr - old(visitedListPool.Repr))
      ensures r == Added(|old(vectors)|) || r.NoCandidate?
      ensures r.NoCandidate? <==>
        Stranded(old(links), old(deleted), ToQuery(metric, old(vectors), vec), old(enterpoint), old(maxlevel), level)
      ensures r.NoCandidate? ==> old(deleted) != {} && links == old(links) + [BlankLists(m, level)]
      ensures r.Added? ==> Valid()
      ensures Stored() == old(Stored())[lbl := vec]
      ensures r.Added? ==> levels == old(levels) + [level]
      ensures vectors == old(vectors) + [vec] && labels == old(labels) + [lbl] && deleted == old(deleted)
      ensures r.Added? ==> maxlevel == (if level > old(maxlevel) then level else old(maxlevel))
      ensures r.Added? ==> enterpoint == (if level > old(maxlevel) then r.id else old(enterpoint))
      ensures r.Added? ==> forall l: nat | l <= level && l <= old(maxlevel) :: Connected(links, m, r.id, l)
      ensures r.Added? ==> OnlyGains(old(links) + [BlankLists(m, level)], links, r.id)
      ensures r.Added? && old(enterpoint) == -1 ==> links == old(links) + [BlankLists(m, level)]
      ensures r.Added? && old(enterpoint) >= 0 ==>
        Inserted(old(links) + [BlankLists(m, level)], links, m, efConstruction, deleted, BetweenOf(metric, vectors),
                 ToQuery(metric, vectors, vec),
                 r.id, old(enterpoint),
                 Landing(old(links), ToQuery(metric, old(vectors), vec), old(enterpoint), old(maxlevel),
                         Min(level, old(maxlevel))),
                 Min(level, old(maxlevel)))
    {
      hide GoodLinks, OnlyGains, Connected, Blank, Unlinked, StoredVectors, LabelsMatch, BlankLists, LevelsMatch,
          Inserted, NobodyToOffer, Landing, Stranded, EntryOk;
      assert |levels| == |vectors|;
      hide HierarchicalNSW.Core;
      var cur := |vectors|;
      var maxlevelcopy := maxlevel;
      BeforeAppending(vec, level);
      EntryAppend(levels, enterpoint, maxlevel, level);
      AppendElement(vec, lbl, level);
      var ok := true;
      if enterpoint != -1 {
        ok := ConnectNew(vec, cur, level);
      } else {
        NothingChanged(links, cur, level);
        enterpoint, maxlevel := 0, level;
      }
      if !ok {
        return NoCandidate;
      }
      if level > maxlevelcopy {
        enterpoint, maxlevel := cur, level;
      }
      r := Added(cur);
    }

    /** What the new element, which nobody links to yet, changes about the descent and about who can be reached:
        nothing. */
    lemma BeforeAppending(vec: Vec, level: nat)
      requires Valid()
      ensures enterpoint < 0 ==> !Stranded(links, deleted, ToQuery(metric, vectors, vec), enterpoint, maxlevel, level)
      ensures enterpoint >= 0 ==>
        var after, target := links + [BlankLists(m, level)], Min(level, maxlevel);
        var landing := Landing(links, ToQuery(metric, vectors, vec), enterpoint, maxlevel, target);
        && Landing(after, ToQuery(metric, vectors + [vec], vec), enterpoint, maxlevel, target) == landing
        && (NobodyToOffer(after, deleted, enterpoint, landing, target)
            <==> Stranded(links, deleted, ToQuery(metric, vectors, vec), enterpoint, maxlevel, level))
    {
      if enterpoint >= 0 {
        var target := Min(level, maxlevel);
        LandingAppend(links, m, BlankLists(m, level), ToQuery(metric, vectors, vec),
                      ToQuery(metric, vectors + [vec], vec), enterpoint, maxlevel, target);
        var landing := Landing(links, ToQuery(metric, vectors, vec), enterpoint, maxlevel, target);
        ReachAppend(links, m, BlankLists(m, level), target, landing);
        LiveAppend(links, BlankLists(m, level), deleted, Reach(links, target, landing));
      }
    }

    /** Reserves the next id for the label and initialises its memory: level, blank lists, label and vector. */
    method AppendElement(vec: Vec, lbl: nat, level: nat)
      requires Core() && lbl !in labelLookup && |vectors| < maxElements
      modifies this`labelLookup, this`levels, this`labels, this`vectors, this`links
      ensures Core() && Stored() == old(Stored())[lbl := vec]
      ensures levels == old(levels) + [level] && links == old(links) + [BlankLists(m, level)]
      ensures vectors == old(vectors) + [vec] && labels == old(labels) + [lbl]
      ensures forall l: nat | l <= level ::
        Exists(links, |old(vectors)|, l) && Blank(links[|old(vectors)|][l]) && Unlinked(links, |old(vectors)|, l)
    {
      hide GoodLinks, Blank, Unlinked, StoredVectors, LabelsMatch, BlankLists, LevelsMatch;
      StoredAppend(vectors, labels, labelLookup, deleted, vec, lbl);
      LabelsAppend(labels, labelLookup, lbl);
      AppendBlank(links, m, levels, level);
      labelLookup := labelLookup[lbl := |vectors|];
      levels := levels + [level];
      links := links + [BlankLists(m, level)];
      labels := labels + [lbl];
      vectors := vectors + [vec];
    }

    /** Replaces the vector of an existing live element and repairs the links around it. */
    method UpdatePoint(vec: Vec, id: nat)
      requires Valid() && id < |vectors| && id !in deleted
      modifies this`vectors, this`links, visitedListPool.Repr
      ensures Valid() && fresh(visitedListPool.Repr - old(visitedListPool.Repr))
      ensures vectors == old(vectors)[id := vec]
      ensures if enterpoint == id && |vectors| == 1 then links == old(links)
              else Reconnected(old(links), links, m, efConstruction, deleted, BetweenOf(metric, vectors),
                               ToQuery(metric, vectors, vec),
                               id, enterpoint, maxlevel, levels[id])
    {
      hide GoodLinks, LevelsMatch, Repaired, LayersUpdated;
      vectors := vectors[id := vec];
      if enterpoint == id && |vectors| == 1 {
        return;
      }
      ghost var layers;
      links, layers := UpdateLayers(id);
      links := Repair(vec, id);
      assert Reconnected(old(links), links, m, efConstruction, deleted, BetweenOf(metric, vectors),
                         ToQuery(metric, vectors, vec),
                         id, enterpoint, maxlevel, levels[id]);
    }

    method UpdateLayers(id: nat) returns (links': Links, ghost layers: seq<Links>)
      requires Valid() && id < |vectors|
      ensures GoodLinks(links', m) && LevelsMatch(links', levels)
      ensures LayersUpdated(layers, m, efConstruction, BetweenOf(metric, vectors), id)
      ensures |layers| == levels[id] + 2 && layers[0] == links && layers[levels[id] + 1] == links'
    {
      hide GoodLinks, SameShape, LayerUpdated, OneLayerUpdated;
      links' := links;
      layers := [links];
      SameShapeRefl(links);
      for layer := 0 to levels[id] + 1
        invariant GoodLinks(links', m) && SameShape(links, links')
        invariant LayersUpdated(layers, m, efConstruction, BetweenOf(metric, vectors), id)
        invariant |layers| == layer + 1 && layers[0] == links && layers[layer] == links'
      {
        ShapeFacts(links, links');
        ghost var before, sCand, sNeigh := links', {}, {};
        links', sCand, sNeigh := UpdateLayer(links', m, efConstruction, BetweenOf(metric, vectors), id, layer);
        UpdatedShape(before, links', m, efConstruction, BetweenOf(metric, vectors), layer, sCand, sNeigh);
        ShapeTrans(links, before, links');
        NextLayer(layers, links', m, efConstruction, BetweenOf(metric, vectors), id, sCand, sNeigh);
        layers := layers + [links'];
      }
      ShapeKeepsLevels(links, links', levels);
    }

    method Repair(vec: Vec, id: nat) returns (links': Links)
      requires Valid() && id < |vectors| && id !in deleted
      modifies visitedListPool.Repr
      ensures visitedListPool.Valid() && visitedListPool.lent == {}
          && fresh(visitedListPool.Repr - old(visitedListPool.Repr))
      ensures GoodLinks(links', m) && LevelsMatch(links', levels)
      ensures Repaired(links, links', m, efConstruction, deleted, BetweenOf(metric, vectors),
                       ToQuery(metric, vectors, vec),
                       id, enterpoint, maxlevel, levels[id])
    {
      hide GoodLinks, SameShape, UntouchedAbove, Repaired;
      links' := RepairConnections(links, m, efConstruction, deleted, BetweenOf(metric, vectors),
                                  ToQuery(metric, vectors, vec), maxDist,
                                  id, enterpoint, levels[id], maxlevel, visitedListPool);
      ShapeKeepsLevels(links, links', levels);
    }

    /** Descends to the new element's level and links it on every level it shares with the graph. */
    method ConnectNew(vec: Vec, cur: nat, level: nat) returns (ok: bool)
      requires Core() && cur == |vectors| - 1 && 0 <= enterpoint < cur
      requires levels[cur] == level && levels[enterpoint] == maxlevel
      requires forall l: nat | l <= level :: Exists(links, cur, l) && Blank(links[cur][l]) && Unlinked(links, cur, l)
      modifies this`links, visitedListPool.Repr
      ensures Core() && fresh(visitedListPool.Repr - old(visitedListPool.Repr))
      ensures OnlyGains(old(links), links, cur)
      ensures ok ==> forall l: nat | l <= level && l <= maxlevel :: Connected(links, m, cur, l)
      ensures !ok ==> deleted != {} && links == old(links)
      ensures ok <==> !NobodyToOffer(old(links), deleted, enterpoint,
                                     Landing(old(links), ToQuery(metric, vectors, vec), enterpoint, maxlevel,
                                             Min(level, maxlevel)),
                                     Min(level, maxlevel))
      ensures ok ==>
        Inserted(old(links), links, m, efConstruction, deleted, BetweenOf(metric, vectors),
                 ToQuery(metric, vectors, vec), cur, enterpoint,
                 Landing(old(links), ToQuery(metric, vectors, vec), enterpoint, maxlevel, Min(level, maxlevel)),
                 Min(level, maxlevel))
    {
      hide GoodLinks, OnlyGains, Connected, Blank, Unlinked, Inserted, NobodyToOffer, Landing, Trail, LevelsMatch;
      CoreLevels(cur);
      NoDescent(links, ToQuery(metric, vectors, vec), enterpoint, maxlevel);
      var dist := ToQuery(metric, vectors, vec);
      var currObj: nat := enterpoint;
      if level < maxlevel {
        ghost var trail;
        currObj, trail := Descend(links, m, dist, enterpoint, maxlevel, level);
        DescentAvoids(links, dist, enterpoint, maxlevel, level, trail, cur);
      }
      var links';
      ok, links' := ConnectLevels(links, m, efConstruction, deleted, BetweenOf(metric, vectors), dist, maxDist,
                                  cur, currObj, enterpoint, Min(level, maxlevel), visitedListPool);
      GainsKeepShape(links, links', cur);
      ShapeKeepsLevels(links, links', levels);
      links := links';
    }

    lemma CoreLevels(cur: nat)
      requires Core() && cur < |vectors| && 0 <= enterpoint < |vectors|
      ensures |links[cur]| == levels[cur] + 1 && |links[enterpoint]| == levels[enterpoint] + 1
          && |links| == |vectors| <= visitedListPool.numElements
    {
      hide GoodLinks, LabelsMatch;
    }

    /** The nodes a search may return. */
    ghost function LiveNodes(): set<nat>
      reads this
    {
      Live(links, true, deleted)
    }

    /** Descends from the entry point to level 0, searches there with max(ef, k), keeps the k nearest, and reports
        labels. The ghost results say where the descent landed and what the level-0 search visited and found. */
    method SearchKnn(query: Vec, k: nat)
      returns (result: multiset<Entry>, ghost trail: seq<nat>, ghost visited: set<nat>, ghost found: set<nat>)
      requires Valid()
      modifies visitedListPool.Repr
      ensures Valid() && fresh(visitedListPool.Repr - old(visitedListPool.Repr))
      ensures |vectors| == 0 ==> result == multiset{}
      ensures |vectors| > 0 ==>
        && Trail(links, ToQuery(metric, vectors, query), enterpoint, maxlevel, 0, trail)
        && trail[maxlevel] == Landing(links, ToQuery(metric, vectors, query), enterpoint, maxlevel, 0)
        && found <= Reach(links, 0, trail[maxlevel]) * LiveNodes()
        && (Max(ef, k) > 0 ==>
              SearchResult(links, 0, trail[maxlevel], LiveNodes(), ToQuery(metric, vectors, query), Max(ef, k), visited,
                           found))
        && (exists t :: Nearest(ToQuery(metric, vectors, query), t, found, k)
                     && result == EntriesOf(LabelKey(ToQuery(metric, vectors, query), labelLookup),
                                            LabelsOf(labels, t)))
      // every pair is a stored label, once, at the distance of its vector; as many as asked for, if so many were found
      ensures forall e | e in result :: result[e] == 1 && e.id in Stored() && e.dist == metric(query, Stored()[e.id])
      ensures |result| == (if k <= |found| then k else |found|)
      // exact whenever everything live can be reached and fits
      ensures |vectors| == 0 || (LiveNodes() <= Reach(links, 0, trail[maxlevel]) && |LiveNodes()| <= Max(ef, k)) ==>
        Selects(ByDist, result, BruteForce.Scores(metric, query, Stored()), k)
    {
      hide SearchResult, EntriesOf, Selects, LabelsOf, LabelsMatch, StoredVectors, Reach, Nearest, GoodLinks, Landing,
          LevelsMatch, Live;
      ghost var dist := ToQuery(metric, vectors, query);
      trail, visited, found := [], {}, {};
      if |vectors| == 0 {
        NoneStored(metric, query, vectors, labelLookup, deleted);
        SelectsAll(ByDist, multiset{}, k);
        return multiset{}, [], {}, {};
      }
      var top; ghost var t;
      top, trail, visited, found, t := SearchNodes(query, k);
      result := Relabel(top, labels, labelLookup, ToQuery(metric, vectors, query), t);
      ResultPairs(query, k, found, t);
      if Max(ef, k) == 0 {
        NothingWanted(dist, labels, labelLookup, t, found, BruteForce.Scores(metric, query, Stored()));
      } else if LiveNodes() <= Reach(links, 0, trail[maxlevel]) && |LiveNodes()| <= Max(ef, k) {
        ExactWhenComplete(query, k, trail[maxlevel], visited, found, t);
      }
    }

    /** The part of searchKnn that works on internal ids. */
    method SearchNodes(query: Vec, k: nat)
      returns (top: multiset<Entry>, ghost trail: seq<nat>, ghost visited: set<nat>, ghost found: set<nat>,
               ghost t: set<nat>)
      requires Valid() && |vectors| > 0
      modifies visitedListPool.Repr
      ensures Valid() && fresh(visitedListPool.Repr - old(visitedListPool.Repr))
      ensures Trail(links, ToQuery(metric, vectors, query), enterpoint, maxlevel, 0, trail)
      ensures trail[maxlevel] == Landing(links, ToQuery(metric, vectors, query), enterpoint, maxlevel, 0)
      ensures found <= Reach(links, 0, trail[maxlevel]) * LiveNodes()
      ensures Max(ef, k) > 0 ==>
        SearchResult(links, 0, trail[maxlevel], LiveNodes(), ToQuery(metric, vectors, query), Max(ef, k), visited,
                     found)
      ensures Nearest(ToQuery(metric, vectors, query), t, found, k)
          && top == EntriesOf(ToQuery(metric, vectors, query), t)
      ensures forall i | i in t :: i < |vectors|
    {
      hide GoodLinks, SearchResult, EntriesOf, Trail, LabelsMatch;
      var dist := ToQuery(metric, vectors, query);
      var currObj;
      currObj, trail := Descend(links, m, dist, enterpoint, maxlevel, 0);
      SameLive(links, numDeleted != 0, deleted);
      top, visited, found := SearchLevel(numDeleted != 0, links, m, deleted, dist, maxDist, currObj, Max(ef, k), 0,
                                         visitedListPool);
      ReachExists(links, 0, currObj);
      top, t := PopTo(top, k, dist, found);
    }

    lemma ResultPairs(query: Vec, k: nat, found: set<nat>, t: set<nat>)
      requires Valid() && found <= LiveNodes() && Nearest(ToQuery(metric, vectors, query), t, found, k)
      ensures var result := EntriesOf(LabelKey(ToQuery(metric, vectors, query), labelLookup), LabelsOf(labels, t));
        && |result| == (if k <= |found| then k else |found|)
        && forall e | e in result :: result[e] == 1 && e.id in Stored() && e.dist == metric(query, Stored()[e.id])
    {
      var key, of := LabelKey(ToQuery(metric, vectors, query), labelLookup), LabelsOf(labels, t);
      LabelsSize(labels, labelLookup, t);
      EntriesSize(key, of);
      EntriesMember(key, of);
      hide EntriesOf, GoodLinks;
    }

    lemma ExactWhenComplete(query: Vec, k: nat, landing: nat, visited: set<nat>, found: set<nat>, t: set<nat>)
      requires Valid()
          && SearchResult(links, 0, landing, LiveNodes(), ToQuery(metric, vectors, query), Max(ef, k), visited, found)
      requires Nearest(ToQuery(metric, vectors, query), t, found, k)
      requires LiveNodes() <= Reach(links, 0, landing) && |LiveNodes()| <= Max(ef, k)
      ensures Selects(ByDist, EntriesOf(LabelKey(ToQuery(metric, vectors, query), labelLookup), LabelsOf(labels, t)),
                      BruteForce.Scores(metric, query, Stored()), k)
    {
      hide EntriesOf, Selects, SearchResult, GoodLinks;
      var dist := ToQuery(metric, vectors, query);
      FoundAll(links, landing, LiveNodes(), dist, Max(ef, k), visited, found);
      NearestByLabel(dist, labels, labelLookup, t, found, k);
      NearestSelects(LabelKey(dist, labelLookup), LabelsOf(labels, t), LabelsOf(labels, found), k);
      LiveScores(metric, query, vectors, labels, labelLookup, deleted, found);
    }
  }

  /** addPoint of a new element finds nobody to link it to: from where the descent lands, on the highest level the
      element shares with the graph, no live node can be reached, and the entry point is live and so not offered
      instead. */
  ghost predicate Stranded(links: Links, deleted: set<nat>, dist: nat -> real, ep: int, maxlevel: int, level: nat) {
    ep >= 0 && maxlevel >= 0
    && NobodyToOffer(links, deleted, ep, Landing(links, dist, ep, maxlevel, Min(level, maxlevel)), Min(level, maxlevel))
  }

  lemma LiveAppend(links: Links, extra: seq<LinkList>, deleted: set<nat>, reach: set<nat>)
    requires forall x | x in reach :: x < |links|
    ensures reach * Live(links + [extra], true, deleted) == reach * Live(links, true, deleted)
  {
  }

  lemma NoneStored<Vec>(metric: Metric<Vec>, query: Vec, vectors: seq<Vec>, labelLookup: map<nat, nat>,
                        deleted: set<nat>)
    requires |vectors| == 0
    ensures BruteForce.Scores(metric, query, StoredVectors(vectors, labelLookup, deleted)) == multiset{}
  {
    assert StoredVectors(vectors, labelLookup, deleted) == map[];
  }

  lemma SameLive(links: Links, hasDeletions: bool, deleted: set<nat>)
    requires !hasDeletions ==> deleted == {}
    ensures Live(links, hasDeletions, deleted) == Live(links, true, deleted)
  {
  }

  /** Asking for no element at all. */
  lemma NothingWanted(dist: nat -> real, labels: seq<nat>, labelLookup: map<nat, nat>, t: set<nat>, found: set<nat>,
                      all: multiset<Entry>)
    requires Nearest(dist, t, found, 0)
    ensures Selects(ByDist, EntriesOf(LabelKey(dist, labelLookup), LabelsOf(labels, t)), all, 0)
  {
    assert t == {};
    assert LabelsOf(labels, t) == {};
    assert EntriesOf(LabelKey(dist, labelLookup), {}) == multiset{};
  }

  lemma FoundAll(links: Links, ep: nat, live: set<nat>, dist: nat -> real, ef: nat, visited: set<nat>, found: set<nat>)
    requires SearchResult(links, 0, ep, live, dist, ef, visited, found)
    requires live <= Reach(links, 0, ep) && |live| <= ef
    ensures found == live
  {
    var reach := Reach(links, 0, ep);
    assert reach * live == live;
    SubsetOfSameSize(found, live);
  }

  lemma SubsetOfSameSize(a: set<nat>, b: set<nat>)
    requires a <= b && |a| == |b|
    ensures a == b
  {
    assert b == a + (b - a);
  }

  lemma UpdatedShape(a: Links, b: Links, m: nat, efConstruction: nat, between: Between, layer: nat, sCand: set<nat>,
                     sNeigh: set<nat>)
    requires LayerUpdated(a, b, m, efConstruction, between, layer, sCand, sNeigh)
    ensures SameShape(a, b)
  {
  }

  lemma ShapeKeepsLevels(a: Links, b: Links, levels: seq<nat>)
    requires SameShape(a, b) && LevelsMatch(a, levels)
    ensures LevelsMatch(b, levels)
  {
  }

  lemma GainsKeepShape(a: Links, b: Links, cur: nat)
    requires OnlyGains(a, b, cur)
    ensures SameShape(a, b)
  {
  }

  /** The descent never lands on the new element: it does not reach up to the levels descended through. */
  lemma DescentAvoids(links: Links, dist: nat -> real, ep: nat, top: nat, target: nat, trail: seq<nat>, cur: nat)
    requires target <= top && Trail(links, dist, ep, top, target, trail)
    requires Exists(links, cur, target) && !Exists(links, cur, target + 1) && ep != cur
    ensures trail[top - target] != cur
  {
    if target < top {
      var k := top - target - 1;
      assert DownTo(links, top - k, dist, trail[k], trail[k + 1]);
      ReachExists(links, target + 1, trail[k]);
    }
  }
}
