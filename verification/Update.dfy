/** Giving an element a new vector: updatePoint and repairConnectionsForUpdate of hnswlib_omp/hnswalg.h. */
module Update {
  import opened Selection
  import opened Graph
  import opened VisitedLists
  import opened LayerSearch
  import opened Heuristic
  import opened Connect
  import opened Descent
  import opened Insert

  function DistFrom(between: Between, c: nat): nat -> real {
    (x: nat) => between(c, x)
  }

  // ---------- The nearest of a candidate set ----------

  /** Keeps the `keep` candidates closest to neigh; the set is visited in no particular order. */
  method KeepNearest(between: Between, neigh: nat, sCand: set<nat>, keep: nat)
    returns (candidates: multiset<Entry>, ghost near: set<nat>)
    requires 0 < keep
    ensures near <= sCand - {neigh} && candidates == EntriesOf(DistFrom(between, neigh), near)
    ensures Selects(ByDist, candidates, EntriesOf(DistFrom(between, neigh), sCand - {neigh}), keep)
  {
    hide Selects, EntriesOf;
    ghost var key := DistFrom(between, neigh);
    candidates, near := multiset{}, {};
    var rest := sCand;
    ghost var seen: set<nat> := {};
    EntriesEmpty(key);
    SelectsAll(ByDist, multiset{}, keep);
    while rest != {}
      invariant rest <= sCand && seen == sCand - rest - {neigh} && near <= seen
      invariant candidates == EntriesOf(key, near)
      invariant Selects(ByDist, candidates, EntriesOf(key, seen), keep) && |candidates| <= keep
    {
      var cand :| cand in rest;
      rest := rest - {cand};
      if cand != neigh {
        candidates, near := OfferNearest(key, candidates, near, seen, cand, between(neigh, cand), keep);
        seen := seen + {cand};
      }
      assert seen == sCand - rest - {neigh};
    }
    assert seen == sCand - {neigh};
  }

  lemma EntriesEmpty(key: nat -> real)
    ensures EntriesOf(key, {}) == multiset{}
  {
  }

  method OfferNearest(ghost key: nat -> real, candidates: multiset<Entry>, ghost near: set<nat>, ghost seen: set<nat>,
                      cand: nat, distance: real, keep: nat)
    returns (candidates': multiset<Entry>, ghost near': set<nat>)
    requires 0 < keep && near <= seen && cand !in seen && distance == key(cand)
    requires candidates == EntriesOf(key, near) && |candidates| <= keep
    requires Selects(ByDist, candidates, EntriesOf(key, seen), keep)
    ensures near' <= seen + {cand} && candidates' == EntriesOf(key, near') && |candidates'| <= keep
    ensures Selects(ByDist, candidates', EntriesOf(key, seen + {cand}), keep)
  {
    hide Selects, EntriesOf;
    ghost var e := Entry(key(cand), cand);
    EntriesAdd(key, seen, cand);
    EntriesAdd(key, near, cand);
    if |candidates| < keep {
      SelectsPush(ByDist, candidates, EntriesOf(key, seen), keep, e);
      return candidates + multiset{Entry(distance, cand)}, near + {cand};
    }
    var top := TopByDist(candidates);
    if distance < top.dist {
      SelectsReplace(ByDist, candidates, EntriesOf(key, seen), keep, e, top);
      EntriesTop(key, near, top);
      EntriesRemove(key, near + {cand}, top.id);
      candidates' := candidates - multiset{top};
      candidates' := candidates' + multiset{Entry(distance, cand)};
      near' := near + {cand} - {top.id};
      assert candidates' == candidates + multiset{e} - multiset{top};
    } else {
      SelectsSkip(ByDist, candidates, EntriesOf(key, seen), keep, e);
      candidates', near' := candidates, near;
    }
  }

  // ---------- One layer of updatePoint ----------

  /** The new list of neigh: the heuristic's choice from the candidates nearest to neigh. */
  ghost predicate Rechosen(between: Between, neigh: nat, sCand: set<nat>, efConstruction: nat, cap: nat,
                           after: seq<nat>) {
    exists near, t :: near <= sCand - {neigh} && t <= near && Lists(after, t)
      && Selects(ByDist, EntriesOf(DistFrom(between, neigh), near),
                 EntriesOf(DistFrom(between, neigh), sCand - {neigh}), efConstruction)
      && Reselected(between, DistFrom(between, neigh), near, cap, t)
  }

  /** elementsToKeep of the source. */
  function ElementsToKeep(efConstruction: nat, sCand: set<nat>, neigh: nat): nat {
    var size := if neigh in sCand then |sCand| - 1 else |sCand|;
    Min(efConstruction, size)
  }

  /** Asking for as many as there are loses nothing against asking for efConstruction. */
  lemma KeepsEnough(key: nat -> real, kept: multiset<Entry>, efConstruction: nat, sCand: set<nat>, neigh: nat)
    requires Selects(ByDist, kept, EntriesOf(key, sCand - {neigh}), ElementsToKeep(efConstruction, sCand, neigh))
    ensures Selects(ByDist, kept, EntriesOf(key, sCand - {neigh}), efConstruction)
  {
    EntriesSize(key, sCand - {neigh});
  }

  method RechooseNeighbors(links: Links, m: nat, efConstruction: nat, between: Between, neigh: nat, sCand: set<nat>,
                           layer: nat)
    returns (links': Links)
    requires GoodLinks(links, m) && 0 < m <= efConstruction && 2 * m < 65536 && Exists(links, neigh, layer)
    requires exists x :: x in sCand && x != neigh
    requires forall x | x in sCand :: Exists(links, x, layer)
    ensures GoodLinks(links', m) && OnlyListChanged(links, links', neigh, layer)
    ensures Rechosen(between, neigh, sCand, efConstruction, Capacity(m, layer),
                     NeighborsAt(links', neigh, layer))
  {
    var keep := ElementsToKeep(efConstruction, sCand, neigh);
    assert 0 < keep by {
      ghost var x :| x in sCand && x != neigh;
      assert {x} <= sCand - {neigh};
      SubsetSize({x}, sCand - {neigh});
    }
    hide GoodLinks, EntriesOf, HeuristicResult, Selects;
    ghost var key := DistFrom(between, neigh);
    var candidates; ghost var near;
    candidates, near := KeepNearest(between, neigh, sCand, keep);
    KeepsEnough(key, candidates, efConstruction, sCand, neigh);
    var kept; ghost var picks;
    kept, picks := GetNeighborsByHeuristic2(between, candidates, Capacity(m, layer));
    ghost var t := HeuristicKeeps(between, key, near, Capacity(m, layer), kept, picks);
    assert Reselected(between, key, near, Capacity(m, layer), t);
    hide Reselected;
    var ids := Drain(kept, key, t);
    assert Rechosen(between, neigh, sCand, efConstruction, Capacity(m, layer), ids);
    forall k | 0 <= k < |ids| ensures ids[k] != neigh && Exists(links, ids[k], layer) {
      assert ids[k] in near;
    }
    hide Rechosen;
    SetListGood(links, m, neigh, layer, ids);
    SetListEffect(links, neigh, layer, ids);
    links' := SetList(links, neigh, layer, ids);
  }

  ghost function NeighborsOf(links: Links, s: set<nat>, layer: nat): set<nat> {
    set y, x | y in s && x in NeighborsAt(links, y, layer) :: x
  }

  /** sCand: the element, its neighbours, and the neighbours of those that were drawn. */
  method CollectCandidates(links: Links, ghost m: nat, id: nat, layer: nat, listOneHop: seq<nat>)
    returns (sCand: set<nat>, sNeigh: set<nat>)
    requires GoodLinks(links, m) && Exists(links, id, layer) && listOneHop == NeighborsAt(links, id, layer)
    ensures sNeigh <= SetOf(listOneHop)
    ensures sCand == {id} + SetOf(listOneHop) + NeighborsOf(links, sNeigh, layer)
  {
    sCand, sNeigh := {id}, {};
    assert SetOf(listOneHop[..0]) == {} && NeighborsOf(links, {}, layer) == {};
    for i := 0 to |listOneHop|
      invariant sNeigh <= SetOf(listOneHop[..i])
      invariant sCand == {id} + SetOf(listOneHop[..i]) + NeighborsOf(links, sNeigh, layer)
    {
      var elOneHop := listOneHop[i];
      assert SetOf(listOneHop[..i + 1]) == SetOf(listOneHop[..i]) + {elOneHop};
      sCand := sCand + {elOneHop};
      var skip: bool := *;  // the random draw against updateNeighborProbability
      if !skip {
        assert NeighborsOf(links, sNeigh + {elOneHop}, layer)
            == NeighborsOf(links, sNeigh, layer) + SetOf(NeighborsAt(links, elOneHop, layer));
        sNeigh := sNeigh + {elOneHop};
        var listTwoHop := NeighborsAt(links, elOneHop, layer);
        sCand := sCand + set elTwoHop | elTwoHop in listTwoHop;
      }
    }
    assert listOneHop[..|listOneHop|] == listOneHop;
  }

  /** The effect on one layer: the drawn neighbours have re-chosen their lists, nothing else has changed. */
  ghost predicate LayerUpdated(before: Links, after: Links, m: nat, efConstruction: nat, between: Between, layer: nat,
                               sCand: set<nat>, sNeigh: set<nat>) {
    && SameShape(before, after)
    && (forall j: nat, l: nat | Exists(before, j, l) && !(l == layer && j in sNeigh) :: after[j][l] == before[j][l])
    && (forall neigh | neigh in sNeigh ::
          Rechosen(between, neigh, sCand, efConstruction, Capacity(m, layer),
                   NeighborsAt(after, neigh, layer)))
  }

  lemma OneMoreRechosen(before: Links, middle: Links, after: Links, m: nat, efConstruction: nat, between: Between,
                        layer: nat,
                        sCand: set<nat>, done: set<nat>, neigh: nat)
    requires LayerUpdated(before, middle, m, efConstruction, between, layer, sCand, done)
    requires neigh !in done && forall x | x in done :: Exists(before, x, layer)
    requires OnlyListChanged(middle, after, neigh, layer)
    requires Rechosen(between, neigh, sCand, efConstruction, Capacity(m, layer),
                      NeighborsAt(after, neigh, layer))
    ensures LayerUpdated(before, after, m, efConstruction, between, layer, sCand, done + {neigh})
        && SameShape(before, after)
  {
    hide Rechosen;
    forall x | x in done + {neigh}
      ensures Rechosen(between, x, sCand, efConstruction, Capacity(m, layer),
                       NeighborsAt(after, x, layer))
    {
      if x != neigh {
        assert Exists(middle, x, layer) && after[x][layer] == middle[x][layer];
      }
    }
    forall j: nat, l: nat | Exists(before, j, l) && !(l == layer && j in done + {neigh})
      ensures after[j][l] == before[j][l] {
      assert Exists(middle, j, l);
    }
  }

  lemma ExistsSame(a: Links, b: Links)
    requires SameShape(a, b)
    ensures forall j: nat, l: nat :: Exists(a, j, l) <==> Exists(b, j, l)
  {
  }

  lemma CandidatesExist(links: Links, m: nat, id: nat, layer: nat, sCand: set<nat>, sNeigh: set<nat>)
    requires GoodLinks(links, m) && Exists(links, id, layer)
    requires sNeigh <= SetOf(NeighborsAt(links, id, layer))
    requires sCand == {id} + SetOf(NeighborsAt(links, id, layer)) + NeighborsOf(links, sNeigh, layer)
    ensures forall x | x in sCand :: Exists(links, x, layer)
    ensures forall x | x in sNeigh :: x != id && Exists(links, x, layer)
  {
    assert GoodList(links, m, id, layer);
    forall x | x in sCand ensures Exists(links, x, layer) {
      if x in NeighborsOf(links, sNeigh, layer) {
        var y :| y in sNeigh && x in NeighborsAt(links, y, layer);
        assert Exists(links, y, layer);
        assert GoodList(links, m, y, layer);
      }
    }
  }

  method UpdateLayer(links: Links, m: nat, efConstruction: nat, between: Between, id: nat, layer: nat)
    returns (links': Links, ghost sCand: set<nat>, ghost sNeigh: set<nat>)
    requires GoodLinks(links, m) && 0 < m <= efConstruction && 2 * m < 65536 && Exists(links, id, layer)
    ensures GoodLinks(links', m)
    ensures sNeigh <= SetOf(NeighborsAt(links, id, layer))
    ensures sCand == {id} + SetOf(NeighborsAt(links, id, layer)) + NeighborsOf(links, sNeigh, layer)
    ensures LayerUpdated(links, links', m, efConstruction, between, layer, sCand, sNeigh)
  {
    var listOneHop := NeighborsAt(links, id, layer);
    if |listOneHop| == 0 {
      assert NeighborsOf(links, {}, layer) == {};
      return links, {id}, {};
    }
    hide Rechosen;
    var cands, drawn := CollectCandidates(links, m, id, layer, listOneHop);
    CandidatesExist(links, m, id, layer, cands, drawn);
    sCand, sNeigh := cands, drawn;
    links' := RechooseAll(links, m, efConstruction, between, id, layer, cands, drawn);
  }

  /** Every drawn neighbour re-chooses its list, in no particular order. */
  method RechooseAll(links: Links, m: nat, efConstruction: nat, between: Between, id: nat, layer: nat, sCand: set<nat>,
                     sNeigh: set<nat>)
    returns (links': Links)
    requires GoodLinks(links, m) && 0 < m <= efConstruction && 2 * m < 65536 && id in sCand
    requires forall x | x in sCand :: Exists(links, x, layer)
    requires forall x | x in sNeigh :: x != id && Exists(links, x, layer)
    ensures GoodLinks(links', m)
    ensures LayerUpdated(links, links', m, efConstruction, between, layer, sCand, sNeigh)
  {
    hide GoodLinks, LayerUpdated, Rechosen, SameShape;
    links' := links;
    var rest := sNeigh;
    ghost var done: set<nat> := {};
    NoneRechosen(links, m, efConstruction, between, layer, sCand);
    while rest != {}
      invariant rest <= sNeigh && done == sNeigh - rest
      invariant GoodLinks(links', m) && SameShape(links, links')
      invariant LayerUpdated(links, links', m, efConstruction, between, layer, sCand, done)
    {
      var neigh :| neigh in rest;
      ExistsSame(links, links');
      ghost var before := links';
      assert id in sCand && id != neigh;
      links' := RechooseNeighbors(links', m, efConstruction, between, neigh, sCand, layer);
      OneMoreRechosen(links, before, links', m, efConstruction, between, layer, sCand, done, neigh);
      rest := rest - {neigh};
      done := done + {neigh};
    }
    assert done == sNeigh;
  }

  lemma NoneRechosen(links: Links, m: nat, efConstruction: nat, between: Between, layer: nat, sCand: set<nat>)
    ensures LayerUpdated(links, links, m, efConstruction, between, layer, sCand, {}) && SameShape(links, links)
  {
  }

  /** The loop over the layers: on each, the neighbours that were drawn re-choose their lists. */
  ghost predicate LayersUpdated(layers: seq<Links>, m: nat, efConstruction: nat, between: Between, id: nat) {
    layers != []
        && forall l | 0 <= l < |layers| - 1 ::
             OneLayerUpdated(layers[l], layers[l + 1], m, efConstruction, between, id, l)
  }

  ghost predicate OneLayerUpdated(before: Links, after: Links, m: nat, efConstruction: nat, between: Between, id: nat,
                                  layer: nat) {
    exists sCand, sNeigh ::
      && sNeigh <= SetOf(NeighborsAt(before, id, layer))
      && sCand == {id} + SetOf(NeighborsAt(before, id, layer)) + NeighborsOf(before, sNeigh, layer)
      && LayerUpdated(before, after, m, efConstruction, between, layer, sCand, sNeigh)
  }

  lemma NextLayer(layers: seq<Links>, after: Links, m: nat, efConstruction: nat, between: Between, id: nat,
                  sCand: set<nat>, sNeigh: set<nat>)
    requires LayersUpdated(layers, m, efConstruction, between, id)
    requires var before, layer := layers[|layers| - 1], |layers| - 1;
      && sNeigh <= SetOf(NeighborsAt(before, id, layer))
      && sCand == {id} + SetOf(NeighborsAt(before, id, layer)) + NeighborsOf(before, sNeigh, layer)
      && LayerUpdated(before, after, m, efConstruction, between, layer, sCand, sNeigh)
    ensures LayersUpdated(layers + [after], m, efConstruction, between, id)
  {
    hide LayerUpdated;
    assert OneLayerUpdated(layers[|layers| - 1], after, m, efConstruction, between, id, |layers| - 1);
    hide OneLayerUpdated;
  }

  /** The whole of updatePoint on the graph: all the element's layers, then the repair. */
  ghost predicate Reconnected(before: Links, after: Links, m: nat, efConstruction: nat, deleted: set<nat>,
                              between: Between, dist: nat -> real,
                              id: nat, ep: nat, maxLevel: nat, level: nat) {
    exists layers ::
      && LayersUpdated(layers, m, efConstruction, between, id) && |layers| == level + 2 && layers[0] == before
      && Repaired(layers[level + 1], after, m, efConstruction, deleted, between, dist, id, ep, maxLevel, level)
  }

  // ---------- repairConnectionsForUpdate ----------

  /** The candidates for an existing element: never itself, and a deleted entry point only if there is anybody else. */
  ghost predicate OfferedToUpdate(dist: nat -> real, found: set<nat>, id: nat, ep: nat, epDeleted: bool,
                                  efConstruction: nat, s: set<nat>) {
    if found - {id} == {} then s == {} else Offered(dist, found - {id}, ep, epDeleted, efConstruction, s)
  }

  /** One level of repairConnectionsForUpdate, from the search to the links. */
  ghost predicate LevelRepaired(a: Stage, b: Stage, m: nat, efConstruction: nat, deleted: set<nat>, between: Between,
                                dist: nat -> real,
                                id: nat, ep: nat, level: nat) {
    exists visited, found, s ::
      && SearchResult(a.links, level, a.currObj, Live(a.links, true, deleted), dist, efConstruction, visited, found)
      && OfferedToUpdate(dist, found, id, ep, ep in deleted, efConstruction, s)
      && if s == {} then b == a else ConnectedTo(a, b, m, between, dist, id, level, s, true)
  }

  ghost predicate LevelsRepaired(stages: seq<Stage>, m: nat, efConstruction: nat, deleted: set<nat>, between: Between,
                                 dist: nat -> real,
                                 id: nat, ep: nat, top: nat) {
    0 < |stages| <= top + 2
    && forall k | 0 <= k < |stages| - 1 ::
         LevelRepaired(stages[k], stages[k + 1], m, efConstruction, deleted, between, dist, id, ep, top - k)
  }

  /** The whole of repairConnectionsForUpdate: greedy descent to the element's level, then every level down to 0. */
  ghost predicate Repaired(before: Links, after: Links, m: nat, efConstruction: nat, deleted: set<nat>,
                           between: Between, dist: nat -> real,
                           id: nat, ep: nat, maxLevel: nat, level: nat) {
    exists stages: seq<Stage> ::
      && LevelsRepaired(stages, m, efConstruction, deleted, between, dist, id, ep, level) && |stages| == level + 2
      && stages[0] == Stage(before, Landing(before, dist, ep, maxLevel, level)) && stages[|stages| - 1].links == after
  }

  /** The search result without the element itself. */
  method FilterOut(top: multiset<Entry>, id: nat, ghost dist: nat -> real, ghost found: set<nat>)
    returns (filtered: multiset<Entry>)
    requires top == EntriesOf(dist, found)
    ensures filtered == EntriesOf(dist, found - {id})
  {
    hide EntriesOf;
    var rest := top;
    ghost var left := found;
    filtered := multiset{};
    EntriesEmpty(dist);
    assert found - found - {id} == {};
    while rest != multiset{}
      invariant left <= found && rest == EntriesOf(dist, left)
      invariant filtered == EntriesOf(dist, found - left - {id})
      decreases |rest|
    {
      var e := TopByDist(rest);
      EntriesTop(dist, left, e);
      if e.id != id {
        EntriesAdd(dist, found - left - {id}, e.id);
        assert found - (left - {e.id}) - {id} == found - left - {id} + {e.id};
        filtered := filtered + multiset{e};
      } else {
        assert found - (left - {e.id}) - {id} == found - left - {id};
      }
      EntriesRemove(dist, left, e.id);
      rest := rest - multiset{e};
      left := left - {e.id};
    }
    EntriesSize(dist, left);
    assert found - left - {id} == found - {id};
  }

  lemma FoundExist(links: Links, level: nat, ep: nat, deleted: set<nat>, dist: nat -> real, ef: nat, visited: set<nat>,
                   found: set<nat>)
    requires SearchResult(links, level, ep, Live(links, true, deleted), dist, ef, visited, found)
    ensures |found| <= ef && forall x | x in found :: Exists(links, x, level) && x !in deleted
  {
    ReachExists(links, level, ep);
  }

  /** The candidates on one level: what the search finds, without the element itself, and a deleted entry point if
      anything was found. */
  method CandidatesForUpdate(links: Links, m: nat, efConstruction: nat, deleted: set<nat>, dist: nat -> real,
                             maxDist: real,
                             id: nat, currObj: nat, enterpoint: nat, level: nat, pool: VisitedListPool)
    returns (filtered: multiset<Entry>, ghost s: set<nat>, ghost visited: set<nat>, ghost found: set<nat>)
    requires GoodLinks(links, m) && 0 < m <= efConstruction && id !in deleted
    requires Exists(links, currObj, level) && Exists(links, enterpoint, level)
    requires pool.Valid() && |links| <= pool.numElements
    modifies pool.Repr
    ensures pool.Valid() && pool.lent == old(pool.lent) && fresh(pool.Repr - old(pool.Repr))
    ensures filtered == EntriesOf(dist, s)
    ensures forall x | x in s :: x != id && Exists(links, x, level)
    ensures SearchResult(links, level, currObj, Live(links, true, deleted), dist, efConstruction, visited, found)
    ensures OfferedToUpdate(dist, found, id, enterpoint, enterpoint in deleted, efConstruction, s)
  {
    hide SearchResult, EntriesOf, Reach, GoodLinks, OfferedToUpdate;
    var top;
    top, visited, found := SearchLevel(true, links, m, deleted, dist, maxDist, currObj, efConstruction, level, pool);
    FoundExist(links, level, currObj, deleted, dist, efConstruction, visited, found);
    filtered, s := WithDeletedEntry(top, deleted, dist, id, enterpoint, efConstruction, found);
  }

  lemma FewerThan(found: set<nat>, id: nat)
    ensures |found - {id}| <= |found|
  {
    assert found - {id} + (found * {id}) == found;
  }

  method WithDeletedEntry(top: multiset<Entry>, deleted: set<nat>, dist: nat -> real, id: nat, enterpoint: nat,
                          efConstruction: nat,
                          ghost found: set<nat>)
    returns (filtered: multiset<Entry>, ghost s: set<nat>)
    requires top == EntriesOf(dist, found) && found !! deleted && id !in deleted && |found| <= efConstruction
        && 0 < efConstruction
    ensures filtered == EntriesOf(dist, s) && s <= found - {id} + (if enterpoint in deleted then {enterpoint} else {})
    ensures id !in s && OfferedToUpdate(dist, found, id, enterpoint, enterpoint in deleted, efConstruction, s)
  {
    hide EntriesOf, Offered;
    filtered := FilterOut(top, id, dist, found);
    s := found - {id};
    EntriesSize(dist, s);
    FewerThan(found, id);
    OfferedAsFound(dist, s, enterpoint, efConstruction);
    if |filtered| > 0 {
      if enterpoint in deleted {
        filtered, s := AddDeletedEntry(filtered, dist, enterpoint, efConstruction, s);
      }
    }
  }

  /** Searches one level for new neighbours of an existing element and connects it to them. */
  method RepairLevel(links: Links, m: nat, efConstruction: nat, deleted: set<nat>, between: Between, dist: nat -> real,
                     maxDist: real,
                     id: nat, currObj: nat, enterpoint: nat, level: nat, pool: VisitedListPool)
    returns (links': Links, next: nat)
    requires GoodLinks(links, m) && 0 < m <= efConstruction && 2 * m < 65536
    requires Exists(links, id, level) && id !in deleted
    requires Exists(links, currObj, level) && Exists(links, enterpoint, level)
    requires pool.Valid() && |links| <= pool.numElements
    modifies pool.Repr
    ensures pool.Valid() && pool.lent == old(pool.lent) && fresh(pool.Repr - old(pool.Repr))
    ensures GoodLinks(links', m) && Exists(links', next, level) && SameShape(links, links')
    ensures UntouchedUpTo(links, links', level - 1) && UntouchedAbove(links, links', level)
    ensures LevelRepaired(Stage(links, currObj), Stage(links', next), m, efConstruction, deleted, between, dist, id,
                          enterpoint, level)
  {
    hide GoodLinks, UntouchedUpTo, UntouchedAbove, SameShape, SearchResult, OfferedToUpdate, Live, LevelRepaired,
        ConnectedTo;
    ghost var s, visited, found;
    var filtered;
    filtered, s, visited, found := CandidatesForUpdate(links, m, efConstruction, deleted, dist, maxDist, id, currObj,
                                                       enterpoint, level, pool);
    links', next := ConnectUpdated(links, m, between, dist, id, currObj, level, filtered, s);
    LevelRepairDone(Stage(links, currObj), Stage(links', next), m, efConstruction, deleted, between, dist, id,
                    enterpoint, level, visited, found, s);
  }

  lemma LevelRepairDone(a: Stage, b: Stage, m: nat, efConstruction: nat, deleted: set<nat>, between: Between,
                        dist: nat -> real,
                        id: nat, ep: nat, level: nat, visited: set<nat>, found: set<nat>, s: set<nat>)
    requires SearchResult(a.links, level, a.currObj, Live(a.links, true, deleted), dist, efConstruction, visited, found)
    requires OfferedToUpdate(dist, found, id, ep, ep in deleted, efConstruction, s)
    requires if s == {} then b == a else ConnectedTo(a, b, m, between, dist, id, level, s, true)
    ensures LevelRepaired(a, b, m, efConstruction, deleted, between, dist, id, ep, level)
  {
    hide SearchResult, OfferedToUpdate, ConnectedTo, Live;
  }

  method ConnectUpdated(links: Links, m: nat, between: Between, ghost dist: nat -> real, id: nat, currObj: nat,
                        level: nat,
                        filtered: multiset<Entry>, ghost s: set<nat>)
    returns (links': Links, next: nat)
    requires GoodLinks(links, m) && 0 < m && 2 * m < 65536
    requires Exists(links, id, level) && Exists(links, currObj, level)
    requires filtered == EntriesOf(dist, s) && forall x | x in s :: x != id && Exists(links, x, level)
    ensures GoodLinks(links', m) && Exists(links', next, level) && SameShape(links, links')
    ensures UntouchedUpTo(links, links', level - 1) && UntouchedAbove(links, links', level)
    ensures if s == {} then links' == links && next == currObj
            else ConnectedTo(Stage(links, currObj), Stage(links', next), m, between, dist, id, level, s, true)
  {
    hide EntriesOf, GoodLinks, Linked, Reselected, UntouchedUpTo, UntouchedAbove;
    NothingChanged(links, id, level);
    EntriesSize(dist, s);
    if |filtered| == 0 {
      return links, currObj;
    }
    ghost var chosen;
    links', next, chosen := MutuallyConnectNewElement(links, m, between, id, filtered, level, true, dist, s);
    LinkedOnLevel(links, links', m, between, id, level, chosen, next);
  }

  lemma LinkedOnLevel(a: Links, b: Links, m: nat, between: Between, cur: nat, level: nat, chosen: set<nat>, next: nat)
    requires Linked(a, b, m, between, cur, level, chosen, true)
    requires 0 < |chosen| <= m && next in chosen && Exists(a, next, level)
    ensures UntouchedUpTo(a, b, level - 1) && UntouchedAbove(a, b, level)
    ensures 0 < |NeighborsAt(b, cur, level)| <= m && Exists(b, next, level) && SameShape(a, b)
  {
  }

  /** From the entry point down to the element's own level, then reconnecting it on each level down to 0. */
  method RepairConnections(links: Links, m: nat, efConstruction: nat, deleted: set<nat>, between: Between,
                           dist: nat -> real, maxDist: real,
                           id: nat, enterpoint: nat, elemLevel: nat, maxLevel: nat, pool: VisitedListPool)
    returns (links': Links)
    requires GoodLinks(links, m) && 0 < m <= efConstruction && 2 * m < 65536
    requires Exists(links, id, elemLevel) && id !in deleted
    requires elemLevel <= maxLevel  // "Level of item to be updated cannot be bigger than max level" is never thrown
    requires Exists(links, enterpoint, maxLevel)
    requires pool.Valid() && |links| <= pool.numElements
    modifies pool.Repr
    ensures pool.Valid() && pool.lent == old(pool.lent) && fresh(pool.Repr - old(pool.Repr))
    ensures GoodLinks(links', m) && SameShape(links, links') && UntouchedAbove(links, links', elemLevel)
    ensures Repaired(links, links', m, efConstruction, deleted, between, dist, id, enterpoint, maxLevel, elemLevel)
  {
    hide GoodLinks, UntouchedUpTo, UntouchedAbove, SameShape, Trail, VisitedListPool.Valid, LevelsRepaired, Repaired;
    var currObj := enterpoint;
    if elemLevel < maxLevel {
      ghost var trail;
      currObj, trail := Descend(links, m, dist, enterpoint, maxLevel, elemLevel);
    }
    ghost var stages;
    links', stages := RepairLevels(links, m, efConstruction, deleted, between, dist, maxDist, id, currObj, enterpoint,
                                   elemLevel, pool);
    RepairDone(links, links', m, efConstruction, deleted, between, dist, id, enterpoint, maxLevel, elemLevel, stages);
  }

  lemma RepairDone(before: Links, after: Links, m: nat, efConstruction: nat, deleted: set<nat>, between: Between,
                   dist: nat -> real,
                   id: nat, ep: nat, maxLevel: nat, level: nat, stages: seq<Stage>)
    requires LevelsRepaired(stages, m, efConstruction, deleted, between, dist, id, ep, level) && |stages| == level + 2
    requires stages[0] == Stage(before, Landing(before, dist, ep, maxLevel, level))
        && stages[|stages| - 1].links == after
    ensures Repaired(before, after, m, efConstruction, deleted, between, dist, id, ep, maxLevel, level)
  {
    hide LevelsRepaired;
  }

  lemma KeptExists(a: Links, b: Links, x: nat, level: nat)
    requires SameShape(a, b) && Exists(a, x, level)
    ensures |a| == |b| && Exists(b, x, level)
  {
  }

  lemma OneMoreRepaired(stages: seq<Stage>, b: Stage, m: nat, efConstruction: nat, deleted: set<nat>, between: Between,
                        dist: nat -> real,
                        id: nat, ep: nat, top: nat)
    requires LevelsRepaired(stages, m, efConstruction, deleted, between, dist, id, ep, top) && |stages| <= top + 1
    requires LevelRepaired(stages[|stages| - 1], b, m, efConstruction, deleted, between, dist, id, ep,
                           top + 1 - |stages|)
    ensures LevelsRepaired(stages + [b], m, efConstruction, deleted, between, dist, id, ep, top)
  {
    hide LevelRepaired;
  }

  lemma NoneRepaired(a: Stage, m: nat, efConstruction: nat, deleted: set<nat>, between: Between, dist: nat -> real,
                     id: nat, ep: nat, top: nat)
    ensures LevelsRepaired([a], m, efConstruction, deleted, between, dist, id, ep, top)
  {
    hide LevelRepaired;
  }

  method RepairLevels(links: Links, m: nat, efConstruction: nat, deleted: set<nat>, between: Between, dist: nat -> real,
                      maxDist: real,
                      id: nat, start: nat, enterpoint: nat, elemLevel: nat, pool: VisitedListPool)
    returns (links': Links, ghost stages: seq<Stage>)
    requires GoodLinks(links, m) && 0 < m <= efConstruction && 2 * m < 65536
    requires Exists(links, id, elemLevel) && id !in deleted
    requires Exists(links, start, elemLevel) && Exists(links, enterpoint, elemLevel)
    requires pool.Valid() && |links| <= pool.numElements
    modifies pool.Repr
    ensures pool.Valid() && pool.lent == old(pool.lent) && fresh(pool.Repr - old(pool.Repr))
    ensures GoodLinks(links', m) && SameShape(links, links') && UntouchedAbove(links, links', elemLevel)
    ensures LevelsRepaired(stages, m, efConstruction, deleted, between, dist, id, enterpoint, elemLevel)
        && |stages| == elemLevel + 2
    ensures stages[0] == Stage(links, start) && stages[|stages| - 1].links == links'
  {
    hide GoodLinks, UntouchedUpTo, UntouchedAbove, SameShape, VisitedListPool.Valid, LevelRepaired, LevelsRepaired;
    hide OnlyGains, NeighborsAt;
    links' := links;
    stages := [Stage(links, start)];
    NoneRepaired(Stage(links, start), m, efConstruction, deleted, between, dist, id, enterpoint, elemLevel);
    var currObj := start;
    var level: int := elemLevel;
    SameShapeRefl(links);
    NothingChanged(links, id, elemLevel + 1);
    NothingChanged(links, id, elemLevel);
    while level >= 0
      invariant -1 <= level <= elemLevel
      invariant pool.Valid() && pool.lent == old(pool.lent) && fresh(pool.Repr - old(pool.Repr))
      invariant GoodLinks(links', m) && SameShape(links, links')
      invariant UntouchedUpTo(links, links', level) && UntouchedAbove(links, links', elemLevel)
      invariant level >= 0 ==> Exists(links', currObj, level)
      invariant |stages| == elemLevel - level + 1 && stages[0] == Stage(links, start)
          && stages[|stages| - 1] == Stage(links', currObj)
      invariant LevelsRepaired(stages, m, efConstruction, deleted, between, dist, id, enterpoint, elemLevel)
    {
      KeptExists(links, links', id, level);
      KeptExists(links, links', enterpoint, level);
      ghost var before := links';
      links', currObj := RepairLevel(links', m, efConstruction, deleted, between, dist, maxDist, id, currObj,
                                     enterpoint, level, pool);
      ShapeTrans(links, before, links');
      UntouchedTrans(links, before, links', level, elemLevel);
      OneMoreRepaired(stages, Stage(links', currObj), m, efConstruction, deleted, between, dist, id, enterpoint,
                      elemLevel);
      stages := stages + [Stage(links', currObj)];
      level := level - 1;
    }
  }

  lemma SameShapeRefl(a: Links)
    ensures SameShape(a, a)
  {
  }

  lemma ShapeFacts(a: Links, b: Links)
    requires SameShape(a, b)
    ensures |a| == |b| && forall j: nat, l: nat :: Exists(a, j, l) <==> Exists(b, j, l)
  {
  }

  lemma ShapeTrans(a: Links, b: Links, c: Links)
    requires SameShape(a, b) && SameShape(b, c)
    ensures SameShape(a, c)
  {
  }
}
