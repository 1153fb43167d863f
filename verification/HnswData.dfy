/** What the fields of the HNSW index mean: the parts of its invariant, and the vectors it stores. */
module HnswData {
  import opened Graph
  import opened Heuristic
  import opened Connect
  import opened Insert
  import BruteForce

  type Metric<!Vec> = BruteForce.Metric<Vec>

  function BetweenOf<Vec>(metric: Metric<Vec>, vectors: seq<Vec>): (between: Between)
    ensures forall a: nat, b: nat | a < |vectors| && b < |vectors| :: between(a, b) == metric(vectors[a], vectors[b])
  {
    (a: nat, b: nat) => if a < |vectors| && b < |vectors| then metric(vectors[a], vectors[b]) else 0.0
  }

  function ToQuery<Vec>(metric: Metric<Vec>, vectors: seq<Vec>, query: Vec): (dist: nat -> real)
    ensures forall i: nat | i < |vectors| :: dist(i) == metric(query, vectors[i])
  {
    (i: nat) => if i < |vectors| then metric(query, vectors[i]) else 0.0
  }

  // ---------- The parts of the invariant ----------

  ghost predicate LabelsMatch(labels: seq<nat>, labelLookup: map<nat, nat>) {
    && (forall i | 0 <= i < |labels| :: labels[i] in labelLookup && labelLookup[labels[i]] == i)
    && (forall l | l in labelLookup :: labelLookup[l] < |labels| && labels[labelLookup[l]] == l)
  }

  ghost predicate LevelsMatch(links: Links, levels: seq<nat>) {
    |links| == |levels| && forall i | 0 <= i < |levels| :: |links[i]| == levels[i] + 1
  }

  /** The entry point is an element of the highest level there is. */
  ghost predicate EntryOk(levels: seq<nat>, enterpoint: int, maxlevel: int) {
    if |levels| == 0 then enterpoint == -1 && maxlevel == -1
    else
      && 0 <= enterpoint < |levels| && levels[enterpoint] == maxlevel
      && forall i | 0 <= i < |levels| :: levels[i] <= maxlevel
  }

  ghost function StoredVectors<Vec>(vectors: seq<Vec>, labelLookup: map<nat, nat>, deleted: set<nat>): map<nat, Vec> {
    map l | l in labelLookup && labelLookup[l] < |vectors| && labelLookup[l] !in deleted :: vectors[labelLookup[l]]
  }

  function BlankLists(m: nat, level: nat): seq<LinkList> {
    seq(level + 1, l requires 0 <= l => LinkList(0, seq(Capacity(m, l), _ => 0)))
  }

  /** A new element with blank lists keeps the graph well formed; nothing links to it and it links to nothing. */
  lemma AppendBlank(links: Links, m: nat, levels: seq<nat>, level: nat)
    requires GoodLinks(links, m) && LevelsMatch(links, levels)
    ensures LevelsMatch(links + [BlankLists(m, level)], levels + [level])
    ensures var after := links + [BlankLists(m, level)];
      && GoodLinks(after, m)
      && (forall l: nat | l <= level ::
          Exists(after, |links|, l) && Blank(after[|links|][l]) && Unlinked(after, |links|, l))
      && (forall j: nat, l: nat | Exists(links, j, l) :: Exists(after, j, l) && after[j][l] == links[j][l])
  {
    var after := links + [BlankLists(m, level)];
    forall j: nat, l: nat | Exists(after, j, l)
      ensures GoodList(after, m, j, l) && |links| !in NeighborsAt(after, j, l) {
      if j < |links| {
        assert GoodList(links, m, j, l) && NeighborsAt(after, j, l) == NeighborsAt(links, j, l);
      } else {
        assert NeighborsAt(after, j, l) == [];
      }
    }
  }

  /** The entry point once a new element has been added, and where the search for its neighbours may start. */
  lemma EntryAppend(levels: seq<nat>, enterpoint: int, maxlevel: int, level: nat)
    requires EntryOk(levels, enterpoint, maxlevel)
    ensures |levels| == 0 <==> enterpoint == -1
    ensures |levels| == 0 <==> maxlevel == -1
    ensures |levels| > 0 ==> 0 <= enterpoint < |levels| && levels[enterpoint] == maxlevel >= 0
    ensures EntryOk(levels + [level], if level > maxlevel then |levels| else enterpoint, if level > maxlevel then level
                    else maxlevel)
  {
  }

  lemma LabelsAppend(labels: seq<nat>, labelLookup: map<nat, nat>, lbl: nat)
    requires LabelsMatch(labels, labelLookup) && lbl !in labelLookup
    ensures LabelsMatch(labels + [lbl], labelLookup[lbl := |labels|])
  {
  }

  lemma StoredAppend<Vec>(vectors: seq<Vec>, labels: seq<nat>, labelLookup: map<nat, nat>, deleted: set<nat>, vec: Vec,
                          lbl: nat)
    requires LabelsMatch(labels, labelLookup) && |vectors| == |labels| && lbl !in labelLookup && |vectors| !in deleted
    ensures StoredVectors(vectors + [vec], labelLookup[lbl := |vectors|], deleted)
        == StoredVectors(vectors, labelLookup, deleted)[lbl := vec]
  {
  }

  lemma StoredOverwrite<Vec>(vectors: seq<Vec>, labels: seq<nat>, labelLookup: map<nat, nat>, deleted: set<nat>,
                             vec: Vec, lbl: nat)
    requires LabelsMatch(labels, labelLookup) && |vectors| == |labels| && lbl in labelLookup
    ensures StoredVectors(vectors[labelLookup[lbl] := vec], labelLookup, deleted - {labelLookup[lbl]})
         == StoredVectors(vectors, labelLookup, deleted)[lbl := vec]
  {
    var id := labelLookup[lbl];
    forall l | l in labelLookup && l != lbl ensures labelLookup[l] != id {
      assert labels[labelLookup[l]] == l;
    }
  }
}
