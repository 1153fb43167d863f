/** searchKnn of hnswlib_omp/hnswalg.h, and when it agrees with the exhaustive scan. */
module KnnSearch {
  import opened Selection
  import opened Graph
  import opened LayerSearch
  import opened HnswData
  import Update
  import BruteForce

  function Max(a: nat, b: nat): (r: nat)
    ensures r >= a && r >= b && (r == a || r == b)
  {
    if a < b then b else a
  }

  // ---------- Selections of nodes ----------

  ghost predicate Nearest(key: nat -> real, a: set<nat>, b: set<nat>, k: nat) {
    a <= b && |a| == Min(k, |b|) && forall x, y | x in a && y in b && y !in a :: key(x) <= key(y)
  }

  lemma NearestSelects(key: nat -> real, a: set<nat>, b: set<nat>, k: nat)
    requires Nearest(key, a, b, k)
    ensures Selects(ByDist, EntriesOf(key, a), EntriesOf(key, b), k)
  {
    EntriesSize(key, a);
    EntriesSize(key, b);
    EntriesMember(key, a);
    EntriesMember(key, b);
    hide EntriesOf;
    forall e ensures EntriesOf(key, a)[e] <= EntriesOf(key, b)[e] {
      if e in EntriesOf(key, a) {
        assert e in EntriesOf(key, b);
      }
    }
    forall s, u | s in EntriesOf(key, a) && u in EntriesOf(key, b) - EntriesOf(key, a) ensures ByDist(s, u) {
      assert u in EntriesOf(key, b) && u !in EntriesOf(key, a);
    }
  }

  lemma DropFarthest(key: nat -> real, a: set<nat>, b: set<nat>, e: Entry)
    requires Nearest(key, a, b, |a|) && IsTop(ByDist, EntriesOf(key, a), e)
    ensures e.id in a && e == Entry(key(e.id), e.id)
    ensures Nearest(key, a - {e.id}, b, |a| - 1)
  {
    EntriesTop(key, a, e);
    SubsetSize(a, b);
  }

  // ---------- From node ids to labels ----------

  ghost function LabelsOf(labels: seq<nat>, t: set<nat>): set<nat> {
    set i | i in t && i < |labels| :: labels[i]
  }

  ghost function LabelKey(dist: nat -> real, labelLookup: map<nat, nat>): nat -> real {
    (l: nat) => if l in labelLookup then dist(labelLookup[l]) else 0.0
  }

  lemma LabelOne(labels: seq<nat>, labelLookup: map<nat, nat>, t: set<nat>, x: nat)
    requires LabelsMatch(labels, labelLookup) && x !in t && x < |labels| && forall i | i in t :: i < |labels|
    ensures LabelsOf(labels, t + {x}) == LabelsOf(labels, t) + {labels[x]} && labels[x] !in LabelsOf(labels, t)
  {
    forall i | i in t ensures labels[i] != labels[x] {
      assert labelLookup[labels[i]] == i && labelLookup[labels[x]] == x;
    }
  }

  lemma {:induction false} LabelsSize(labels: seq<nat>, labelLookup: map<nat, nat>, t: set<nat>)
    requires LabelsMatch(labels, labelLookup) && forall i | i in t :: i < |labels|
    ensures |LabelsOf(labels, t)| == |t|
  {
    if t != {} {
      var x :| x in t;
      LabelsSize(labels, labelLookup, t - {x});
      LabelOne(labels, labelLookup, t - {x}, x);
      assert t - {x} + {x} == t;
    }
  }

  /** Replacing ids by labels keeps a selection a selection. */
  lemma NearestByLabel(dist: nat -> real, labels: seq<nat>, labelLookup: map<nat, nat>, a: set<nat>, b: set<nat>,
                       k: nat)
    requires LabelsMatch(labels, labelLookup) && forall i | i in b :: i < |labels|
    requires Nearest(dist, a, b, k)
    ensures Nearest(LabelKey(dist, labelLookup), LabelsOf(labels, a), LabelsOf(labels, b), k)
  {
    LabelsSize(labels, labelLookup, a);
    LabelsSize(labels, labelLookup, b);
    var key, la, lb := LabelKey(dist, labelLookup), LabelsOf(labels, a), LabelsOf(labels, b);
    forall x, y | x in la && y in lb && y !in la ensures key(x) <= key(y) {
      assert labelLookup[x] in a && labelLookup[y] in b && labelLookup[y] !in a;
    }
  }

  /** The labelled live nodes are exactly what the exhaustive scan scores. */
  lemma LiveScores<Vec>(metric: Metric<Vec>, query: Vec, vectors: seq<Vec>, labels: seq<nat>, labelLookup: map<nat,
                        nat>, deleted: set<nat>, live: set<nat>)
    requires LabelsMatch(labels, labelLookup) && |vectors| == |labels|
    requires forall i: nat :: i in live <==> i < |vectors| && i !in deleted
    ensures EntriesOf(LabelKey(ToQuery(metric, vectors, query), labelLookup), LabelsOf(labels, live))
         == BruteForce.Scores(metric, query, StoredVectors(vectors, labelLookup, deleted))
  {
    var key := LabelKey(ToQuery(metric, vectors, query), labelLookup);
    var stored := StoredVectors(vectors, labelLookup, deleted);
    var a := set l | l in LabelsOf(labels, live) :: Entry(key(l), l);
    var b := set l | l in stored :: BruteForce.Score(metric, query, BruteForce.Item(stored[l], l));
    assert LabelsOf(labels, live) == stored.Keys by {
      forall l | l in stored ensures l in LabelsOf(labels, live) {
        assert labelLookup[l] in live && labels[labelLookup[l]] == l;
      }
    }
    forall e ensures e in a <==> e in b {
      if e.id in stored {
        assert key(e.id) == metric(query, stored[e.id]);
      }
    }
    assert a == b;
  }

  // ---------- The search ----------

  /** `while (top_candidates.size() > k) top_candidates.pop();` */
  method PopTo(top: multiset<Entry>, k: nat, ghost dist: nat -> real, ghost found: set<nat>)
    returns (rest: multiset<Entry>, ghost t: set<nat>)
    requires top == EntriesOf(dist, found)
    ensures rest == EntriesOf(dist, t) && Nearest(dist, t, found, k)
    ensures Selects(ByDist, rest, top, k)
  {
    hide EntriesOf, Selects, Nearest;
    rest, t := top, found;
    SelectsAll(ByDist, top, |top|);
    EntriesSize(dist, t);
    AllNearest(dist, found);
    while |rest| > k
      invariant rest == EntriesOf(dist, t) && |rest| == |t|
      invariant Nearest(dist, t, found, |t|) && |t| >= Min(k, |found|)
      invariant Selects(ByDist, rest, top, |rest|) && (|top| >= k ==> |rest| >= k) && (|top| < k ==> rest == top)
      decreases |rest|
    {
      var e := TopByDist(rest);
      DropFarthest(dist, t, found, e);
      SelectsPop(ByDist, rest, top, e);
      EntriesRemove(dist, t, e.id);
      rest, t := rest - multiset{e}, t - {e.id};
      EntriesSize(dist, t);
    }
    Popped(rest, top, dist, t, found, k);
  }

  lemma AllNearest(key: nat -> real, found: set<nat>)
    ensures Nearest(key, found, found, |found|)
  {
  }

  lemma Popped(rest: multiset<Entry>, top: multiset<Entry>, dist: nat -> real, t: set<nat>, found: set<nat>, k: nat)
    requires |rest| == |t| <= k && Min(k, |found|) <= |t| && Nearest(dist, t, found, |t|)
    requires Selects(ByDist, rest, top, |rest|) && (|top| >= k ==> |rest| >= k) && (|top| < k ==> rest == top)
    ensures Nearest(dist, t, found, k) && Selects(ByDist, rest, top, k)
  {
    SubsetSize(t, found);
    if |top| < k {
      SelectsAll(ByDist, top, k);
    }
  }

  /** Moves the entries over to the result, with external labels for internal ids. */
  method Relabel(top: multiset<Entry>, labels: seq<nat>, ghost labelLookup: map<nat, nat>, ghost dist: nat -> real,
                 ghost t: set<nat>)
    returns (result: multiset<Entry>)
    requires top == EntriesOf(dist, t) && LabelsMatch(labels, labelLookup) && forall i | i in t :: i < |labels|
    ensures result == EntriesOf(LabelKey(dist, labelLookup), LabelsOf(labels, t))
  {
    hide EntriesOf;
    ghost var key := LabelKey(dist, labelLookup);
    var rest := top;
    ghost var left := t;
    result := multiset{};
    assert LabelsOf(labels, t - t) == {};
    Update.EntriesEmpty(key);
    while rest != multiset{}
      invariant left <= t && rest == EntriesOf(dist, left)
      invariant result == EntriesOf(key, LabelsOf(labels, t - left))
      decreases |rest|
    {
      var rez := TopByDist(rest);
      EntriesTop(dist, left, rez);
      LabelOne(labels, labelLookup, t - left, rez.id);
      EntriesAdd(key, LabelsOf(labels, t - left), labels[rez.id]);
      result := result + multiset{Entry(rez.dist, labels[rez.id])};
      EntriesRemove(dist, left, rez.id);
      assert t - (left - {rez.id}) == t - left + {rez.id};
      rest, left := rest - multiset{rez}, left - {rez.id};
    }
    EntriesSize(dist, left);
    assert t - left == t;
  }
}
