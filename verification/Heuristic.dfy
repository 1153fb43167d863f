/** Choosing diverse neighbours: getNeighborsByHeuristic2 of hnswlib_omp/hnswalg.h. */
module Heuristic {
  import opened Selection
  import opened Graph

  /** The order of queue_closest, which holds (-distance, id) pairs: its top is the closest entry. */
  predicate Closer(a: Entry, b: Entry) {
    a.dist > b.dist || (a.dist == b.dist && a.id <= b.id)
  }

  /** distance between two stored elements */
  type Between = (nat, nat) -> real

  /** Who is looked at first: the closer one, and of two equally close ones the greater id. */
  predicate Ahead(a: Entry, b: Entry) {
    a.dist < b.dist || (a.dist == b.dist && a.id >= b.id)
  }

  /** Some kept entry that was looked at before c is closer to c than the query is. */
  ghost predicate Shadowed(between: Between, kept: seq<Entry>, c: Entry) {
    exists a :: 0 <= a < |kept| && Ahead(kept[a], c) && between(kept[a].id, c.id) < c.dist
  }

  ghost predicate NoneCloserThan(kept: seq<Entry>, c: Entry) {
    forall a | 0 <= a < |kept| :: Ahead(kept[a], c)
  }

  /** The picks are in the order of looking, and each is at least as far from every earlier pick as from the query. */
  ghost predicate Diverse(between: Between, picks: seq<Entry>) {
    forall a, b | 0 <= a < b < |picks| ::
      Ahead(picks[a], picks[b]) && picks[b].dist <= between(picks[a].id, picks[b].id)
  }

  ghost predicate Pruning(between: Between, cands: multiset<Entry>, m: nat, picks: seq<Entry>) {
    && multiset(picks) <= cands && |picks| <= m
    && Diverse(between, picks)
    && (m > 0 && cands != multiset{} ==> picks != [] && forall c | c in cands :: Ahead(picks[0], c))
    && forall c | c in cands - multiset(picks) ::
         Shadowed(between, picks, c) || (|picks| == m && NoneCloserThan(picks, c))
  }

  /** Short inputs are left alone; longer ones are cut down to at most m diverse picks. */
  ghost predicate HeuristicResult(between: Between, cands: multiset<Entry>, m: nat, kept: multiset<Entry>,
                                  picks: seq<Entry>) {
    if |cands| < m then kept == cands else kept == multiset(picks) && Pruning(between, cands, m, picks)
  }

  method TopClosest(q: multiset<Entry>) returns (e: Entry)
    requires q != multiset{}
    ensures IsTop(Closer, q, e)
  {
    TopExists(Closer, q);
    e :| e in q && forall x | x in q :: Closer(x, e);
  }

  method IsGood(between: Between, picks: seq<Entry>, e: Entry) returns (good: bool)
    ensures good <==> forall a | 0 <= a < |picks| :: !(between(picks[a].id, e.id) < e.dist)
  {
    good := true;
    for j := 0 to |picks|
      invariant forall a | 0 <= a < j :: !(between(picks[a].id, e.id) < e.dist)
    {
      if between(picks[j].id, e.id) < e.dist {
        return false;
      }
    }
  }

  /** What the loop knows when `queue` is still to be looked at. */
  ghost predicate Choosing(between: Between, cands: multiset<Entry>, m: nat, queue: multiset<Entry>,
                           picks: seq<Entry>) {
    && queue + multiset(picks) <= cands && |picks| <= m
    && Diverse(between, picks)
    && (forall a, c | 0 <= a < |picks| && c in queue :: Ahead(picks[a], c))
    && (picks == [] ==> queue == cands)
    && (picks != [] ==> forall c | c in cands :: Ahead(picks[0], c))
    && (forall c | c in cands - (queue + multiset(picks)) :: Shadowed(between, picks, c))
  }

  lemma MovedToPicks(queue: multiset<Entry>, picks: seq<Entry>, e: Entry)
    requires e in queue
    ensures queue - multiset{e} + multiset(picks + [e]) == queue + multiset(picks)
  {
  }

  lemma ShadowsStay(between: Between, picks: seq<Entry>, e: Entry, c: Entry)
    requires Shadowed(between, picks, c)
    ensures Shadowed(between, picks + [e], c)
  {
    var a :| 0 <= a < |picks| && Ahead(picks[a], c) && between(picks[a].id, c.id) < c.dist;
    assert (picks + [e])[a] == picks[a];
  }

  lemma DiverseExtends(between: Between, queue: multiset<Entry>, picks: seq<Entry>, e: Entry)
    requires Diverse(between, picks) && e in queue
    requires forall a, c | 0 <= a < |picks| && c in queue :: Ahead(picks[a], c)
    requires forall a | 0 <= a < |picks| :: !(between(picks[a].id, e.id) < e.dist)
    ensures Diverse(between, picks + [e])
  {
  }

  lemma Pick(between: Between, cands: multiset<Entry>, m: nat, queue: multiset<Entry>, picks: seq<Entry>, e: Entry)
    requires Choosing(between, cands, m, queue, picks) && |picks| < m
    requires IsTop(Closer, queue, e)
    requires forall a | 0 <= a < |picks| :: !(between(picks[a].id, e.id) < e.dist)
    ensures Choosing(between, cands, m, queue - multiset{e}, picks + [e])
  {
    hide Shadowed, Diverse;
    MovedToPicks(queue, picks, e);
    DiverseExtends(between, queue, picks, e);
    forall c | c in cands - (queue + multiset(picks)) ensures Shadowed(between, picks + [e], c) {
      ShadowsStay(between, picks, e, c);
    }
  }

  lemma Drop(between: Between, cands: multiset<Entry>, m: nat, queue: multiset<Entry>, picks: seq<Entry>, e: Entry,
             a: nat)
    requires Choosing(between, cands, m, queue, picks)
    requires IsTop(Closer, queue, e)
    requires a < |picks| && between(picks[a].id, e.id) < e.dist
    ensures Choosing(between, cands, m, queue - multiset{e}, picks)
  {
    forall c | c in cands - (queue - multiset{e} + multiset(picks)) ensures Shadowed(between, picks, c) {
      assert c == e || c in cands - (queue + multiset(picks));
    }
  }

  lemma Chosen(between: Between, cands: multiset<Entry>, m: nat, queue: multiset<Entry>, picks: seq<Entry>)
    requires Choosing(between, cands, m, queue, picks)
    requires queue == multiset{} || |picks| == m
    ensures Pruning(between, cands, m, picks)
  {
    forall c | c in cands - multiset(picks)
      ensures Shadowed(between, picks, c) || (|picks| == m && NoneCloserThan(picks, c)) {
      assert c in queue || c in cands - (queue + multiset(picks));
    }
  }

  lemma ChoosingStart(between: Between, cands: multiset<Entry>, m: nat)
    ensures Choosing(between, cands, m, cands, [])
  {
  }

  lemma PicksBounded(between: Between, cands: multiset<Entry>, m: nat, queue: multiset<Entry>, picks: seq<Entry>)
    requires Choosing(between, cands, m, queue, picks)
    ensures |picks| <= m
  {
  }

  method GetNeighborsByHeuristic2(between: Between, cands: multiset<Entry>, m: nat)
    returns (kept: multiset<Entry>, ghost picks: seq<Entry>)
    ensures HeuristicResult(between, cands, m, kept, picks)
    ensures kept <= cands && |kept| <= m && (|cands| < m ==> kept == cands)
    ensures m > 0 && |cands| >= m ==> exists e :: e in kept && forall c | c in cands :: e.dist <= c.dist
  {
    if |cands| < m {
      return cands, [];
    }
    hide Choosing, Pruning;
    ChoosingStart(between, cands, m);
    var queue := cands;
    var returnList: seq<Entry> := [];
    while queue != multiset{}
      invariant Choosing(between, cands, m, queue, returnList)
      decreases |queue|
    {
      PicksBounded(between, cands, m, queue, returnList);
      if |returnList| >= m {
        break;
      }
      var current := TopClosest(queue);
      var good := IsGood(between, returnList, current);
      if good {
        Pick(between, cands, m, queue, returnList, current);
        returnList := returnList + [current];
      } else {
        ghost var a :| 0 <= a < |returnList| && between(returnList[a].id, current.id) < current.dist;
        Drop(between, cands, m, queue, returnList, current, a);
      }
      queue := queue - multiset{current};
    }
    Chosen(between, cands, m, queue, returnList);
    kept, picks := multiset(returnList), returnList;
    ClosestKept(between, cands, m, picks);
  }

  lemma ClosestKept(between: Between, cands: multiset<Entry>, m: nat, picks: seq<Entry>)
    requires Pruning(between, cands, m, picks)
    ensures multiset(picks) <= cands && |multiset(picks)| <= m
    ensures m > 0 && cands != multiset{} ==>
      exists e :: e in multiset(picks) && forall c | c in cands :: e.dist <= c.dist
  {
    if m > 0 && cands != multiset{} {
      assert picks[0] in multiset(picks);
    }
  }

  // ---------- There is only one such choice ----------

  /** Nothing repeats among the candidates, so nothing repeats among the picks. */
  lemma PickedOnce(cands: multiset<Entry>, picks: seq<Entry>, i: nat, j: nat)
    requires multiset(picks) <= cands && (forall c :: cands[c] <= 1) && i < j < |picks|
    ensures picks[i] != picks[j]
  {
    assert picks == picks[..j] + [picks[j]] + picks[j + 1..];
    assert multiset(picks)[picks[j]] <= cands[picks[j]] <= 1;
    assert picks[..j][i] == picks[i];
    assert multiset(picks) == multiset(picks[..j]) + multiset{picks[j]} + multiset(picks[j + 1..]);
  }

  lemma PassedOver(between: Between, cands: multiset<Entry>, m: nat, q: seq<Entry>, x: Entry)
    requires Pruning(between, cands, m, q) && x in cands && forall j | 0 <= j < |q| :: q[j] != x
    ensures Shadowed(between, q, x) || (|q| == m && NoneCloserThan(q, x))
  {
    assert x !in multiset(q);
    assert x in cands - multiset(q);
  }

  /** Two choices that agree on the first k picks cannot go on with x and with something looked at after x, or with
      nothing. */
  lemma NextPickForced(between: Between, cands: multiset<Entry>, m: nat, p: seq<Entry>, q: seq<Entry>, k: nat)
    requires Pruning(between, cands, m, p) && Pruning(between, cands, m, q) && forall c :: cands[c] <= 1
    requires k < |p| && k <= |q| && p[..k] == q[..k]
    requires k < |q| ==> Ahead(p[k], q[k])
    ensures k < |q| && p[k] == q[k]
  {
    var x := p[k];
    assert x in multiset(p);
    if k == |q| || x != q[k] {
      forall j | 0 <= j < |q| ensures q[j] != x && if j < k then q[j] == p[j] else !Ahead(q[j], x) {
        if j < k {
          assert p[..k][j] == q[..k][j];
          PickedOnce(cands, p, j, k);
        } else {
          assert j > k ==> Ahead(q[k], q[j]);
        }
      }
      PassedOver(between, cands, m, q, x);
    }
  }

  lemma {:induction false} SamePicks(between: Between, cands: multiset<Entry>, m: nat, p: seq<Entry>, q: seq<Entry>,
                                     k: nat)
    requires Pruning(between, cands, m, p) && Pruning(between, cands, m, q) && forall c :: cands[c] <= 1
    requires k <= |p| && k <= |q| && p[..k] == q[..k]
    ensures p == q
    decreases |p| - k
  {
    hide Pruning;
    if k < |p| && k < |q| {
      if Ahead(p[k], q[k]) {
        NextPickForced(between, cands, m, p, q, k);
      } else {
        NextPickForced(between, cands, m, q, p, k);
      }
      assert p[..k + 1] == p[..k] + [p[k]] && q[..k + 1] == q[..k] + [q[k]];
      SamePicks(between, cands, m, p, q, k + 1);
    } else if k < |p| {
      NextPickForced(between, cands, m, p, q, k);
    } else if k < |q| {
      NextPickForced(between, cands, m, q, p, k);
    }
  }

  /** The candidates and the bound determine what is kept. */
  lemma HeuristicUnique(between: Between, cands: multiset<Entry>, m: nat, kept: multiset<Entry>, picks: seq<Entry>,
                        kept': multiset<Entry>, picks': seq<Entry>)
    requires forall c :: cands[c] <= 1
    requires HeuristicResult(between, cands, m, kept, picks) && HeuristicResult(between, cands, m, kept', picks')
    ensures kept == kept'
  {
    if |cands| >= m {
      SamePicks(between, cands, m, picks, picks', 0);
    }
  }

  // ---------- The heuristic on sets of nodes ----------

  lemma {:induction false} SubEntries(key: nat -> real, s: set<nat>, q: multiset<Entry>) returns (t: set<nat>)
    requires q <= EntriesOf(key, s)
    ensures t <= s && q == EntriesOf(key, t)
  {
    EntriesMember(key, s);
    t := set e | e in q :: e.id;
    EntriesMember(key, t);
    forall e ensures q[e] == EntriesOf(key, t)[e] {
      if e in q {
        assert e in EntriesOf(key, s);
      }
    }
  }

  /** What a caller relies on: at most m of the candidates survive (all of them, if there were fewer than m),
      and a nearest one is among them. */
  lemma HeuristicKeeps(between: Between, key: nat -> real, s: set<nat>, m: nat, kept: multiset<Entry>,
                       picks: seq<Entry>)
    returns (t: set<nat>)
    requires m > 0 && HeuristicResult(between, EntriesOf(key, s), m, kept, picks)
    ensures t <= s && kept == EntriesOf(key, t) && |t| <= m
    ensures s != {} ==> exists n :: n in t && forall x | x in s :: key(n) <= key(x)
  {
    t := SubEntries(key, s, kept);
    EntriesSize(key, t);
    EntriesMember(key, t);
    EntriesSize(key, s);
    EntriesMember(key, s);
    if s != {} {
      if |s| < m {
        assert t == s by {
          assert forall x | x in s :: Entry(key(x), x) in EntriesOf(key, t);
        }
        NearestExists(key, s);
      } else {
        assert picks[0] in kept;
        forall x | x in s ensures key(picks[0].id) <= key(x) {
          assert Entry(key(x), x) in EntriesOf(key, s);
        }
      }
    }
  }

  lemma {:induction false} NearestExists(key: nat -> real, s: set<nat>)
    requires s != {}
    ensures exists n :: n in s && forall x | x in s :: key(n) <= key(x)
    decreases |s|
  {
    var x :| x in s;
    if s != {x} {
      NearestExists(key, s - {x});
      var n :| n in s - {x} && forall y | y in s - {x} :: key(n) <= key(y);
      var best := if key(x) <= key(n) then x else n;
      assert forall y | y in s :: key(best) <= key(y);
    }
  }
}
