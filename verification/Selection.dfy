/** What it means to keep the k best of a collection of scored items.

    Every search in the repository keeps its answers in a `std::priority_queue` of (distance, id) pairs.
    Two orders are in use: `CompareByFirst` looks at the distance alone, and the default order on
    `std::pair` is lexicographic.  A queue is modelled as a multiset: `top()` may return any maximal element. */
module Selection {

  datatype Entry = Entry(dist: real, id: nat)

  predicate ByDist(a: Entry, b: Entry) {
    a.dist <= b.dist
  }

  predicate Lex(a: Entry, b: Entry) {
    a.dist < b.dist || (a.dist == b.dist && a.id <= b.id)
  }

  type Order = (Entry, Entry) -> bool

  ghost predicate TotalPreorder(leq: Order) {
    && (forall a, b :: leq(a, b) || leq(b, a))
    && (forall a, b, c :: leq(a, b) && leq(b, c) ==> leq(a, c))
  }

  function Min(a: nat, b: nat): (r: nat)
    ensures r <= a && r <= b && (r == a || r == b)
  {
    if a <= b then a else b
  }

  ghost predicate IsTop(leq: Order, q: multiset<Entry>, e: Entry) {
    e in q && forall x | x in q :: leq(x, e)
  }

  /** `kept` holds the k least elements of `all`, or all of them when there are fewer than k. */
  ghost predicate Selects(leq: Order, kept: multiset<Entry>, all: multiset<Entry>, k: nat) {
    && kept <= all
    && |kept| == Min(k, |all|)
    && forall s, u | s in kept && u in all - kept :: leq(s, u)
  }

  // ---------- Queue operations ----------

  lemma {:induction false} TopExists(leq: Order, q: multiset<Entry>)
    requires TotalPreorder(leq) && q != multiset{}
    ensures exists e :: IsTop(leq, q, e)
    decreases |q|
  {
    var x :| x in q;
    var rest := q - multiset{x};
    if rest == multiset{} {
      assert forall y | y in q :: y == x by {
        forall y | y in q ensures y == x {
          assert y in rest || y == x;
        }
      }
      assert IsTop(leq, q, x);
    } else {
      TopExists(leq, rest);
      var m :| IsTop(leq, rest, m);
      var best := if leq(m, x) then x else m;
      forall y | y in q ensures leq(y, best) {
        assert y == x || y in rest;
      }
      assert IsTop(leq, q, best);
    }
  }

  /** `top()` of a queue ordered by `CompareByFirst`: some entry at the largest distance. */
  method TopByDist(q: multiset<Entry>) returns (e: Entry)
    requires q != multiset{}
    ensures IsTop(ByDist, q, e)
  {
    TopExists(ByDist, q);
    e :| e in q && forall x | x in q :: ByDist(x, e);
  }

  /** `top()` of a queue with the default order on pairs. */
  method TopLex(q: multiset<Entry>) returns (e: Entry)
    requires q != multiset{}
    ensures IsTop(Lex, q, e)
  {
    TopExists(Lex, q);
    e :| e in q && forall x | x in q :: Lex(x, e);
  }

  // ---------- How a bounded queue keeps the k least ----------

  lemma SelectsAll(leq: Order, all: multiset<Entry>, k: nat)
    requires |all| <= k
    ensures Selects(leq, all, all, k)
  {
    assert all - all == multiset{};
  }

  lemma SelectsPush(leq: Order, kept: multiset<Entry>, all: multiset<Entry>, k: nat, x: Entry)
    requires Selects(leq, kept, all, k) && |kept| < k
    ensures Selects(leq, kept + multiset{x}, all + multiset{x}, k)
  {
    CardinalityGap(kept, all);
    assert kept == all;
  }

  lemma CardinalityGap(a: multiset<Entry>, b: multiset<Entry>)
    requires a <= b
    ensures |b - a| == |b| - |a|
    ensures |a| == |b| ==> a == b
  {
    assert b == a + (b - a);
    if |a| == |b| {
      assert b - a == multiset{};
    }
  }

  lemma SelectsReplace(leq: Order, kept: multiset<Entry>, all: multiset<Entry>, k: nat, x: Entry, m: Entry)
    requires TotalPreorder(leq)
    requires Selects(leq, kept, all, k) && |kept| == k
    requires IsTop(leq, kept + multiset{x}, m)
    ensures Selects(leq, kept + multiset{x} - multiset{m}, all + multiset{x}, k)
  {
    var kept' := kept + multiset{x} - multiset{m};
    var all' := all + multiset{x};
    forall s, u | s in kept' && u in all' - kept' ensures leq(s, u) {
      assert s in kept + multiset{x};
      assert leq(s, m);
      if u != m {
        assert u in all - kept;
        if s == x && s !in kept {
          assert m in kept;
          assert leq(m, u);
        }
      }
    }
  }

  lemma SelectsSkip(leq: Order, kept: multiset<Entry>, all: multiset<Entry>, k: nat, x: Entry)
    requires Selects(leq, kept, all, k) && |kept| == k
    requires forall s | s in kept :: leq(s, x)
    ensures Selects(leq, kept, all + multiset{x}, k)
  {
    forall s, u | s in kept && u in all + multiset{x} - kept ensures leq(s, u) {
      assert u == x || u in all - kept;
    }
  }

  /** Removing a maximal element moves from k to k - 1. */
  lemma SelectsPop(leq: Order, kept: multiset<Entry>, all: multiset<Entry>, m: Entry)
    requires Selects(leq, kept, all, |kept|)
    requires IsTop(leq, kept, m)
    ensures Selects(leq, kept - multiset{m}, all, |kept| - 1)
  {
    forall s, u | s in kept - multiset{m} && u in all - (kept - multiset{m}) ensures leq(s, u) {
      assert u == m || u in all - kept;
    }
  }

  /** Whatever `part` leaves out of `whole` is preceded by k elements of `part`. */
  ghost predicate Sufficient(leq: Order, part: multiset<Entry>, whole: multiset<Entry>, k: nat) {
    part <= whole && forall u | u in whole - part :: HasPredecessors(leq, part, u, k)
  }

  ghost predicate HasPredecessors(leq: Order, part: multiset<Entry>, u: Entry, k: nat) {
    exists w :: w <= part && |w| == k && forall v | v in w :: leq(v, u)
  }

  lemma SelectionIsSufficient(leq: Order, kept: multiset<Entry>, all: multiset<Entry>, k: nat)
    requires Selects(leq, kept, all, k)
    ensures Sufficient(leq, kept, all, k)
  {
    CardinalityGap(kept, all);
    forall u | u in all - kept ensures HasPredecessors(leq, kept, u, k) {
      assert kept <= kept && |kept| == k;
    }
  }

  lemma SufficientUnion(leq: Order, a: multiset<Entry>, aAll: multiset<Entry>, b: multiset<Entry>,
                        bAll: multiset<Entry>, k: nat)
    requires Sufficient(leq, a, aAll, k) && Sufficient(leq, b, bAll, k)
    ensures Sufficient(leq, a + b, aAll + bAll, k)
  {
    forall u | u in (aAll + bAll) - (a + b) ensures HasPredecessors(leq, a + b, u, k) {
      if u in aAll - a {
        var w :| w <= a && |w| == k && forall v | v in w :: leq(v, u);
        assert w <= a + b;
      } else {
        assert u in bAll - b;
        var w :| w <= b && |w| == k && forall v | v in w :: leq(v, u);
        assert w <= a + b;
      }
    }
  }

  /** The k least of a sufficient part are the k least of the whole. */
  lemma SelectFromSufficient(leq: Order, c: multiset<Entry>, part: multiset<Entry>, whole: multiset<Entry>, k: nat)
    requires TotalPreorder(leq)
    requires Sufficient(leq, part, whole, k) && Selects(leq, c, part, k)
    ensures Selects(leq, c, whole, k)
  {
    CardinalityGap(part, whole);
    forall u | u in whole - part ensures |part| >= k && forall s | s in c :: leq(s, u) {
      var w :| w <= part && |w| == k && forall v | v in w :: leq(v, u);
      Precedes(leq, c, part, w, u, k);
    }
    if part != whole {
      var u := MissingFrom(part, whole);
      assert u in whole - part;
    }
    forall s, u | s in c && u in whole - c ensures leq(s, u) {
      assert u in part - c || u in whole - part;
    }
  }

  lemma MissingFrom(part: multiset<Entry>, whole: multiset<Entry>) returns (u: Entry)
    requires part <= whole && part != whole
    ensures u in whole - part
  {
    u :| whole[u] > part[u];
  }

  lemma Precedes(leq: Order, c: multiset<Entry>, part: multiset<Entry>, w: multiset<Entry>, u: Entry, k: nat)
    requires TotalPreorder(leq) && Selects(leq, c, part, k)
    requires w <= part && |w| == k && forall v | v in w :: leq(v, u)
    ensures |part| >= k && forall s | s in c :: leq(s, u)
  {
    CardinalityGap(w, part);
    if w <= c {
      CardinalityGap(w, c);
    } else {
      var v :| v in w && w[v] > c[v];
      assert v in part - c;
    }
  }

  /** Keeping the k least of each part, and then the k least of what was kept, keeps the k least of the whole. */
  lemma SelectsUnion(leq: Order, a: multiset<Entry>, aAll: multiset<Entry>, b: multiset<Entry>, bAll: multiset<Entry>,
                     c: multiset<Entry>, k: nat)
    requires TotalPreorder(leq)
    requires Selects(leq, a, aAll, k) && Selects(leq, b, bAll, k) && Selects(leq, c, a + b, k)
    ensures Selects(leq, c, aAll + bAll, k)
  {
    SelectionIsSufficient(leq, a, aAll, k);
    SelectionIsSufficient(leq, b, bAll, k);
    SufficientUnion(leq, a, aAll, b, bAll, k);
    SelectFromSufficient(leq, c, a + b, aAll + bAll, k);
  }

  // ---------- A selection is determined by what it selects from ----------

  lemma Surplus(a: multiset<Entry>, b: multiset<Entry>) returns (x: Entry)
    requires |a| == |b| && a != b
    ensures a[x] > b[x]
  {
    if a <= b {
      CardinalityGap(a, b);
    }
    x :| a[x] > b[x];
  }

  /** Two selections from the same collection can only disagree on elements that tie. */
  lemma DifferencesTie(leq: Order, a: multiset<Entry>, b: multiset<Entry>, all: multiset<Entry>, k: nat)
    requires Selects(leq, a, all, k) && Selects(leq, b, all, k)
    ensures forall x, y | x in a - b && y in b - a :: leq(x, y) && leq(y, x)
  {
    forall x, y | x in a - b && y in b - a ensures leq(x, y) && leq(y, x) {
      assert x in all - b && y in all - a;
    }
  }

  lemma LexUnique(a: multiset<Entry>, b: multiset<Entry>, all: multiset<Entry>, k: nat)
    requires Selects(Lex, a, all, k) && Selects(Lex, b, all, k)
    ensures a == b
  {
    if a != b {
      var x := Surplus(a, b);
      var y := Surplus(b, a);
      assert x in a - b && y in b - a && x != y;
      DifferencesTie(Lex, a, b, all, k);
    }
  }

  /** The distances held by a queue, with multiplicity. */
  ghost function Dists(s: multiset<Entry>): multiset<real>
    decreases |s|
  {
    if s == multiset{} then multiset{} else
      var e :| e in s;
      multiset{e.dist} + Dists(s - multiset{e})
  }

  lemma DistsUnfold(s: multiset<Entry>) returns (e: Entry)
    requires s != multiset{}
    ensures e in s && Dists(s) == multiset{e.dist} + Dists(s - multiset{e})
  {
    e :| e in s && Dists(s) == multiset{e.dist} + Dists(s - multiset{e});
  }

  lemma SwapOut(s: multiset<Entry>, x: Entry, e: Entry)
    requires e in s && e != x
    ensures s + multiset{x} - multiset{e} == (s - multiset{e}) + multiset{x}
    ensures s == (s - multiset{e}) + multiset{e}
    ensures |s - multiset{e}| < |s|
  {
  }

  lemma {:induction false} DistsAdd(s: multiset<Entry>, x: Entry)
    ensures Dists(s + multiset{x}) == Dists(s) + multiset{x.dist}
    decreases |s|
  {
    hide Dists;
    var e := DistsUnfold(s + multiset{x});
    if e == x {
      assert s + multiset{x} - multiset{e} == s;
    } else {
      var r := s - multiset{e};
      SwapOut(s, x, e);
      DistsAdd(r, x);
      DistsAdd(r, e);
    }
  }

  lemma TakeOne(s: multiset<Entry>) returns (e: Entry, rest: multiset<Entry>)
    requires s != multiset{}
    ensures e in s && rest <= s && |rest| == |s| - 1
    ensures Dists(s) == Dists(rest) + multiset{e.dist}
  {
    e := DistsUnfold(s);
    rest := s - multiset{e};
  }

  lemma {:induction false} DistsOfEqual(s: multiset<Entry>, t: multiset<Entry>, d: real)
    requires |s| == |t|
    requires forall e: Entry | e in s || e in t :: e.dist == d
    ensures Dists(s) == Dists(t)
    decreases |s|
  {
    if s == multiset{} {
      assert t == multiset{};
    } else {
      var e, s' := TakeOne(s);
      var f, t' := TakeOne(t);
      DistsOfEqual(s', t', d);
      assert e.dist == d && f.dist == d;
    }
  }

  lemma {:induction false} DistsUnion(s: multiset<Entry>, t: multiset<Entry>)
    ensures Dists(s + t) == Dists(s) + Dists(t)
    decreases |t|
  {
    if t == multiset{} {
      assert s + t == s;
    } else {
      var e :| e in t;
      var t' := t - multiset{e};
      assert t == t' + multiset{e};
      assert s + t == (s + t') + multiset{e};
      DistsUnion(s, t');
      DistsAdd(t', e);
      DistsAdd(s + t', e);
    }
  }

  lemma TiedDistance(a: multiset<Entry>, b: multiset<Entry>, all: multiset<Entry>, k: nat) returns (d: real)
    requires Selects(ByDist, a, all, k) && Selects(ByDist, b, all, k) && a != b
    ensures forall e: Entry | e in a - b || e in b - a :: e.dist == d
  {
    var x := Surplus(a, b);
    var y := Surplus(b, a);
    d := x.dist;
    DifferencesTie(ByDist, a, b, all, k);
    assert x in a - b && y in b - a && ByDist(x, y) && ByDist(y, x);
    forall e: Entry | e in a - b || e in b - a ensures e.dist == d {
      if e in a - b {
        assert ByDist(e, y) && ByDist(y, e);
      } else {
        assert ByDist(x, e) && ByDist(e, x);
      }
    }
  }

  /** With ties broken arbitrarily the ids may differ, but the distances may not. */
  lemma DistsUnique(a: multiset<Entry>, b: multiset<Entry>, all: multiset<Entry>, k: nat)
    requires Selects(ByDist, a, all, k) && Selects(ByDist, b, all, k)
    ensures Dists(a) == Dists(b)
  {
    if a != b {
      var d := TiedDistance(a, b, all, k);
      assert a == a * b + (a - b) && b == a * b + (b - a);
      DistsUnion(a * b, a - b);
      DistsUnion(a * b, b - a);
      DistsOfEqual(a - b, b - a, d);
    }
  }

  lemma LexRefinesDist(kept: multiset<Entry>, all: multiset<Entry>, k: nat)
    requires Selects(Lex, kept, all, k)
    ensures Selects(ByDist, kept, all, k)
  {
    forall s, u | s in kept && u in all - kept ensures ByDist(s, u) {
      assert Lex(s, u);
    }
  }
}
