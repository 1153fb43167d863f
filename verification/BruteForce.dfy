/** The exhaustive index of hnswlib_omp/bruteforce.h: serial scan, parallel scan, and the merge of per-thread queues. */
module BruteForce {
  import opened Arith
  import opened Selection

  type Metric<!Vec> = (Vec, Vec) -> real

  datatype Item<Vec> = Item(vec: Vec, lbl: nat)

  function Score<Vec>(metric: Metric<Vec>, query: Vec, item: Item<Vec>): Entry {
    Entry(metric(query, item.vec), item.lbl)
  }

  /** Every stored vector with its distance to the query: what a nearest-neighbour search chooses from. */
  ghost function Scores<Vec>(metric: Metric<Vec>, query: Vec, stored: map<nat, Vec>): multiset<Entry> {
    multiset(set lbl | lbl in stored :: Score(metric, query, Item(stored[lbl], lbl)))
  }

  ghost function Scan<Vec>(metric: Metric<Vec>, query: Vec, items: seq<Item<Vec>>): multiset<Entry> {
    if items == [] then multiset{}
    else Scan(metric, query, items[..|items| - 1]) + multiset{Score(metric, query, items[|items| - 1])}
  }

  lemma ScanOfNothing<Vec>(metric: Metric<Vec>, query: Vec, items: seq<Item<Vec>>, k: nat)
    requires items == []
    ensures Selects(Lex, multiset{}, Scan(metric, query, items), k)
        && Selects(ByDist, multiset{}, Scan(metric, query, items), k)
  {
  }

  lemma ScanNext<Vec>(metric: Metric<Vec>, query: Vec, items: seq<Item<Vec>>, i: nat)
    requires i < |items|
    ensures Scan(metric, query, items[..i + 1])
        == Scan(metric, query, items[..i]) + multiset{Score(metric, query, items[i])}
  {
    assert items[..i + 1][..i] == items[..i];
  }

  lemma {:induction false} ScanAppend<Vec>(metric: Metric<Vec>, query: Vec, s: seq<Item<Vec>>, t: seq<Item<Vec>>)
    ensures Scan(metric, query, s + t) == Scan(metric, query, s) + Scan(metric, query, t)
    decreases |t|
  {
    if t == [] {
      assert s + t == s;
    } else {
      assert (s + t)[..|s + t| - 1] == s + t[..|t| - 1];
      ScanAppend(metric, query, s, t[..|t| - 1]);
    }
  }

  ghost predicate Stores<Vec>(items: seq<Item<Vec>>, stored: map<nat, Vec>) {
    && (forall i, j | 0 <= i < j < |items| :: items[i].lbl != items[j].lbl)
    && (forall i | 0 <= i < |items| :: items[i].lbl in stored && stored[items[i].lbl] == items[i].vec)
    && (forall l | l in stored :: exists i :: 0 <= i < |items| && items[i].lbl == l)
  }

  lemma MultisetOfSets(t: set<Entry>, e: Entry)
    requires e !in t
    ensures multiset(t + {e}) == multiset(t) + multiset{e}
  {
  }

  lemma ScoresOfExtended<Vec>(metric: Metric<Vec>, query: Vec, rest: map<nat, Vec>, item: Item<Vec>)
    requires item.lbl !in rest
    ensures Scores(metric, query, rest[item.lbl := item.vec])
        == Scores(metric, query, rest) + multiset{Score(metric, query, item)}
  {
    var whole := rest[item.lbl := item.vec];
    var s := set l | l in whole :: Score(metric, query, Item(whole[l], l));
    var t := set l | l in rest :: Score(metric, query, Item(rest[l], l));
    var e := Score(metric, query, item);
    assert e !in t;
    forall x: Entry ensures x in s <==> x in t + {e} {
      assert x in s <==> x.id in whole && x == Score(metric, query, Item(whole[x.id], x.id));
      assert x in t <==> x.id in rest && x == Score(metric, query, Item(rest[x.id], x.id));
    }
    assert s == t + {e};
    MultisetOfSets(t, e);
  }

  /** The order in which the elements are stored does not matter: a scan sees each label once. */
  lemma {:induction false} ScanIsScores<Vec>(metric: Metric<Vec>, query: Vec, items: seq<Item<Vec>>, stored: map<nat,
                                             Vec>)
    requires Stores(items, stored)
    ensures Scan(metric, query, items) == Scores(metric, query, stored)
    decreases |items|
  {
    if items == [] {
      assert stored.Keys == {};
    } else {
      var last := items[|items| - 1];
      var front := items[..|items| - 1];
      var rest := stored - {last.lbl};
      forall l | l in rest ensures exists i :: 0 <= i < |front| && front[i].lbl == l {
        var i :| 0 <= i < |items| && items[i].lbl == l;
        assert front[i].lbl == l;
      }
      assert Stores(front, rest);
      ScanIsScores(metric, query, front, rest);
      ScoresOfExtended(metric, query, rest, last);
      assert stored == rest[last.lbl := last.vec];
    }
  }

  /** One pair for each label, at the distance of its vector. */
  lemma {:induction false} ScoresOnce<Vec>(metric: Metric<Vec>, query: Vec, stored: map<nat, Vec>)
    ensures |Scores(metric, query, stored)| == |stored|
    ensures forall e :: e in Scores(metric, query, stored) <==> e.id in stored && e.dist == metric(query, stored[e.id])
    ensures forall e :: Scores(metric, query, stored)[e] <= 1
    decreases |stored|
  {
    if stored.Keys != {} {
      var lbl :| lbl in stored;
      var rest := stored - {lbl};
      ScoresOnce(metric, query, rest);
      ScoresOfExtended(metric, query, rest, Item(stored[lbl], lbl));
      assert stored == rest[lbl := stored[lbl]];
    }
  }

  /** What a selection from the contents is, pair by pair: as many as asked for, each stored label at most once and at
      its own distance, and nothing left out that would come first; of two equally close the smaller label does. */
  lemma NearestContents<Vec>(metric: Metric<Vec>, query: Vec, stored: map<nat, Vec>, kept: multiset<Entry>, k: nat)
    requires Selects(Lex, kept, Scores(metric, query, stored), k)
    ensures |kept| == (if k <= |stored| then k else |stored|)
    ensures forall e | e in kept :: kept[e] == 1 && e.id in stored && e.dist == metric(query, stored[e.id])
    ensures forall e, lbl | e in kept && lbl in stored && Entry(metric(query, stored[lbl]), lbl) !in kept ::
              e.dist < metric(query, stored[lbl]) || (e.dist == metric(query, stored[lbl]) && e.id < lbl)
  {
    ScoresOnce(metric, query, stored);
    hide Scores;
    var all := Scores(metric, query, stored);
    forall e, lbl | e in kept && lbl in stored && Entry(metric(query, stored[lbl]), lbl) !in kept
      ensures e.dist < metric(query, stored[lbl]) || (e.dist == metric(query, stored[lbl]) && e.id < lbl) {
      var u := Entry(metric(query, stored[lbl]), lbl);
      assert u in all - kept && u != e;
    }
  }

  // ---------- How the parallel scan cuts the data ----------

  /** The number of elements given to thread t: the last thread takes the leftover. */
  function CountOf(n: nat, threads: nat, t: nat): int
    requires t < threads
  {
    if t == threads - 1 then n - (threads - 1) * (n / threads) else n / threads
  }

  /** The first element of thread t.  The code multiplies by the count of this very thread. */
  function StartOf(n: nat, threads: nat, t: nat): int
    requires t < threads
  {
    t * CountOf(n, threads, t)
  }

  ghost predicate Covers(n: nat, threads: nat, t: nat, i: nat)
    requires t < threads
  {
    StartOf(n, threads, t) <= i < StartOf(n, threads, t) + CountOf(n, threads, t)
  }

  ghost predicate Covered(n: nat, threads: nat, i: nat) {
    exists t: nat :: t < threads && Covers(n, threads, t, i)
  }

  ghost predicate InBounds(n: nat, threads: nat, t: nat)
    requires t < threads
  {
    0 <= StartOf(n, threads, t) && StartOf(n, threads, t) + CountOf(n, threads, t) <= n
  }

  /** Every thread stays inside the data and every element belongs to exactly one thread. */
  ghost predicate Partitions(n: nat, threads: nat) {
    && (forall t: nat | t < threads :: InBounds(n, threads, t))
    && (forall i: nat | i < n :: Covered(n, threads, i))
    && (forall i: nat, t: nat, u: nat | t < threads && u < threads && Covers(n, threads, t, i)
        && Covers(n, threads, u, i) :: t == u)
  }

  /** The ranges partition the data exactly when the thread count divides the element count. */
  lemma PartitionIffDivides(n: nat, threads: nat)
    requires threads > 0
    ensures Partitions(n, threads) <==> n % threads == 0
  {
    if n % threads == 0 {
      EvenSplit(n, threads);
      forall i: nat | i < n ensures Covered(n, threads, i) {
        DivMul(n, threads);
        var t := BlockOf(i, threads, n / threads);
        assert Covers(n, threads, t, i);
      }
      forall i: nat, t: nat, u: nat | t < threads && u < threads && Covers(n, threads, t, i) && Covers(n, threads, u, i)
        ensures t == u
      {
        if t < u {
          BlocksInOrder(t, u, n / threads);
        } else if u < t {
          BlocksInOrder(u, t, n / threads);
        }
      }
    } else {
      LastThreadOverruns(n, threads);
      assert !InBounds(n, threads, threads - 1);
    }
  }

  /** With a leftover, the last thread starts too late by (threads - 1) times the leftover and runs past the end. */
  lemma LastThreadOverruns(n: nat, threads: nat)
    requires threads > 0
    ensures StartOf(n, threads, threads - 1) + CountOf(n, threads, threads - 1) == n + (threads - 1) * (n % threads)
    ensures n % threads != 0 ==> (threads - 1) * (n % threads) > 0
  {
    var c, r, last := n / threads, n % threads, threads - 1;
    DivMul(n, threads);
    MulStep(last, c);
    assert CountOf(n, threads, last) == c + r;
    MulStep(last, c + r);
    assert last * (c + r) == last * c + last * r;
    if r != 0 {
      assert threads != 1;
      MulMonotone(1, last, r);
    }
  }

  lemma EvenSplit(n: nat, threads: nat)
    requires threads > 0 && n % threads == 0
    ensures forall t: nat | t < threads :: CountOf(n, threads, t) == n / threads
    ensures forall t: nat | t < threads :: StartOf(n, threads, t) == t * (n / threads)
    ensures forall t: nat | t < threads :: InBounds(n, threads, t)
  {
    var c := n / threads;
    DivMul(n, threads);
    MulStep(threads - 1, c);
    forall t: nat | t < threads
      ensures CountOf(n, threads, t) == c && StartOf(n, threads, t) == t * c && InBounds(n, threads, t)
    {
      BlocksInOrder(t, threads, c);
    }
  }

  // ---------- What the first t threads together have been given ----------

  function Part<T>(items: seq<T>, threads: nat, t: nat): seq<T>
    requires threads > 0 && |items| % threads == 0 && t < threads
  {
    EvenSplit(|items|, threads);
    items[StartOf(|items|, threads, t)..StartOf(|items|, threads, t) + CountOf(|items|, threads, t)]
  }

  lemma PartInBounds<T>(items: seq<T>, threads: nat, t: nat)
    requires threads > 0 && |items| % threads == 0 && t < threads && items != []
    ensures var start, count := StartOf(|items|, threads, t), CountOf(|items|, threads, t);
      0 <= start < start + count <= |items| && items[start..start + count] == Part(items, threads, t)
  {
    EvenSplit(|items|, threads);
    DivMul(|items|, threads);
    assert InBounds(|items|, threads, t);
  }

  /** The scores held by each thread's part. */
  ghost function PartScores<Vec>(metric: Metric<Vec>, query: Vec, items: seq<Item<Vec>>,
                                 threads: nat): seq<multiset<Entry>>
    requires threads > 0 && |items| % threads == 0
  {
    seq(threads, t requires 0 <= t < threads => Scan(metric, query, Part(items, threads, t)))
  }

  /** The union of the first t parts, leaving out those not in `done`. */
  ghost function Gathered(parts: seq<multiset<Entry>>, done: set<nat>, t: nat): multiset<Entry>
    requires t <= |parts|
  {
    if t == 0 then multiset{}
    else Gathered(parts, done, t - 1) + (if t - 1 in done then parts[t - 1] else multiset{})
  }

  lemma Regroup(a: multiset<Entry>, b: multiset<Entry>, c: multiset<Entry>)
    ensures (a + b) + c == (a + c) + b
  {
  }

  lemma {:induction false} GatherOne(parts: seq<multiset<Entry>>, done: set<nat>, u: nat, t: nat)
    requires t <= |parts| && u < |parts| && u !in done
    ensures Gathered(parts, done + {u}, t) == Gathered(parts, done, t) + (if u < t then parts[u] else multiset{})
  {
    if t > 0 {
      GatherOne(parts, done, u, t - 1);
      if t - 1 != u {
        Regroup(Gathered(parts, done, t - 1), if u < t - 1 then parts[u]
                else multiset{}, if t - 1 in done then parts[t - 1] else multiset{});
      }
    }
  }

  lemma {:induction false} GatherNone(parts: seq<multiset<Entry>>, t: nat)
    requires t <= |parts|
    ensures Gathered(parts, {}, t) == multiset{}
  {
    if t > 0 {
      GatherNone(parts, t - 1);
    }
  }

  lemma NothingScanned<Vec>(metric: Metric<Vec>, query: Vec, items: seq<Item<Vec>>)
    ensures Scan(metric, query, items[..0]) == multiset{}
  {
  }

  lemma PartIsBlock<T>(items: seq<T>, threads: nat, t: nat)
    requires threads > 0 && |items| % threads == 0 && t < threads
    ensures 0 <= t * (|items| / threads) <= t * (|items| / threads) + |items| / threads <= |items|
    ensures Part(items, threads, t) == items[t * (|items| / threads)..t * (|items| / threads) + |items| / threads]
  {
    EvenSplit(|items|, threads);
    assert InBounds(|items|, threads, t);
  }

  lemma {:induction false} GatherAll<Vec>(metric: Metric<Vec>, query: Vec, items: seq<Item<Vec>>, threads: nat,
                                          done: set<nat>, t: nat)
    requires threads > 0 && |items| % threads == 0 && t <= threads
    requires forall u: nat | u < threads :: u in done
    ensures 0 <= t * (|items| / threads) <= |items|
    ensures Gathered(PartScores(metric, query, items, threads), done, t)
        == Scan(metric, query, items[..t * (|items| / threads)])
  {
    hide Scan, Part, StartOf, CountOf;
    var c := |items| / threads;
    DivMul(|items|, threads);
    MulMonotone(t, threads, c);
    if t == 0 {
      NothingScanned(metric, query, items);
    } else {
      GatherAll(metric, query, items, threads, done, t - 1);
      MulStep(t - 1, c);
      PartIsBlock(items, threads, t - 1);
      assert items[..t * c] == items[..(t - 1) * c] + Part(items, threads, t - 1);
      ScanAppend(metric, query, items[..(t - 1) * c], Part(items, threads, t - 1));
    }
  }

  lemma GatherEverything<Vec>(metric: Metric<Vec>, query: Vec, items: seq<Item<Vec>>, threads: nat, done: set<nat>)
    requires threads > 0 && |items| % threads == 0
    requires forall u: nat | u < threads :: u in done
    ensures Gathered(PartScores(metric, query, items, threads), done, threads) == Scan(metric, query, items)
  {
    GatherAll(metric, query, items, threads, done, threads);
    DivMul(|items|, threads);
    assert items[..threads * (|items| / threads)] == items;
  }

  ghost predicate TopDist(q: multiset<Entry>, d: real) {
    exists e :: IsTop(Lex, q, e) && e.dist == d
  }

  lemma TakeOut(shared: multiset<Entry>, private: multiset<Entry>, rest: multiset<Entry>, e: Entry)
    requires rest <= private && e in rest
    ensures shared + (private - (rest - multiset{e})) == shared + (private - rest) + multiset{e}
  {
  }

  /** `push`, then `pop` the lexicographically largest: the queue keeps its size and again holds the k least. */
  method PushPop(q: multiset<Entry>, e: Entry, k: nat, ghost leq: Order, ghost all: multiset<Entry>)
    returns (r: multiset<Entry>, lastdist: real)
    requires leq == Lex || leq == ByDist
    requires |q| == k > 0 && Selects(leq, q, all, k)
    ensures |r| == k && Selects(leq, r, all + multiset{e}, k) && TopDist(r, lastdist)
  {
    r := q + multiset{e};
    if |r| > k {
      var worst := TopLex(r);
      SelectsReplace(leq, q, all, k, e, worst);
      r := r - multiset{worst};
    }
    var top := TopLex(r);
    lastdist := top.dist;
  }

  /** One element of the scan: it enters the queue unless it is farther than the worst kept. */
  method Offer(q: multiset<Entry>, lastdist: real, e: Entry, k: nat, ghost all: multiset<Entry>)
    returns (r: multiset<Entry>, d: real)
    requires |q| == k > 0 && Selects(Lex, q, all, k) && TopDist(q, lastdist)
    ensures |r| == k && Selects(Lex, r, all + multiset{e}, k) && TopDist(r, d)
  {
    if e.dist <= lastdist {
      r, d := PushPop(q, e, k, Lex, all);
    } else {
      SelectsSkip(Lex, q, all, k, e);
      r, d := q, lastdist;
    }
  }

  /** One element of the merge: it enters the queue only if it is strictly closer than the worst kept. */
  method OfferStrict(q: multiset<Entry>, lastdist: real, e: Entry, k: nat, ghost all: multiset<Entry>)
    returns (r: multiset<Entry>, d: real)
    requires |q| == k > 0 && Selects(ByDist, q, all, k) && TopDist(q, lastdist)
    ensures |r| == k && Selects(ByDist, r, all + multiset{e}, k) && TopDist(r, d)
  {
    if e.dist < lastdist {
      r, d := PushPop(q, e, k, ByDist, all);
    } else {
      SelectsSkip(ByDist, q, all, k, e);
      r, d := q, lastdist;
    }
  }

  class BruteforceSearch<Vec(0)> {
    const metric: Metric<Vec>
    const data: array<Item<Vec>>
    var curElementCount: nat
    var externalToInternal: map<nat, nat>

    ghost predicate Valid()
      reads this, data
    {
      && curElementCount <= data.Length
      && (forall i | 0 <= i < curElementCount ::
          data[i].lbl in externalToInternal && externalToInternal[data[i].lbl] == i)
      && (forall l | l in externalToInternal ::
          externalToInternal[l] < curElementCount && data[externalToInternal[l]].lbl == l)
    }

    /** The stored vectors by external label. */
    ghost function Contents(): map<nat, Vec>
      requires Valid()
      reads this, data
    {
      map l | l in externalToInternal :: data[externalToInternal[l]].vec
    }

    constructor (metric: Metric<Vec>, maxElements: nat)
      ensures Valid() && fresh(data)
      ensures this.metric == metric && data.Length == maxElements && Contents() == map[]
    {
      this.metric := metric;
      data := new Item<Vec>[maxElements];
      curElementCount := 0;
      externalToInternal := map[];
    }

    /** Adds a vector, or overwrites the one with this label; refuses (and changes nothing) when the index is full. */
    method AddPoint(vec: Vec, lbl: nat) returns (ok: bool)
      requires Valid()
      modifies this, data
      ensures Valid()
      ensures ok <==> lbl in old(Contents()) || old(curElementCount) < data.Length
      ensures Contents() == if ok then old(Contents())[lbl := vec] else old(Contents())
    {
      var idx;
      if lbl in externalToInternal {
        idx := externalToInternal[lbl];
      } else {
        if curElementCount >= data.Length {
          return false;
        }
        idx := curElementCount;
        externalToInternal := externalToInternal[lbl := idx];
        curElementCount := curElementCount + 1;
      }
      data[idx] := Item(vec, lbl);
      return true;
    }

    /** Moves the last slot to where the label was and gives up the last slot.  That removes the label exactly if it is
        known and not itself in the last slot; otherwise the dictionary ends up naming a slot that holds something
        else. */
    method RemovePoint(lbl: nat)
      requires Valid() && curElementCount > 0
      modifies this`curElementCount, this`externalToInternal, data
      ensures curElementCount == old(curElementCount) - 1
      ensures Valid() <==> lbl in old(Contents()) && old(data[curElementCount - 1].lbl) != lbl
      ensures Valid() ==> Contents() == old(Contents()) - {lbl}
    {
      var curC := if lbl in externalToInternal then externalToInternal[lbl] else 0;
      var last := data[curElementCount - 1];
      ghost var first := data[0].lbl;
      externalToInternal := externalToInternal - {lbl};
      externalToInternal := externalToInternal[last.lbl := curC];
      data[curC] := last;
      curElementCount := curElementCount - 1;
      if lbl !in old(Contents()) {
        assert first in externalToInternal && externalToInternal[first] == 0;
      } else if last.lbl == lbl {
        assert externalToInternal[lbl] == curElementCount;
      }
    }

    lemma ContentsStored()
      requires Valid()
      ensures Stores(data[..curElementCount], Contents())
    {
      forall l | l in Contents() ensures exists i :: 0 <= i < curElementCount && data[..curElementCount][i].lbl == l {
        assert data[..curElementCount][externalToInternal[l]].lbl == l;
      }
    }

    /** The first loop of a scan: the first n elements enter the queue unconditionally. */
    method FirstK(query: Vec, items: seq<Item<Vec>>, n: nat) returns (topResults: multiset<Entry>)
      requires n <= |items|
      ensures |topResults| == n && topResults == Scan(metric, query, items[..n])
    {
      topResults := multiset{};
      for i := 0 to n
        invariant topResults == Scan(metric, query, items[..i]) && |topResults| == i
      {
        ScanNext(metric, query, items, i);
        topResults := topResults + multiset{Score(metric, query, items[i])};
      }
    }

    /** The second loop: every further element enters unless it is farther than the worst kept. */
    method RestOfScan(query: Vec, items: seq<Item<Vec>>, k: nat, initK: nat, first: multiset<Entry>)
      returns (topResults: multiset<Entry>)
      requires 0 < initK == Min(k, |items|)
      requires |first| == initK && first == Scan(metric, query, items[..initK])
      ensures |topResults| == initK && Selects(Lex, topResults, Scan(metric, query, items), k)
    {
      topResults := first;
      SelectsAll(Lex, first, k);
      var top := TopLex(topResults);
      var lastdist := top.dist;
      for i := initK to |items|
        invariant |topResults| == initK && Selects(Lex, topResults, Scan(metric, query, items[..i]), k)
        invariant TopDist(topResults, lastdist)
      {
        ScanNext(metric, query, items, i);
        topResults, lastdist := Offer(topResults, lastdist, Score(metric, query, items[i]), k,
                                      Scan(metric, query, items[..i]));
      }
      assert items[..|items|] == items;
    }

    lemma ScanOfContents(query: Vec)
      requires Valid()
      ensures curElementCount <= data.Length
          && Scan(metric, query, data[..curElementCount]) == Scores(metric, query, Contents())
    {
      ContentsStored();
      ScanIsScores(metric, query, data[..curElementCount], Contents());
    }

    /** The scan both searches share. */
    method ScanRange(query: Vec, start: nat, stop: nat, k: nat) returns (topResults: multiset<Entry>)
      requires Valid() && k > 0 && start < stop <= curElementCount
      ensures Selects(Lex, topResults, Scan(metric, query, data[start..stop]), k)
      ensures topResults != multiset{}
    {
      topResults := FirstK(query, data[start..stop], Min(k, stop - start));
      topResults := RestOfScan(query, data[start..stop], k, Min(k, stop - start), topResults);
    }

    /** Exactly the k lexicographically least (distance, label) pairs, whatever the storage order. */
    method SearchKnn(query: Vec, k: nat) returns (topResults: multiset<Entry>)
      requires Valid()
      requires curElementCount > 0 ==> 1 <= k <= curElementCount
      ensures Selects(Lex, topResults, Scores(metric, query, Contents()), k)
    {
      hide Valid, Scan, Scores, Contents, Selects;
      ScanOfContents(query);
      if curElementCount == 0 {
        ScanOfNothing(metric, query, data[..curElementCount], k);
        return multiset{};
      }
      assert data[0..curElementCount] == data[..curElementCount];
      topResults := ScanRange(query, 0, curElementCount, k);
    }

    /** The critical section: fill the shared queue up to k, then let strictly closer entries replace its worst. */
    method MergeCritical(shared: multiset<Entry>, private: multiset<Entry>, k: nat) returns (merged: multiset<Entry>)
      requires k > 0 && |shared| <= k && private != multiset{}
      ensures |merged| <= k && Selects(ByDist, merged, shared + private, k)
    {
      var rest;
      merged, rest := FillShared(shared, private, k);
      merged := ReplaceWorst(shared, private, merged, rest, k);
    }

    method FillShared(shared: multiset<Entry>, private: multiset<Entry>, k: nat)
      returns (merged: multiset<Entry>, rest: multiset<Entry>)
      requires k > 0 && |shared| <= k && private != multiset{}
      ensures rest <= private && |merged| <= k && merged != multiset{}
      ensures Selects(ByDist, merged, shared + (private - rest), k)
      ensures rest != multiset{} ==> |merged| == k
    {
      merged, rest := shared, private;
      SelectsAll(ByDist, shared, k);
      assert shared + (private - private) == shared;
      while |merged| < k && |rest| > 0
        invariant rest <= private && |merged| <= k
        invariant Selects(ByDist, merged, shared + (private - rest), k)
        invariant merged != multiset{} || rest != multiset{}
        decreases |rest|
      {
        var e := TopLex(rest);
        SelectsPush(ByDist, merged, shared + (private - rest), k, e);
        TakeOut(shared, private, rest, e);
        merged := merged + multiset{e};
        rest := rest - multiset{e};
      }
    }

    method ReplaceWorst(shared: multiset<Entry>, private: multiset<Entry>, filled: multiset<Entry>,
                        left: multiset<Entry>, k: nat)
      returns (merged: multiset<Entry>)
      requires k > 0 && left <= private && |filled| <= k && filled != multiset{}
      requires Selects(ByDist, filled, shared + (private - left), k)
      requires left != multiset{} ==> |filled| == k
      ensures |merged| <= k && Selects(ByDist, merged, shared + private, k)
    {
      merged := filled;
      var rest := left;
      var top := TopLex(merged);
      var lastdist := top.dist;
      while |rest| > 0
        invariant rest <= private && |merged| == |filled|
        invariant Selects(ByDist, merged, shared + (private - rest), k)
        invariant rest != multiset{} ==> left != multiset{}
        invariant TopDist(merged, lastdist)
        decreases |rest|
      {
        var e := TopLex(rest);
        TakeOut(shared, private, rest, e);
        merged, lastdist := OfferStrict(merged, lastdist, e, k, shared + (private - rest));
        rest := rest - multiset{e};
      }
      assert rest == multiset{} && private - rest == private;
    }

    /** What one thread does: scan its own part, then merge into the shared queue. */
    method RunThread(query: Vec, k: nat, numThreads: nat, t: nat, shared: multiset<Entry>, ghost done: set<nat>)
      returns (merged: multiset<Entry>)
      requires Valid() && k > 0 && curElementCount > 0
      requires numThreads > 0 && curElementCount % numThreads == 0 && t < numThreads && t !in done
      requires |shared| <= k
      requires Selects(ByDist, shared,
                       Gathered(PartScores(metric, query, data[..curElementCount], numThreads), done, numThreads), k)
      ensures |merged| <= k
      ensures Selects(ByDist, merged,
                      Gathered(PartScores(metric, query, data[..curElementCount], numThreads), done + {t}, numThreads),
                      k)
    {
      ghost var items := data[..curElementCount];
      ghost var parts := PartScores(metric, query, items, numThreads);
      PartInBounds(items, numThreads, t);
      var start, count := StartOf(curElementCount, numThreads, t), CountOf(curElementCount, numThreads, t);
      assert data[start..start + count] == items[start..start + count];
      var topResults := ScanRange(query, start, start + count, k);
      assert Selects(Lex, topResults, parts[t], k);
      LexRefinesDist(topResults, parts[t], k);
      merged := MergeCritical(shared, topResults, k);
      SelectsUnion(ByDist, shared, Gathered(parts, done, numThreads), topResults, parts[t], merged, k);
      GatherOne(parts, done, t, numThreads);
    }

    /** The threads reach the critical section in an arbitrary order, chosen by `t :| t in waiting`. */
    method RunThreads(query: Vec, k: nat, numThreads: nat) returns (merged: multiset<Entry>)
      requires Valid() && k > 0 && curElementCount > 0
      requires numThreads > 0 && curElementCount % numThreads == 0
      ensures Selects(ByDist, merged, Scan(metric, query, data[..curElementCount]), k)
    {
      var waiting := Below(numThreads);
      ghost var done: set<nat> := {};
      ghost var parts := PartScores(metric, query, data[..curElementCount], numThreads);
      GatherNone(parts, numThreads);
      merged := multiset{};
      SelectsAll(ByDist, multiset{}, k);
      while waiting != {}
        invariant forall t: nat | t < numThreads :: t in waiting <==> t !in done
        invariant forall t | t in waiting :: t < numThreads
        invariant |merged| <= k && Selects(ByDist, merged, Gathered(parts, done, numThreads), k)
      {
        var t :| t in waiting;
        merged := RunThread(query, k, numThreads, t, merged, done);
        waiting, done := waiting - {t}, done + {t};
      }
      GatherEverything(metric, query, data[..curElementCount], numThreads, done);
    }

    /** The k least by distance; ties are broken by the order in which the threads happened to merge. */
    method SearchKnnParallel(query: Vec, k: nat, numThreads: nat) returns (merged: multiset<Entry>)
      requires Valid()
      requires numThreads > 0 && curElementCount % numThreads == 0
      requires curElementCount > 0 ==> k > 0
      ensures Selects(ByDist, merged, Scores(metric, query, Contents()), k)
    {
      hide Valid, Scan, Scores, Contents, Selects;
      ScanOfContents(query);
      if curElementCount == 0 {
        ScanOfNothing(metric, query, data[..curElementCount], k);
        return multiset{};
      }
      merged := RunThreads(query, k, numThreads);
    }
  }

  /** Serial and parallel scan report the same distances, whichever order the threads merge in. */
  lemma ParallelRefinesSerial(serial: multiset<Entry>, parallel: multiset<Entry>, all: multiset<Entry>, k: nat)
    requires Selects(Lex, serial, all, k) && Selects(ByDist, parallel, all, k)
    ensures Dists(serial) == Dists(parallel)
  {
    LexRefinesDist(serial, all, k);
    DistsUnique(serial, parallel, all, k);
  }
}
