/** Writing link lists: mutuallyConnectNewElement of hnswlib_omp/hnswalg.h and the list writes of updatePoint. */
module Connect {
  import opened Selection
  import opened Graph
  import opened Heuristic

  // ---------- Writing one list ----------

  /** setListCount stores an unsigned short; the slots past the new count are left as they were. */
  function Write(ll: LinkList, ids: seq<nat>): (r: LinkList)
    requires |ids| <= |ll.slots|
    ensures r.count < 65536 && (|ids| < 65536 ==> r.count == |ids|) && |r.slots| == |ll.slots|
  {
    LinkList(|ids| % 65536, ids + ll.slots[|ids|..])
  }

  predicate Blank(ll: LinkList) {
    ll.count == 0 && forall k | 0 <= k < |ll.slots| :: ll.slots[k] == 0
  }

  function SetList(links: Links, i: nat, level: nat, ids: seq<nat>): Links
    requires Exists(links, i, level) && |ids| <= |links[i][level].slots|
  {
    links[i := links[i][level := Write(links[i][level], ids)]]
  }

  ghost predicate SameShape(a: Links, b: Links) {
    |a| == |b| && forall i | 0 <= i < |a| :: |a[i]| == |b[i]|
  }

  lemma SetListEffect(links: Links, i: nat, level: nat, ids: seq<nat>)
    requires Exists(links, i, level) && |ids| <= |links[i][level].slots| && |ids| < 65536
    ensures SameShape(links, SetList(links, i, level, ids))
    ensures forall j: nat, l: nat | (j, l) != (i, level) ::
        NeighborsAt(SetList(links, i, level, ids), j, l) == NeighborsAt(links, j, l)
    ensures NeighborsAt(SetList(links, i, level, ids), i, level) == ids
    ensures |SetList(links, i, level, ids)[i][level].slots| == |links[i][level].slots|
    ensures forall j: nat, l: nat | Exists(links, j, l) && (j, l) != (i, level) ::
        SetList(links, i, level, ids)[j][l] == links[j][l]
  {
  }

  lemma SetListGood(links: Links, m: nat, i: nat, level: nat, ids: seq<nat>)
    requires GoodLinks(links, m) && Exists(links, i, level) && 2 * m < 65536
    requires |ids| <= Capacity(m, level) && Distinct(ids)
    requires forall k | 0 <= k < |ids| :: ids[k] != i && Exists(links, ids[k], level)
    ensures |ids| <= |links[i][level].slots|
    ensures GoodLinks(SetList(links, i, level, ids), m)
  {
    assert GoodList(links, m, i, level);
    var after := SetList(links, i, level, ids);
    SetListEffect(links, i, level, ids);
    forall j: nat, l: nat | Exists(after, j, l) ensures GoodList(after, m, j, l) {
      assert GoodList(links, m, j, l);
      forall y | y in NeighborsAt(after, j, l) ensures y != j && Exists(after, y, l) {
        assert Exists(links, y, l);
      }
    }
  }

  // ---------- Emptying a queue into a list ----------

  /** The ids of t, each once. */
  ghost predicate Lists(ids: seq<nat>, t: set<nat>) {
    Distinct(ids) && |ids| == |t| && forall x: nat :: x in ids <==> x in t
  }

  /** Nearer entries are emptied later. */
  ghost predicate Draining(key: nat -> real, t: set<nat>, left: set<nat>, ids: seq<nat>) {
    && left <= t && Lists(ids, t - left)
    && (forall i, x | 0 <= i < |ids| && x in left :: key(x) <= key(ids[i]))
    && (forall i, j | 0 <= i < j < |ids| :: key(ids[j]) <= key(ids[i]))
  }

  lemma DrainStep(key: nat -> real, t: set<nat>, left: set<nat>, ids: seq<nat>, e: Entry)
    requires Draining(key, t, left, ids) && IsTop(ByDist, EntriesOf(key, left), e)
    ensures e.id in left && e == Entry(key(e.id), e.id)
    ensures Draining(key, t, left - {e.id}, ids + [e.id])
  {
    hide Lists, EntriesOf;
    EntriesMember(key, left);
    forall x | x in left ensures key(x) <= e.dist {
      assert Entry(key(x), x) in EntriesOf(key, left);
    }
    assert t - (left - {e.id}) == t - left + {e.id};
    ListsAppend(ids, t - left, e.id);
  }

  lemma ListsAppend(ids: seq<nat>, t: set<nat>, x: nat)
    requires Lists(ids, t) && x !in t
    ensures Lists(ids + [x], t + {x})
  {
  }

  lemma DrainStart(key: nat -> real, t: set<nat>)
    ensures Draining(key, t, t, [])
  {
    assert t - t == {};
  }

  lemma DrainEnd(key: nat -> real, t: set<nat>, left: set<nat>, ids: seq<nat>)
    requires Draining(key, t, left, ids) && EntriesOf(key, left) == multiset{}
    ensures Lists(ids, t)
    ensures ids != [] ==> forall x | x in t :: key(ids[|ids| - 1]) <= key(x)
  {
    EntriesSize(key, left);
    assert t - left == t;
    forall x | ids != [] && x in t ensures key(ids[|ids| - 1]) <= key(x) {
      assert x in ids;
      var i :| 0 <= i < |ids| && ids[i] == x;
    }
  }

  /** `while (q.size() > 0) { push_back(q.top().second); q.pop(); }`: farthest first, so the closest comes last. */
  method Drain(q: multiset<Entry>, ghost key: nat -> real, ghost t: set<nat>) returns (ids: seq<nat>)
    requires q == EntriesOf(key, t)
    ensures Lists(ids, t)
    ensures ids != [] ==> forall x | x in t :: key(ids[|ids| - 1]) <= key(x)
  {
    hide Draining, EntriesOf, Lists;
    var rest := q;
    ghost var left := t;
    ids := [];
    DrainStart(key, t);
    while rest != multiset{}
      invariant rest == EntriesOf(key, left) && Draining(key, t, left, ids)
      decreases |rest|
    {
      var e := TopByDist(rest);
      DrainStep(key, t, left, ids, e);
      EntriesRemove(key, left, e.id);
      ids := ids + [e.id];
      rest := rest - multiset{e};
      left := left - {e.id};
    }
    DrainEnd(key, t, left, ids);
  }

  // ---------- Linking one neighbour back ----------

  function DistTo(between: Between, c: nat): nat -> real {
    (x: nat) => between(x, c)
  }

  /** `after` is what the heuristic may leave of the set `before`, seen from a query at distances `key`. */
  ghost predicate Reselected(between: Between, key: nat -> real, before: set<nat>, cap: nat, after: set<nat>) {
    exists picks :: HeuristicResult(between, EntriesOf(key, before), cap, EntriesOf(key, after), picks)
  }

  ghost function SetOf(s: seq<nat>): set<nat> {
    set x | x in s
  }

  /** How the list of a chosen neighbour c changes when cur links to it. */
  ghost predicate BackLinked(between: Between, before: seq<nat>, after: seq<nat>, c: nat, cur: nat, cap: nat,
                             isUpdate: bool) {
    if isUpdate && cur in before then after == before
    else if |before| < cap then after == before + [cur]
    else exists t :: Lists(after, t) && t <= SetOf(before) + {cur}
                  && Reselected(between, DistTo(between, c), SetOf(before) + {cur}, cap, t)
  }

  /** Only the list of i on this level may differ. */
  ghost predicate OnlyListChanged(a: Links, b: Links, i: nat, level: nat) {
    && SameShape(a, b)
    && forall j: nat, l: nat | Exists(a, j, l) && (j, l) != (i, level) :: b[j][l] == a[j][l]
  }

  /** The queue of the full neighbour: cur, and everything already in its list. */
  method CandidatesOf(between: Between, cur: nat, c: nat, data: seq<nat>) returns (candidates: multiset<Entry>)
    requires Distinct(data) && cur !in data
    ensures candidates == EntriesOf(DistTo(between, c), SetOf(data) + {cur})
  {
    ghost var key := DistTo(between, c);
    hide EntriesOf;
    candidates := multiset{Entry(between(cur, c), cur)};
    SingleEntry(key, cur);
    for j := 0 to |data|
      invariant candidates == EntriesOf(key, SetOf(data[..j]) + {cur})
    {
      assert SetOf(data[..j + 1]) + {cur} == SetOf(data[..j]) + {cur} + {data[j]};
      EntriesAdd(key, SetOf(data[..j]) + {cur}, data[j]);
      candidates := candidates + multiset{Entry(between(data[j], c), data[j])};
    }
    assert data[..|data|] == data;
  }

  lemma SingleEntry(key: nat -> real, x: nat)
    ensures EntriesOf(key, SetOf([]) + {x}) == multiset{Entry(key(x), x)}
  {
    assert (set i | i in SetOf([]) + {x} :: Entry(key(i), i)) == {Entry(key(x), x)};
  }

  method ConnectBack(links: Links, m: nat, between: Between, cur: nat, c: nat, level: nat, isUpdate: bool)
    returns (links': Links)
    requires GoodLinks(links, m) && 0 < m && 2 * m < 65536
    requires Exists(links, cur, level) && Exists(links, c, level) && c != cur
    requires !isUpdate ==> cur !in NeighborsAt(links, c, level)
    ensures GoodLinks(links', m) && OnlyListChanged(links, links', c, level)
    ensures BackLinked(between, NeighborsAt(links, c, level), NeighborsAt(links', c, level), c, cur,
                       if level > 0 then m else 2 * m, isUpdate)
  {
    var data := NeighborsAt(links, c, level);
    var mCurMax := Capacity(m, level);
    assert GoodList(links, m, c, level);
    assert links[c][level].count <= mCurMax;  // "Bad value of sz_link_list_other" is never thrown
    NeighborsExist(links, m, c, level);
    if isUpdate && cur in data {
      return links;
    }
    if |data| < mCurMax {
      SetListGood(links, m, c, level, data + [cur]);
      SetListEffect(links, c, level, data + [cur]);
      return SetList(links, c, level, data + [cur]);
    }
    links' := Reselect(links, m, between, cur, c, level, data);
  }

  lemma NeighborsExist(links: Links, m: nat, u: nat, level: nat)
    requires GoodLinks(links, m) && Exists(links, u, level)
    ensures Distinct(NeighborsAt(links, u, level))
    ensures forall j | 0 <= j < |NeighborsAt(links, u, level)| ::
              NeighborsAt(links, u, level)[j] != u && Exists(links, NeighborsAt(links, u, level)[j], level)
  {
    assert GoodList(links, m, u, level);
  }

  /** The list of c is full: run the heuristic over it and cur. */
  method Reselect(links: Links, m: nat, between: Between, cur: nat, c: nat, level: nat, data: seq<nat>)
    returns (links': Links)
    requires GoodLinks(links, m) && 0 < m && 2 * m < 65536
    requires Exists(links, cur, level) && Exists(links, c, level) && c != cur
    requires data == NeighborsAt(links, c, level) && cur !in data
    ensures GoodLinks(links', m) && OnlyListChanged(links, links', c, level)
    ensures exists t :: Lists(NeighborsAt(links', c, level), t) && t <= SetOf(data) + {cur}
                     && Reselected(between, DistTo(between, c), SetOf(data) + {cur}, if level > 0 then m else 2 * m, t)
  {
    NeighborsExist(links, m, c, level);
    ghost var all := SetOf(data) + {cur};
    var candidates := CandidatesOf(between, cur, c, data);
    var kept; ghost var picks;
    kept, picks := GetNeighborsByHeuristic2(between, candidates, Capacity(m, level));
    ghost var t := HeuristicKeeps(between, DistTo(between, c), all, Capacity(m, level), kept, picks);
    assert Reselected(between, DistTo(between, c), all, Capacity(m, level), t);
    hide Reselected, HeuristicResult, EntriesOf, GoodLinks;
    var ids := Drain(kept, DistTo(between, c), t);
    forall k | 0 <= k < |ids| ensures ids[k] != c && Exists(links, ids[k], level) {
      assert ids[k] in all;
    }
    SetListGood(links, m, c, level, ids);
    SetListEffect(links, c, level, ids);
    links' := SetList(links, c, level, ids);
  }

  // ---------- Connecting an element on one level ----------

  /** The whole effect of one call: cur links to the chosen, each of the chosen links back if it can, nothing else
      moves. */
  ghost predicate Linked(before: Links, after: Links, m: nat, between: Between, cur: nat, level: nat, chosen: set<nat>,
                         isUpdate: bool) {
    && SameShape(before, after)
    && Lists(NeighborsAt(after, cur, level), chosen)
    && (forall c | c in chosen ::
        BackLinked(between, NeighborsAt(before, c, level), NeighborsAt(after, c, level), c, cur, Capacity(m, level),
                   isUpdate))
    && (forall j: nat, l: nat | Exists(before, j, l) && !(l == level && (j == cur || j in chosen)) ::
        after[j][l] == before[j][l])
  }

  /** The same, while only the first n of the selected neighbours have been linked back. */
  ghost predicate LinkedSoFar(before: Links, after: Links, m: nat, between: Between, cur: nat, level: nat,
                              selected: seq<nat>, n: nat, isUpdate: bool)
    requires n <= |selected|
  {
    && SameShape(before, after)
    && NeighborsAt(after, cur, level) == selected
    && (forall k | 0 <= k < n ::
        BackLinked(between, NeighborsAt(before, selected[k], level), NeighborsAt(after, selected[k], level),
                                            selected[k], cur, Capacity(m, level), isUpdate))
    && (forall j: nat, l: nat | Exists(before, j, l) && !(l == level && (j == cur || j in selected[..n])) ::
        after[j][l] == before[j][l])
  }

  lemma LinkedOneMore(before: Links, between1: Links, after: Links, m: nat, between: Between, cur: nat, level: nat,
                      selected: seq<nat>, n: nat, isUpdate: bool)
    requires n < |selected| && Distinct(selected) && cur !in selected
    requires forall k | 0 <= k < |selected| :: Exists(before, selected[k], level)
    requires Exists(before, cur, level)
    requires LinkedSoFar(before, between1, m, between, cur, level, selected, n, isUpdate)
    requires OnlyListChanged(between1, after, selected[n], level)
    requires BackLinked(between, NeighborsAt(between1, selected[n], level), NeighborsAt(after, selected[n], level),
                        selected[n], cur, Capacity(m, level), isUpdate)
    ensures LinkedSoFar(before, after, m, between, cur, level, selected, n + 1, isUpdate)
  {
    hide BackLinked;
    assert between1[selected[n]][level] == before[selected[n]][level];
    assert after[cur][level] == between1[cur][level];
    forall k | 0 <= k < n + 1
      ensures BackLinked(between, NeighborsAt(before, selected[k], level), NeighborsAt(after, selected[k], level),
                         selected[k], cur, Capacity(m, level), isUpdate)
    {
      if k < n {
        assert after[selected[k]][level] == between1[selected[k]][level];
      }
    }
    assert forall j | j in selected[..n] || j == selected[n] :: j in selected[..n + 1];
  }

  lemma LinkedAll(before: Links, after: Links, m: nat, between: Between, cur: nat, level: nat, selected: seq<nat>,
                  chosen: set<nat>, isUpdate: bool)
    requires LinkedSoFar(before, after, m, between, cur, level, selected, |selected|, isUpdate)
    requires Lists(selected, chosen)
    ensures Linked(before, after, m, between, cur, level, chosen, isUpdate)
  {
    hide BackLinked;
    assert selected[..|selected|] == selected;
    forall c | c in chosen
      ensures BackLinked(between, NeighborsAt(before, c, level), NeighborsAt(after, c, level), c, cur,
                         Capacity(m, level), isUpdate)
    {
      var k :| 0 <= k < |selected| && selected[k] == c;
    }
  }

  lemma NeighborUntouched(before: Links, after: Links, m: nat, between: Between, cur: nat, level: nat,
                          selected: seq<nat>, n: nat, isUpdate: bool)
    requires n < |selected| && Distinct(selected) && cur !in selected && Exists(before, selected[n], level)
    requires LinkedSoFar(before, after, m, between, cur, level, selected, n, isUpdate)
    ensures Exists(after, selected[n], level)
        && NeighborsAt(after, selected[n], level) == NeighborsAt(before, selected[n], level)
  {
    assert after[selected[n]][level] == before[selected[n]][level];
  }

  /** Selects at most M of the candidates with the heuristic, stores them as cur's list, and links each of them back.
      Returns the closest of the selected, where the search of the next level starts. */
  method MutuallyConnectNewElement(links: Links, m: nat, between: Between, cur: nat, candidates: multiset<Entry>,
                                   level: nat, isUpdate: bool,
                                   ghost key: nat -> real, ghost s: set<nat>)
    returns (links': Links, next: nat, ghost chosen: set<nat>)
    requires GoodLinks(links, m) && 0 < m && 2 * m < 65536 && Exists(links, cur, level)
    requires candidates == EntriesOf(key, s) && s != {}
    requires forall x | x in s :: x != cur && Exists(links, x, level)
    requires !isUpdate ==> Blank(links[cur][level]) && forall x | x in s :: cur !in NeighborsAt(links, x, level)
    ensures GoodLinks(links', m)
    ensures chosen <= s && 0 < |chosen| <= m && Reselected(between, key, s, m, chosen)
    ensures Linked(links, links', m, between, cur, level, chosen, isUpdate)
    ensures next in chosen && forall x | x in s :: key(next) <= key(x)
  {
    var topCandidates; ghost var picks;
    topCandidates, picks := GetNeighborsByHeuristic2(between, candidates, m);
    chosen := HeuristicKeeps(between, key, s, m, topCandidates, picks);
    assert Reselected(between, key, s, m, chosen);
    EntriesSize(key, chosen);
    assert |topCandidates| <= m;  // "Should be not be more than M_ candidates" is never thrown
    hide Reselected, HeuristicResult, EntriesOf, BackLinked;
    var selected := Drain(topCandidates, key, chosen);
    next := selected[|selected| - 1];
    NearestOfChosen(key, s, chosen, next);

    // neither "blank link list" nor "Possible memory corruption" is ever thrown
    assert !isUpdate ==>
      links[cur][level].count == 0 && forall k | 0 <= k < |links[cur][level].slots| :: links[cur][level].slots[k] == 0;
    // nor are "Trying to make a link on a non-existent level" and "Trying to connect an element to itself"
    forall k | 0 <= k < |selected| ensures selected[k] != cur && Exists(links, selected[k], level) {
      assert selected[k] in s;
    }
    links' := LinkBack(links, m, between, cur, selected, level, isUpdate);
    LinkedAll(links, links', m, between, cur, level, selected, chosen, isUpdate);
  }

  /** Stores the selected neighbours as cur's list and links each of them back. */
  method LinkBack(links: Links, m: nat, between: Between, cur: nat, selected: seq<nat>, level: nat, isUpdate: bool)
    returns (links': Links)
    requires GoodLinks(links, m) && 0 < m && 2 * m < 65536 && Exists(links, cur, level)
    requires Distinct(selected) && |selected| <= m
    requires forall k | 0 <= k < |selected| :: selected[k] != cur && Exists(links, selected[k], level)
    requires !isUpdate ==> forall k | 0 <= k < |selected| :: cur !in NeighborsAt(links, selected[k], level)
    ensures GoodLinks(links', m)
    ensures LinkedSoFar(links, links', m, between, cur, level, selected, |selected|, isUpdate)
  {
    hide BackLinked;
    SetListGood(links, m, cur, level, selected);
    SetListEffect(links, cur, level, selected);
    links' := SetList(links, cur, level, selected);
    hide GoodLinks;
    for idx := 0 to |selected|
      invariant GoodLinks(links', m)
      invariant LinkedSoFar(links, links', m, between, cur, level, selected, idx, isUpdate)
    {
      var c := selected[idx];
      NeighborUntouched(links, links', m, between, cur, level, selected, idx, isUpdate);
      ghost var before := links';
      links' := ConnectBack(links', m, between, cur, c, level, isUpdate);
      LinkedOneMore(links, before, links', m, between, cur, level, selected, idx, isUpdate);
    }
  }

  lemma NearestOfChosen(key: nat -> real, s: set<nat>, chosen: set<nat>, next: nat)
    requires exists n :: n in chosen && forall x | x in s :: key(n) <= key(x)
    requires forall x | x in chosen :: key(next) <= key(x)
    ensures forall x | x in s :: key(next) <= key(x)
  {
  }
}
