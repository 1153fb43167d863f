/** The layered graph of hnswlib_omp/hnswalg.h: link lists held in fixed slots, one per element and level, and
    reachability. */
module Graph {
  import opened Selection

  /** A 16-bit count followed by slots; slots past the count keep whatever was last written to them. */
  datatype LinkList = LinkList(count: nat, slots: seq<nat>)

  /** links[i][level] exists for every level the element i has. */
  type Links = seq<seq<LinkList>>

  /** maxM0_ on the base level, maxM_ above. */
  function Capacity(m: nat, level: nat): nat {
    if level == 0 then 2 * m else m
  }

  predicate Exists(links: Links, i: nat, level: nat) {
    i < |links| && level < |links[i]|
  }

  function NeighborsAt(links: Links, i: nat, level: nat): seq<nat> {
    if Exists(links, i, level) && links[i][level].count <= |links[i][level].slots|
    then links[i][level].slots[..links[i][level].count]
    else []
  }

  ghost predicate Distinct(s: seq<nat>) {
    forall i, j | 0 <= i < j < |s| :: s[i] != s[j]
  }

  /** Within capacity, no self loop, no duplicate, and every neighbour exists on the same level. */
  ghost predicate GoodList(links: Links, m: nat, i: nat, level: nat)
    requires Exists(links, i, level)
  {
    && |links[i][level].slots| == Capacity(m, level)
    && links[i][level].count <= Capacity(m, level)
    && Distinct(NeighborsAt(links, i, level))
    && forall y | y in NeighborsAt(links, i, level) :: y != i && Exists(links, y, level)
  }

  ghost predicate GoodLinks(links: Links, m: nat) {
    forall i: nat, level: nat | Exists(links, i, level) :: GoodList(links, m, i, level)
  }

  // ---------- Sets of nodes as queues of (distance, node) pairs ----------

  ghost function EntriesOf(key: nat -> real, s: set<nat>): multiset<Entry> {
    multiset(set i | i in s :: Entry(key(i), i))
  }

  lemma EntriesMember(key: nat -> real, s: set<nat>)
    ensures forall e :: e in EntriesOf(key, s) <==> e.id in s && e.dist == key(e.id)
    ensures forall e :: EntriesOf(key, s)[e] <= 1
  {
  }

  lemma EntriesAdd(key: nat -> real, s: set<nat>, x: nat)
    requires x !in s
    ensures EntriesOf(key, s + {x}) == EntriesOf(key, s) + multiset{Entry(key(x), x)}
  {
    var a := set i | i in s + {x} :: Entry(key(i), i);
    var b := set i | i in s :: Entry(key(i), i);
    assert a == b + {Entry(key(x), x)};
  }

  lemma EntriesRemove(key: nat -> real, s: set<nat>, x: nat)
    requires x in s
    ensures EntriesOf(key, s - {x}) == EntriesOf(key, s) - multiset{Entry(key(x), x)}
  {
    EntriesAdd(key, s - {x}, x);
    assert s - {x} + {x} == s;
  }

  lemma {:induction false} EntriesSize(key: nat -> real, s: set<nat>)
    ensures |EntriesOf(key, s)| == |s|
  {
    if s != {} {
      var x :| x in s;
      EntriesSize(key, s - {x});
      EntriesRemove(key, s, x);
    }
  }

  // ---------- Reachability on one level ----------

  ghost predicate IsPath(links: Links, level: nat, p: seq<nat>) {
    && |p| > 0
    && (forall i | 0 <= i < |p| :: Exists(links, p[i], level))
    && (forall i | 0 < i < |p| :: p[i] in NeighborsAt(links, p[i - 1], level))
  }

  ghost predicate Reachable(links: Links, level: nat, ep: nat, x: nat) {
    exists p :: IsPath(links, level, p) && p[0] == ep && p[|p| - 1] == x
  }

  ghost function Reach(links: Links, level: nat, ep: nat): set<nat> {
    set x | 0 <= x < |links| && Reachable(links, level, ep, x)
  }

  lemma ReachStart(links: Links, level: nat, ep: nat)
    requires Exists(links, ep, level)
    ensures ep in Reach(links, level, ep)
  {
    assert IsPath(links, level, [ep]);
  }

  lemma ReachStep(links: Links, level: nat, ep: nat, x: nat, y: nat)
    requires x in Reach(links, level, ep) && y in NeighborsAt(links, x, level) && Exists(links, y, level)
    ensures y in Reach(links, level, ep)
  {
    var p :| IsPath(links, level, p) && p[0] == ep && p[|p| - 1] == x;
    assert IsPath(links, level, p + [y]) && (p + [y])[|p|] == y;
  }

  lemma ReachExists(links: Links, level: nat, ep: nat)
    ensures forall x | x in Reach(links, level, ep) :: Exists(links, x, level)
  {
  }

  ghost predicate ClosedUnderLinks(links: Links, level: nat, s: set<nat>) {
    forall x, y | x in s && y in NeighborsAt(links, x, level) :: y in s
  }

  /** Whatever contains the entry and is closed under the links contains everything reachable. */
  lemma ReachWithin(links: Links, level: nat, ep: nat, s: set<nat>)
    requires ep in s && ClosedUnderLinks(links, level, s)
    ensures Reach(links, level, ep) <= s
  {
    forall x | x in Reach(links, level, ep) ensures x in s {
      var p :| IsPath(links, level, p) && p[0] == ep && p[|p| - 1] == x;
      PathWithin(links, level, p, s, |p| - 1);
    }
  }

  lemma {:induction false} PathWithin(links: Links, level: nat, p: seq<nat>, s: set<nat>, i: nat)
    requires IsPath(links, level, p) && p[0] in s && ClosedUnderLinks(links, level, s) && i < |p|
    ensures p[i] in s
  {
    if i > 0 {
      PathWithin(links, level, p, s, i - 1);
    }
  }

  /** An element nobody links to is not reached. */
  lemma ReachAppend(links: Links, m: nat, extra: seq<LinkList>, level: nat, ep: nat)
    requires GoodLinks(links, m) && Exists(links, ep, level)
    ensures Reach(links + [extra], level, ep) == Reach(links, level, ep)
  {
    var after := links + [extra];
    var reach := Reach(links, level, ep);
    assert forall j: nat | j < |links| :: NeighborsAt(after, j, level) == NeighborsAt(links, j, level);
    ReachStart(links, level, ep);
    forall x, y | x in reach && y in NeighborsAt(after, x, level) ensures y in reach {
      assert GoodList(links, m, x, level);
      ReachStep(links, level, ep, x, y);
    }
    ReachWithin(after, level, ep, reach);
    forall x | x in reach ensures x in Reach(after, level, ep) {
      var p :| IsPath(links, level, p) && p[0] == ep && p[|p| - 1] == x;
      assert IsPath(after, level, p);
    }
  }
}
