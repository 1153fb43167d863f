/** The approximate index and the exhaustive scan, side by side on the same data. */
module Agreement {
  import opened Selection
  import opened Graph
  import opened BruteForce
  import opened Hnsw
  import opened KnnSearch
  import opened LayerSearch
  import opened Descent

  /** Asks both indices.  Whenever everything live is reachable on level 0 from where the descent landed, and the search
      is wide enough to hold it, they report the same k distances. */
  method SearchBoth<Vec(0)>(index: HierarchicalNSW<Vec>, scan: BruteforceSearch<Vec>, query: Vec, k: nat)
    returns (fast: multiset<Entry>, slow: multiset<Entry>, ghost trail: seq<nat>)
    requires index.Valid() && scan.Valid()
    requires scan as object !in index.visitedListPool.Repr && scan.data as object !in index.visitedListPool.Repr
    requires index.metric == scan.metric && index.Stored() == scan.Contents()
    requires scan.curElementCount > 0 ==> 1 <= k <= scan.curElementCount
    requires |index.LiveNodes()| <= Max(index.ef, k)
    modifies index.visitedListPool.Repr
    ensures index.Valid() && scan.Valid()
    ensures |index.vectors| > 0 ==> 0 <= index.maxlevel < |trail| && trail[0] == index.enterpoint
    ensures |index.vectors| == 0 || index.LiveNodes() <= Reach(index.links, 0, trail[index.maxlevel]) ==>
      Dists(fast) == Dists(slow)
  {
    hide Selects, Scores, Dists, Reach, SearchResult, Landing, Nearest, LabelsOf, EntriesOf, Live, DownTo;
    ghost var all := Scores(scan.metric, query, scan.Contents());
    slow := scan.SearchKnn(query, k);
    ghost var visited, found;
    fast, trail, visited, found := index.SearchKnn(query, k);
    if |index.vectors| == 0 || index.LiveNodes() <= Reach(index.links, 0, trail[index.maxlevel]) {
      ParallelRefinesSerial(slow, fast, all, k);
    }
  }
}
