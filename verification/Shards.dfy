/** Gathering the answers of several FPGAs: the shared result buffer of CPU_programs_old/ANN_socket_multithread.hpp and
    the per-query merge of CPU_programs_old/host_multi_FPGA.cpp. */
module Shards {
  import opened Bytes
  import opened Arith
  import opened Selection

  const RECV_PKG_SIZE := 4096

  /** How eight bytes read as an id and four bytes as a distance is left open. */
  datatype Decoder = Decoder(id: seq<Byte> -> nat, dist: seq<Byte> -> real)

  // ---------- The layout of one answer ----------

  /** Sizes are in packets of 64 bytes: a header, the ids, the distances, each padded to whole packets. */
  function SizeIds(topK: nat): nat { WordsFor(topK * 64) }

  function SizeDists(topK: nat): nat { WordsFor(topK * 32) }

  function SizeResults(topK: nat): nat { 1 + SizeIds(topK) + SizeDists(topK) }

  function RecvBytesPerQuery(topK: nat): nat { 64 * SizeResults(topK) }

  lemma FieldsFit(topK: nat, k: nat)
    requires k < topK
    ensures 64 + 8 * k + 8 <= 64 * (1 + SizeIds(topK))
    ensures 64 * (1 + SizeIds(topK)) + 4 * k + 4 <= RecvBytesPerQuery(topK)
  {
    assert topK * 64 <= 512 * SizeIds(topK);
    assert topK * 32 <= 512 * SizeDists(topK);
  }

  /** The k-th (distance, id) pair of an answer. */
  function EntryAt(dec: Decoder, answer: seq<Byte>, topK: nat, k: nat): Entry
    requires k < topK && |answer| == RecvBytesPerQuery(topK)
  {
    FieldsFit(topK, k);
    var ids, dists := 64, 64 * (1 + SizeIds(topK));
    Entry(dec.dist(answer[dists + 4 * k..dists + 4 * k + 4]), dec.id(answer[ids + 8 * k..ids + 8 * k + 8]))
  }

  function AnswerEntries(dec: Decoder, answer: seq<Byte>, topK: nat): seq<Entry>
    requires |answer| == RecvBytesPerQuery(topK)
  {
    seq(topK, k requires 0 <= k < topK => EntryAt(dec, answer, topK, k))
  }

  // ---------- An answer from its sender's side ----------

  /** What an FPGA puts into one answer, and the bytes that fill up its last words. */
  datatype Answer = Answer(header: seq<Byte>, ids: seq<seq<Byte>>, idPad: seq<Byte>, dists: seq<seq<Byte>>,
                           distPad: seq<Byte>)

  /** A header of 64 bytes, topK ids of 8 bytes and topK distances of 4 bytes, each padded to whole 64-byte words. */
  predicate AnswerOk(a: Answer, topK: nat) {
    && |a.header| == 64 && Rows(a.ids, topK, 8) && Rows(a.dists, topK, 4)
    && 8 * topK + |a.idPad| == 64 * WordsFor(64 * topK) && 4 * topK + |a.distPad| == 64 * WordsFor(32 * topK)
  }

  function Sent(a: Answer): seq<Byte> {
    a.header + (Flat(a.ids) + a.idPad) + (Flat(a.dists) + a.distPad)
  }

  /** The pairs meant: the k-th distance with the k-th id. */
  function Pairs(dec: Decoder, a: Answer, topK: nat): seq<Entry>
    requires |a.ids| == |a.dists| == topK
  {
    seq(topK, k requires 0 <= k < topK => Entry(dec.dist(a.dists[k]), dec.id(a.ids[k])))
  }

  /** The receiver reads exactly the pairs that were meant. */
  lemma ReadsPairs(dec: Decoder, a: Answer, topK: nat)
    requires AnswerOk(a, topK)
    ensures |Sent(a)| == 64 + 64 * WordsFor(64 * topK) + 64 * WordsFor(32 * topK) == RecvBytesPerQuery(topK)
    ensures AnswerEntries(dec, Sent(a), topK) == Pairs(dec, a, topK)
  {
    SentSize(a, topK);
    forall k | 0 <= k < topK
      ensures EntryAt(dec, Sent(a), topK, k) == Entry(dec.dist(a.dists[k]), dec.id(a.ids[k])) {
      FieldsFit(topK, k);
      IdField(a, topK, k);
      DistField(a, topK, k);
      hide AnswerOk, Sent, Rows, WordsFor;
    }
  }

  lemma IdField(a: Answer, topK: nat, k: nat)
    requires AnswerOk(a, topK) && k < topK
    ensures 64 + 8 * k + 8 <= |Sent(a)| && Sent(a)[64 + 8 * k..64 + 8 * k + 8] == a.ids[k]
  {
    var back := a.idPad + (Flat(a.dists) + a.distPad);
    FieldAt(a.header, a.ids, back, topK, 8, k);
    hide Flat, Rows, WordsFor;
    assert Sent(a) == a.header + Flat(a.ids) + back;
  }

  lemma DistField(a: Answer, topK: nat, k: nat)
    requires AnswerOk(a, topK) && k < topK
    ensures var at := 64 + 64 * WordsFor(64 * topK) + 4 * k;
      at + 4 <= |Sent(a)| && Sent(a)[at..at + 4] == a.dists[k]
  {
    SentSize(a, topK);
    var front := a.header + (Flat(a.ids) + a.idPad);
    FieldAt(front, a.dists, a.distPad, topK, 4, k);
    hide Flat, Rows, WordsFor;
    assert Sent(a) == front + Flat(a.dists) + a.distPad;
  }

  lemma SentSize(a: Answer, topK: nat)
    requires AnswerOk(a, topK)
    ensures |Flat(a.ids)| == 8 * topK && |Flat(a.dists)| == 4 * topK
    ensures |Sent(a)| == RecvBytesPerQuery(topK)
  {
    FlatSize(a.ids, topK, 8);
    FlatSize(a.dists, topK, 4);
    MulIsProduct(topK, 8);
    MulIsProduct(topK, 4);
  }

  lemma FieldAt(front: seq<Byte>, rows: seq<seq<Byte>>, back: seq<Byte>, n: nat, width: nat, k: nat)
    requires Rows(rows, n, width) && k < n
    ensures |front| + k * width + width <= |front + Flat(rows) + back|
    ensures (front + Flat(rows) + back)[|front| + k * width..|front| + k * width + width] == rows[k]
  {
    FlatAt(rows, n, width, k);
    MulIsProduct(k, width);
    hide Flat, Mul;
    var at := Mul(k, width);
    assert (front + Flat(rows) + back)[|front| + at..|front| + at + width] == Flat(rows)[at..at + width];
  }

  /** Every block of the right length is such an answer. */
  lemma AsAnswer(bytes: seq<Byte>, topK: nat) returns (a: Answer)
    requires |bytes| == RecvBytesPerQuery(topK)
    ensures AnswerOk(a, topK) && Sent(a) == bytes
  {
    var ids, dists := 64, 64 + 64 * WordsFor(64 * topK);
    MulIsProduct(topK, 8);
    MulIsProduct(topK, 4);
    assert 8 * topK <= 64 * WordsFor(64 * topK) && 4 * topK <= 64 * WordsFor(32 * topK);
    var idRows := AsRows(bytes[ids..ids + 8 * topK], topK, 8);
    var distRows := AsRows(bytes[dists..dists + 4 * topK], topK, 4);
    a := Answer(bytes[..64], idRows, bytes[ids + 8 * topK..dists], distRows, bytes[dists + 4 * topK..]);
    hide Flat, Rows;
    assert bytes == bytes[..ids] + (bytes[ids..ids + 8 * topK] + bytes[ids + 8 * topK..dists])
        + (bytes[dists..dists + 4 * topK] + bytes[dists + 4 * topK..]);
  }

  // ---------- Combining the answers ----------

  ghost function Union(parts: seq<multiset<Entry>>): multiset<Entry> {
    if parts == [] then multiset{} else Union(parts[..|parts| - 1]) + parts[|parts| - 1]
  }

  lemma {:induction false} AnswersSuffice(answers: seq<multiset<Entry>>, shards: seq<multiset<Entry>>, topK: nat)
    requires |answers| == |shards|
    requires forall n | 0 <= n < |shards| :: Selects(Lex, answers[n], shards[n], topK)
    ensures Sufficient(Lex, Union(answers), Union(shards), topK)
    decreases |shards|
  {
    if answers != [] {
      var last := |answers| - 1;
      AnswersSuffice(answers[..last], shards[..last], topK);
      SelectionIsSufficient(Lex, answers[last], shards[last], topK);
      SufficientUnion(Lex, Union(answers[..last]), Union(shards[..last]), answers[last], shards[last], topK);
    }
  }

  /** If every FPGA returns the TOPK least pairs of its shard, the TOPK least of all returned pairs are the TOPK least
      pairs of the whole database. */
  lemma ShardedTopKIsExact(answers: seq<multiset<Entry>>, shards: seq<multiset<Entry>>, kept: multiset<Entry>,
                           topK: nat)
    requires |answers| == |shards|
    requires forall n | 0 <= n < |shards| :: Selects(Lex, answers[n], shards[n], topK)
    requires Selects(Lex, kept, Union(answers), topK)
    ensures Selects(Lex, kept, Union(shards), topK)
  {
    AnswersSuffice(answers, shards, topK);
    SelectFromSufficient(Lex, kept, Union(answers), Union(shards), topK);
  }

  // ---------- Sorting pairs ----------

  ghost predicate Sorted(s: seq<Entry>) {
    forall i, j | 0 <= i < j < |s| :: Lex(s[i], s[j])
  }

  /** std::sort on pairs. */
  method SortPairs(s: seq<Entry>) returns (r: seq<Entry>)
    ensures Sorted(r) && multiset(r) == multiset(s)
  {
    r := [];
    var rest := multiset(s);
    while rest != multiset{}
      invariant rest + multiset(r) == multiset(s) && Sorted(r)
      invariant forall x, i | x in rest && 0 <= i < |r| :: Lex(x, r[i])
      decreases |rest|
    {
      var e := TopLex(rest);
      PushFront(rest, r, e, multiset(s));
      rest, r := rest - multiset{e}, [e] + r;
    }
  }

  lemma PushFront(rest: multiset<Entry>, r: seq<Entry>, e: Entry, all: multiset<Entry>)
    requires e in rest && rest + multiset(r) == all
    ensures rest - multiset{e} + multiset([e] + r) == all
  {
  }

  lemma PrefixSelects(s: seq<Entry>, k: nat)
    requires Sorted(s) && k <= |s|
    ensures Selects(Lex, multiset(s[..k]), multiset(s), k)
  {
    assert s == s[..k] + s[k..];
    assert multiset(s) - multiset(s[..k]) == multiset(s[k..]);
  }

  // ---------- The shared buffer ----------

  class ResultBuffer {
    const topK: nat
    const numFpga: nat
    const queryNum: nat
    const outBuf: array<Byte>

    ghost predicate Valid() {
      outBuf.Length == numFpga * queryNum * RecvBytesPerQuery(topK)
    }

    /** Each (query, FPGA) pair owns one block; blocks are laid out query by query. */
    function BlockStart(query: nat, n: nat): nat {
      (numFpga * query + n) * RecvBytesPerQuery(topK)
    }

    lemma BlockInBounds(query: nat, n: nat)
      requires Valid() && query < queryNum && n < numFpga
      ensures BlockStart(query, n) + RecvBytesPerQuery(topK) <= outBuf.Length
    {
      assert numFpga * query + n < numFpga * queryNum by {
        BlocksInOrder(query, queryNum, numFpga);
        assert numFpga * query == query * numFpga && numFpga * queryNum == queryNum * numFpga;
      }
      BlocksInOrder(numFpga * query + n, numFpga * queryNum, RecvBytesPerQuery(topK));
    }

    /** Different pairs own disjoint blocks. */
    lemma BlocksDisjoint(query: nat, n: nat, query': nat, n': nat)
      requires n < numFpga && n' < numFpga && (query, n) != (query', n')
      ensures BlockStart(query, n) + RecvBytesPerQuery(topK) <= BlockStart(query', n')
           || BlockStart(query', n') + RecvBytesPerQuery(topK) <= BlockStart(query, n)
    {
      var b, b', size := numFpga * query + n, numFpga * query' + n', RecvBytesPerQuery(topK);
      assert numFpga * query == query * numFpga && numFpga * query' == query' * numFpga;
      if query < query' {
        BlocksInOrder(query, query', numFpga);
      } else if query' < query {
        BlocksInOrder(query', query, numFpga);
      }
      assert b != b';
      if b < b' {
        BlocksInOrder(b, b', size);
      } else {
        BlocksInOrder(b', b, size);
      }
    }

    ghost function Block(query: nat, n: nat): (b: seq<Byte>)
      requires Valid() && query < queryNum && n < numFpga
      reads outBuf
      ensures |b| == RecvBytesPerQuery(topK)
    {
      BlockInBounds(query, n);
      outBuf[BlockStart(query, n)..BlockStart(query, n) + RecvBytesPerQuery(topK)]
    }

    /** Receives one answer into its own block, in reads of whatever positive size the socket chooses. */
    method Receive(query: nat, n: nat, answer: seq<Byte>)
      requires Valid() && query < queryNum && n < numFpga && |answer| == RecvBytesPerQuery(topK)
      modifies outBuf
      ensures Valid() && Block(query, n) == answer
      ensures var at := (numFpga * query + n) * |answer|;
        at + |answer| <= outBuf.Length && outBuf[at..at + |answer|] == answer
      ensures forall q, k | 0 <= q < queryNum && 0 <= k < numFpga && (q, k) != (query, n) ::
          Block(q, k) == old(Block(q, k))
    {
      BlockInBounds(query, n);
      var start := BlockStart(query, n);
      var total := 0;
      while total < |answer|
        invariant total <= |answer|
        invariant forall i | 0 <= i < total :: outBuf[start + i] == answer[i]
        invariant forall i | 0 <= i < outBuf.Length && !(start <= i < start + total) :: outBuf[i] == old(outBuf[i])
      {
        var limit := if |answer| - total < RECV_PKG_SIZE then |answer| - total else RECV_PKG_SIZE;
        var bytes: nat :| 1 <= bytes <= limit;
        forall i | 0 <= i < bytes {
          outBuf[start + total + i] := answer[total + i];
        }
        total := total + bytes;
      }
      forall q, k | 0 <= q < queryNum && 0 <= k < numFpga && (q, k) != (query, n)
        ensures Block(q, k) == old(Block(q, k)) {
        BlockInBounds(q, k);
        BlocksDisjoint(query, n, q, k);
      }
    }

    /** The blocks of a query hold these answers. */
    ghost predicate Holds(query: nat, answers: seq<Answer>)
      requires Valid() && query < queryNum
      reads outBuf
    {
      && AllOk(answers, numFpga, topK)
      && forall n | 0 <= n < numFpga :: Block(query, n) == Sent(answers[n])
    }

    method LoadBlock(dec: Decoder, query: nat, n: nat, ghost a: Answer) returns (partial: seq<Entry>)
      requires Valid() && query < queryNum && n < numFpga && AnswerOk(a, topK) && Block(query, n) == Sent(a)
      ensures partial == Pairs(dec, a, topK)
    {
      ReadsPairs(dec, a, topK);
      BlockInBounds(query, n);
      var start := BlockStart(query, n);
      partial := AnswerEntries(dec, outBuf[start..start + RecvBytesPerQuery(topK)], topK);
    }

    /** Loads every FPGA's block, sorts all the pairs and keeps the first TOPK.  If each FPGA has returned the TOPK
        least pairs of its shard, these are the TOPK least pairs of the whole database. */
    method Gather(dec: Decoder, query: nat, ghost answers: seq<Answer>, ghost shards: seq<multiset<Entry>>)
      returns (best: seq<Entry>)
      requires Valid() && query < queryNum && numFpga > 0 && Holds(query, answers)
      ensures |best| == topK && Sorted(best)
      ensures Selects(Lex, multiset(best), Union(Meant(dec, answers, topK)), topK)
      ensures (|shards| == numFpga
               && forall n | 0 <= n < numFpga :: Selects(Lex, Meant(dec, answers, topK)[n], shards[n], topK)) ==>
        Selects(Lex, multiset(best), Union(shards), topK)
    {
      hide Valid, BlockStart, RecvBytesPerQuery, EntryAt, Selects, Sent, AnswerOk;
      var hwResultPair: seq<Entry> := [];
      ghost var meant := Meant(dec, answers, topK);
      for n := 0 to numFpga
        invariant |hwResultPair| == n * topK
        invariant multiset(hwResultPair) == Union(meant[..n])
      {
        var partial := LoadBlock(dec, query, n, answers[n]);
        assert meant[..n + 1][..n] == meant[..n];
        MulStep(n, topK);
        hwResultPair := hwResultPair + partial;
      }
      assert meant[..numFpga] == meant;
      MulMonotone(1, numFpga, topK);
      var sorted := SortPairs(hwResultPair);
      SameLength(sorted, hwResultPair);
      PrefixSelects(sorted, topK);
      best := sorted[..topK];
      if |shards| == numFpga && forall n | 0 <= n < numFpga :: Selects(Lex, meant[n], shards[n], topK) {
        ShardedTopKIsExact(meant, shards, multiset(best), topK);
      }
    }

    /** One query from the answers of all FPGAs to the TOPK least pairs of the database. */
    method ReceiveAndGather(dec: Decoder, query: nat, received: seq<seq<Byte>>, ghost answers: seq<Answer>,
                            ghost shards: seq<multiset<Entry>>)
      returns (best: seq<Entry>)
      requires Valid() && query < queryNum && numFpga > 0 && |received| == |shards| == numFpga
      requires AllOk(answers, numFpga, topK) && forall n | 0 <= n < numFpga :: received[n] == Sent(answers[n])
      requires forall n | 0 <= n < numFpga :: Selects(Lex, multiset(Pairs(dec, answers[n], topK)), shards[n], topK)
      modifies outBuf
      ensures Valid() && |best| == topK && Sorted(best) && Selects(Lex, multiset(best), Union(shards), topK)
    {
      hide BlockStart, RecvBytesPerQuery, EntryAt, Selects, AnswerEntries, Sent, AnswerOk, Pairs;
      for n := 0 to numFpga
        invariant Valid() && forall j | 0 <= j < n :: Block(query, j) == received[j]
      {
        SentSize(answers[n], topK);
        Receive(query, n, received[n]);
      }
      best := Gather(dec, query, answers, shards);
    }
  }

  ghost predicate AllOk(answers: seq<Answer>, numFpga: nat, topK: nat) {
    |answers| == numFpga && forall n | 0 <= n < numFpga :: AnswerOk(answers[n], topK)
  }

  /** The entries all FPGAs meant to return. */
  ghost function Meant(dec: Decoder, answers: seq<Answer>, topK: nat): seq<multiset<Entry>>
    requires AllOk(answers, |answers|, topK)
  {
    seq(|answers|, n requires 0 <= n < |answers| => multiset(Pairs(dec, answers[n], topK)))
  }

  lemma SameLength(a: seq<Entry>, b: seq<Entry>)
    requires multiset(a) == multiset(b)
    ensures |a| == |b|
  {
    assert |multiset(a)| == |multiset(b)|;
  }
}
