/** A ring buffer that is too small for the batch window loses a batch in some run of the whole pipeline. */
module PipelineOverflow {
  import opened Bytes
  import opened Arith
  import opened Framing
  import opened Rings
  import opened PipelineModel
  import opened PipelineLocal
  import opened PipelineSafety
  import opened PipelineTheorems

  ghost predicate Reachable(c: Config, s: State)
    requires ConfigOk(c)
  {
    exists states, trace :: IsRun(c, states, trace) && states[|trace|] == s
  }

  lemma Onward(c: Config, s: State, e: Event)
    requires ConfigOk(c) && Reachable(c, s) && Enabled(c, s, e)
    ensures Reachable(c, Move(c, s, e))
  {
    hide ConfigOk, Enabled, Move, Initial;
    var states, trace :| IsRun(c, states, trace) && states[|trace|] == s;
    RunExtends(c, states, trace, e);
    var states', trace' := states + [Move(c, s, e)], trace + [e];
    assert states'[|trace'|] == Move(c, s, e);
  }

  lemma ReachableInv(c: Config, s: State)
    requires ConfigOk(c) && Reachable(c, s)
    ensures Inv(c, s) && |s.sims| == c.fpgas
  {
    hide ConfigOk, Inv, Initial, Enabled, Move;
    var states, trace :| IsRun(c, states, trace) && states[|trace|] == s;
    ReachableOk(c, states, trace, |trace|);
  }

  // ---------- Only thread_G2C runs ----------

  /** The other two threads have not started, and the GPU has sent everything. */
  predicate OnlyG2C(c: Config, s: State) {
    && s.gpuSent == |c.gpu| && s.convs == [] && s.co.fBatch == 0 && s.co.f == Receive(0, 0, 0)
    && s.co.c == NextBatch && s.co.cBatch == 0
  }

  function InitialState(c: Config): State {
    State(0, [],
          Coordinator(AwaitWindow, 0, [], Ring(seq(c.slots, _ => []), 0, 0, false), c.batchWindow, 0, c.queryWindow,
                      NextBatch, 0, seq(BatchBytes(c), _ => 0), [], Receive(0, 0, 0), 0),
          seq(c.fpgas, _ => Fpga([], ReadHeader, 0, [], 0, 0, [], 0, 0, AwaitHeader, 0, 0, 0)), [], [], 0)
  }

  lemma InitialReachable(c: Config)
    requires ConfigOk(c)
    ensures Reachable(c, InitialState(c))
  {
    var s := InitialState(c);
    assert Initial(c, s);
    var none: seq<Event> := [];
    assert IsRun(c, [s], none) && [s][|none|] == s;
  }

  lemma NothingHappened(c: Config)
    requires ConfigOk(c)
    ensures var s := InitialState(c);
      && s.gpuSent == 0 && s.convs == [] && s.co.fBatch == 0 && s.co.f == Receive(0, 0, 0) && s.co.c == NextBatch
           && s.co.cBatch == 0
      && s.co.g.AwaitWindow? && s.co.gBatch == 0 && Ok(s.co.ring) && Contents(s.co.ring) == []
  {
    hide BatchBytes, ConfigOk;
    assert c.slots > 0 by {
      SlotsExist(c);
    }
  }

  lemma SlotsExist(c: Config)
    requires ConfigOk(c)
    ensures c.slots > 0 && c.fpgas > 0
  {
  }

  /** The GPU sends all it has at once. */
  lemma AllSent(c: Config) returns (s: State)
    requires ConfigOk(c) && |c.gpu| > 0
    ensures Reachable(c, s) && OnlyG2C(c, s) && s.co.g.AwaitWindow? && s.co.gBatch == 0 && Ok(s.co.ring)
        && Contents(s.co.ring) == []
  {
    InitialReachable(c);
    NothingHappened(c);
    hide ConfigOk, Reachable, InitialState, Contents, Ok;
    Onward(c, InitialState(c), Gpu(|c.gpu|));
    s := Move(c, InitialState(c), Gpu(|c.gpu|));
  }

  /** What thread_G2C finds in the link while it reads batch b. */
  lemma LinkHolds(c: Config, s: State)
    requires Inv(c, s) && s.gpuSent == |c.gpu|
    ensures s.co.g.ReadBatch? ==> |s.co.gBuf| <= BatchBytes(c) && |s.gpuLink| >= BatchBytes(c) - |s.co.gBuf|
    ensures s.co.g.StoreBatch? ==> s.co.gBatch < c.total && s.co.gBuf == GpuBatch(c, s.co.gBatch)
    ensures Ok(s.co.ring) && |s.co.ring.slots| == c.slots
  {
    if s.co.gBatch < c.total {
      BatchInside(c, s.co.gBatch);
    }
    hide ConfigOk, COk, FOk, SimsOk, SemOk, BatchBytes, GpuBatch, Mul, Slice, Contents;
  }

  /** Reading the rest of a batch, at most one package at a time. */
  lemma {:induction false} ReadRest(c: Config, s: State) returns (t: State)
    requires ConfigOk(c) && Reachable(c, s) && OnlyG2C(c, s) && s.co.g.ReadBatch?
    ensures Reachable(c, t) && OnlyG2C(c, t) && t.co.g.StoreBatch? && t.co.gBatch == s.co.gBatch
        && t.co.ring == s.co.ring
    decreases BatchBytes(c) - |s.co.gBuf|
  {
    ReachableInv(c, s);
    LinkHolds(c, s);
    hide ConfigOk, Reachable, Inv, BatchBytes;
    var left := BatchBytes(c) - |s.co.gBuf|;
    var m := if left < 4096 then left else 4096;
    Onward(c, s, RunG2C(m));
    t := Move(c, s, RunG2C(m));
    if left > 0 {
      t := ReadRest(c, t);
    }
  }

  lemma WindowOpen(c: Config, s: State)
    requires Inv(c, s) && OnlyG2C(c, s) && s.co.g.AwaitWindow? && s.co.gBatch < c.batchWindow
    ensures s.co.freeBatches > 0
  {
    hide ConfigOk, GOk, COk, FOk, SimsOk, RingShape, Started, Done;
  }

  /** thread_G2C receives one more batch. */
  lemma ReceiveOne(c: Config, s: State) returns (t: State)
    requires ConfigOk(c) && Reachable(c, s) && OnlyG2C(c, s) && s.co.g.AwaitWindow?
    requires s.co.gBatch < c.batchWindow && s.co.gBatch < c.total
    ensures Reachable(c, t) && OnlyG2C(c, t) && t.co.g.StoreBatch? && t.co.gBatch == s.co.gBatch
        && t.co.ring == s.co.ring
  {
    ReachableInv(c, s);
    WindowOpen(c, s);
    hide ConfigOk, Reachable, Inv, BatchBytes, Put, Ok;
    Onward(c, s, RunG2C(0));
    t := ReadRest(c, Move(c, s, RunG2C(0)));
  }

  /** It stores the batch and says so. */
  lemma StoreIt(c: Config, s: State) returns (t: State)
    requires ConfigOk(c) && Reachable(c, s) && OnlyG2C(c, s) && s.co.g.StoreBatch? && Ok(s.co.ring)
    ensures Reachable(c, t) && OnlyG2C(c, t) && t.co.g.AwaitWindow? && t.co.gBatch == s.co.gBatch + 1
    ensures t.co.ring == Put(s.co.ring, s.co.gBuf)
  {
    hide ConfigOk, Reachable, BatchBytes, Put, Ok;
    Onward(c, s, RunG2C(0));
    t := Move(c, s, RunG2C(0));
    Onward(c, t, RunG2C(0));
    t := Move(c, t, RunG2C(0));
  }

  /** thread_G2C receives and stores one more batch. */
  lemma StoreOne(c: Config, s: State) returns (t: State)
    requires ConfigOk(c) && Reachable(c, s) && OnlyG2C(c, s) && s.co.g.AwaitWindow?
    requires s.co.gBatch < c.batchWindow && s.co.gBatch < c.total
    ensures Reachable(c, t) && OnlyG2C(c, t) && t.co.g.AwaitWindow? && t.co.gBatch == s.co.gBatch + 1
    ensures Ok(s.co.ring) && t.co.ring == Put(s.co.ring, GpuBatch(c, s.co.gBatch)) && |s.co.ring.slots| == c.slots
  {
    hide *;
    t := ReceiveOne(c, s);
    ReachableInv(c, t);
    AllSentIn(c, t);
    LinkHolds(c, t);
    t := StoreIt(c, t);
  }

  lemma AllSentIn(c: Config, s: State)
    requires OnlyG2C(c, s)
    ensures s.gpuSent == |c.gpu|
  {
  }

  /** The ring holds the first b batches. */
  ghost predicate HoldsFirst(c: Config, ring: Ring<seq<Byte>>, b: nat)
    requires ConfigOk(c)
  {
    Ok(ring) && b <= c.total && |Contents(ring)| == b && forall j | 0 <= j < b :: Contents(ring)[j] == GpuBatch(c, j)
  }

  lemma PutNext(c: Config, ring: Ring<seq<Byte>>, b: nat)
    requires ConfigOk(c) && HoldsFirst(c, ring, b) && b < c.total
    ensures b < |ring.slots| ==> HoldsFirst(c, Put(ring, GpuBatch(c, b)), b + 1)
    ensures b == |ring.slots| > 0 ==>
      Contents(Put(ring, GpuBatch(c, b))) != [] && (b > 1 ==> Contents(Put(ring, GpuBatch(c, b)))[0] == GpuBatch(c, 1))
    ensures b == |ring.slots| == 1 ==> Contents(Put(ring, GpuBatch(c, b)))[0] == GpuBatch(c, 1)
  {
    hide ConfigOk, GpuBatch;
    WriteAppends(ring, GpuBatch(c, b));
    hide Contents, Written;
  }

  lemma {:induction false} StoreMany(c: Config, b: nat) returns (s: State)
    requires ConfigOk(c) && |c.gpu| > 0 && b <= c.slots && b <= c.batchWindow && b <= c.total
    ensures Reachable(c, s) && OnlyG2C(c, s) && s.co.g.AwaitWindow? && s.co.gBatch == b && HoldsFirst(c, s.co.ring, b)
    decreases b
  {
    if b == 0 {
      s := AllSent(c);
      ReachableInv(c, s);
      LinkHolds(c, s);
    } else {
      var before := StoreMany(c, b - 1);
      s := StoreOne(c, before);
      PutNext(c, before.co.ring, b - 1);
    }
  }

  // ---------- Then thread_C2F takes its first batch ----------

  /** The header of batch 0 goes to the FPGAs from n on. */
  lemma {:induction false} HeadersOut(c: Config, s: State, n: nat) returns (t: State)
    requires ConfigOk(c) && Reachable(c, s) && s.co.c == SendHeader(n, 0) && n <= c.fpgas && |s.co.item| == 64
        && s.co.cBatch < c.total
    ensures Reachable(c, t) && t.co.c == AwaitReady && t.co.ring == s.co.ring && t.co.ready == s.co.ready
        && t.convs == s.convs
    decreases c.fpgas - n
  {
    ReachableInv(c, s);
    hide ConfigOk, Reachable, Inv;
    var m := if n < c.fpgas then 64 else 0;
    Onward(c, s, RunC2F(m));
    t := Move(c, s, RunC2F(m));
    if n < c.fpgas {
      t := HeadersOut(c, t, n + 1);
    }
  }

  /** The first batch thread_C2F reads is the oldest one in the ring. */
  lemma TakesOldest(c: Config, s: State) returns (t: State)
    requires ConfigOk(c) && Reachable(c, s) && OnlyG2C(c, s) && s.co.g.AwaitWindow? && s.co.gBatch > 0 && 0 < c.total
    requires Ok(s.co.ring) && Contents(s.co.ring) != []
    ensures Reachable(c, t) && t.convs == [Contents(s.co.ring)[0]]
  {
    ReachableInv(c, s);
    AllReady(c, s);
    hide ConfigOk, Reachable, Inv, Contents, HeaderOf, BodyOf, BatchBytes, Ok;
    Onward(c, s, RunC2F(0));
    t := HeadersOut(c, Move(c, s, RunC2F(0)), 0);
    t := ReadsRing(c, t);
  }

  lemma ReadsRing(c: Config, s: State) returns (t: State)
    requires ConfigOk(c) && Reachable(c, s) && s.co.c == AwaitReady && s.co.ready > 0 && s.convs == []
    requires Ok(s.co.ring) && Contents(s.co.ring) != []
    ensures Reachable(c, t) && t.convs == [Contents(s.co.ring)[0]]
  {
    ReleaseTakesOldest(s.co.ring);
    hide ConfigOk, Reachable, Contents, HeaderOf, BodyOf, Take, BatchBytes, Ok, Released;
    Onward(c, s, RunC2F(0));
    t := Move(c, s, RunC2F(0));
    Onward(c, t, RunC2F(0));
    t := Move(c, t, RunC2F(0));
  }

  lemma AllReady(c: Config, s: State)
    requires Inv(c, s) && OnlyG2C(c, s)
    ensures s.co.ready == s.co.gBatch
  {
    hide ConfigOk, GOk, COk, FOk, SimsOk, RingShape, Started, Done;
  }

  /** With more batches in the window, and in the run, than slots, the first batch read is the second one sent. */
  lemma LosesFirst(c: Config) returns (s: State)
    requires ConfigOk(c) && c.slots < c.batchWindow && c.slots < c.total
    ensures Reachable(c, s) && s.convs == [GpuBatch(c, 1)]
  {
    SomethingSent(c);
    var full := StoreMany(c, c.slots);
    var over := StoreOne(c, full);
    PutNext(c, full.co.ring, c.slots);
    s := TakesOldest(c, over);
  }

  lemma SomethingSent(c: Config)
    requires ConfigOk(c) && 0 < c.total
    ensures |c.gpu| > 0 && BatchBytes(c) > 0
  {
    HeaderCounts(c.batch, c.dim, c.nprobe);
    BatchInside(c, 0);
    hide GpuBatchBytes;
  }

  lemma HeaderCounts(batch: nat, dim: nat, nprobe: nat)
    ensures GpuBatchBytes(batch, dim, nprobe) >= 16
  {
    MulMonotone(0, 4 * batch, dim);
    MulMonotone(0, 8 * batch, nprobe);
  }

  // ---------- Exactly when nothing is lost ----------

  /** In every state of every run, the b-th batch thread_C2F has read is the b-th batch of the GPU. */
  ghost predicate DeliversBatches(c: Config)
    requires ConfigOk(c)
  {
    forall s | Reachable(c, s) :: FromGpu(c, s.convs)
  }

  /** Whatever bytes the GPU sends. */
  ghost predicate DeliversAnything(c: Config)
    requires ConfigOk(c)
  {
    forall gpu: seq<Byte> | |gpu| == |c.gpu| && ConfigOk(c.(gpu := gpu)) :: DeliversBatches(c.(gpu := gpu))
  }

  lemma DeliversIfLarge(c: Config, s: State)
    requires ConfigOk(c) && RingLargeEnough(c) && Reachable(c, s)
    ensures FromGpu(c, s.convs)
  {
    var states, trace :| IsRun(c, states, trace) && states[|trace|] == s;
    LosslessHandOff(c, states, trace, |trace|);
    hide ConfigOk, GpuBatch, IsRun, Contents;
    var held := Contents(s.co.ring);
    forall b: nat | b < |s.convs|
      ensures s.convs[b] == GpuBatch(c, b)
    {
      FromRing(c, s.convs, held, b);
    }
    assert |s.convs + held| == |s.convs| + |held|;
  }

  /** Contents whose first two batches differ. */
  function Telling(c: Config): seq<Byte> {
    seq(|c.gpu|, i => if i < BatchBytes(c) then 0 else 1)
  }

  lemma TellsApart(c: Config)
    requires ConfigOk(c) && 1 < c.total
    ensures ConfigOk(c.(gpu := Telling(c))) && GpuBatch(c.(gpu := Telling(c)), 0) != GpuBatch(c.(gpu := Telling(c)), 1)
  {
    var d := c.(gpu := Telling(c));
    SomethingSent(c);
    BatchInside(d, 0);
    BatchInside(d, 1);
    assert Mul(1, BatchBytes(d)) == BatchBytes(d) && Mul(0, BatchBytes(d)) == 0;
    assert GpuBatch(d, 0)[0] == 0 && GpuBatch(d, 1)[0] == 1;
  }

  /** The pipeline hands over every batch, whatever the GPU sends and however the threads run, exactly when the batch
      window or the whole run fits in the ring buffer. */
  lemma LosslessIffRingLargeEnough(c: Config)
    requires ConfigOk(c)
    ensures DeliversAnything(c) <==> RingLargeEnough(c)
  {
    if RingLargeEnough(c) {
      forall gpu: seq<Byte> | |gpu| == |c.gpu| && ConfigOk(c.(gpu := gpu))
        ensures DeliversBatches(c.(gpu := gpu))
      {
        DeliversAll(c.(gpu := gpu));
      }
    } else {
      LosesSome(c);
    }
  }

  lemma DeliversAll(c: Config)
    requires ConfigOk(c) && RingLargeEnough(c)
    ensures DeliversBatches(c)
  {
    hide Reachable, ConfigOk, FromGpu;
    forall s | Reachable(c, s)
      ensures FromGpu(c, s.convs)
    {
      DeliversIfLarge(c, s);
    }
  }

  lemma LosesSome(c: Config)
    requires ConfigOk(c) && !RingLargeEnough(c)
    ensures !DeliversAnything(c)
  {
    SlotsExist(c);
    var d := c.(gpu := Telling(c));
    TellsApart(c);
    hide ConfigOk, GpuBatch, Reachable;
    var s := LosesFirst(d);
    assert s.convs[0] != GpuBatch(d, 0);
    assert !DeliversBatches(d);
    assert |Telling(c)| == |c.gpu|;
  }
}
