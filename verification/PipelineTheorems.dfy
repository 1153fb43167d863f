/** What the pipeline promises over whole runs. */
module PipelineTheorems {
  import opened Bytes
  import opened Arith
  import opened Framing
  import opened GpuBatches
  import opened Rings
  import opened PipelineModel
  import opened PipelineLocal
  import opened PipelineSafety
  import opened PipelineProgress
  import opened PipelineRuns

  // ---------- Every reachable state ----------

  lemma {:induction false} ReachableOk(c: Config, states: seq<State>, trace: seq<Event>, i: nat)
    requires ConfigOk(c) && IsRun(c, states, trace) && i < |states|
    ensures Inv(c, states[i]) && |states[i].sims| == c.fpgas
    ensures Work(c, states[i]) + i <= Work(c, states[0])
    decreases i
  {
    hide Inv, Move, Enabled, Work, ConfigOk;
    if i == 0 {
      InitialOk(c, states[0]);
    } else {
      ReachableOk(c, states, trace, i - 1);
      MoveKeeps(c, states[i - 1], trace[i - 1]);
      MoveFalls(c, states[i - 1], trace[i - 1]);
    }
    SimCount(c, states[i]);
  }

  /** Window conservation, in every state of every run. */
  lemma WindowsAlwaysConserved(c: Config, states: seq<State>, trace: seq<Event>, i: nat)
    requires ConfigOk(c) && IsRun(c, states, trace) && i < |states|
    ensures var s := states[i].co;
      var queries := Started(c, s.c, s.cBatch) - Done(c, s.f, s.fBatch);
      var batches := s.gBatch + (if s.g.AwaitWindow? then 0 else 1) - s.fBatch;
      && 0 <= queries <= c.queryWindow && s.freeQueries + queries == c.queryWindow
      && 0 <= batches <= c.batchWindow && s.freeBatches + batches == c.batchWindow
  {
    ReachableOk(c, states, trace, i);
    hide Inv, IsRun;
    WindowsConserved(c, states[i]);
  }

  // ---------- Lossless hand-off ----------

  /** The first batches of the GPU, in order. */
  ghost predicate FromGpu(c: Config, batches: seq<seq<Byte>>)
    requires ConfigOk(c)
  {
    |batches| <= c.total && forall b | 0 <= b < |batches| :: batches[b] == GpuBatch(c, b)
  }

  /** What has been read and what the ring still holds are together what the GPU sent and has been stored. */
  ghost predicate Faithful(c: Config, convs: seq<seq<Byte>>, ring: Ring<seq<Byte>>, stored: nat)
    requires ConfigOk(c)
  {
    Ok(ring) && FromGpu(c, convs + Contents(ring)) && |convs| + |Contents(ring)| == stored
  }

  predicate RingLargeEnough(c: Config) {
    c.batchWindow <= c.slots || c.total <= c.slots
  }

  lemma OneMore(c: Config, convs: seq<seq<Byte>>, held: seq<seq<Byte>>, x: seq<Byte>)
    requires ConfigOk(c) && FromGpu(c, convs + held) && |convs| + |held| < c.total && x == GpuBatch(c, |convs| + |held|)
    ensures FromGpu(c, convs + (held + [x]))
  {
    hide GpuBatch;
    assert convs + (held + [x]) == (convs + held) + [x];
  }

  /** Before write_slot: there is room, and the batch is the next one. */
  lemma RoomToStore(c: Config, s: State)
    requires Inv(c, s) && Faithful(c, s.convs, s.co.ring, Stored(s.co)) && RingLargeEnough(c) && s.co.g.StoreBatch?
    ensures |Contents(s.co.ring)| < |s.co.ring.slots|
    ensures Stored(s.co) < c.total && s.co.gBuf == GpuBatch(c, Stored(s.co))
  {
    hide *;
    Order(c, s);
    WindowsConserved(c, s);
    StoreFacts(c, s);
    Held(c, s.convs, s.co.ring, Stored(s.co));
    RoomBelow(c, s.co, |s.convs|, |Contents(s.co.ring)|);
  }

  lemma Held(c: Config, convs: seq<seq<Byte>>, ring: Ring<seq<Byte>>, stored: nat)
    requires ConfigOk(c) && Faithful(c, convs, ring, stored)
    ensures Ok(ring) && |convs| + |Contents(ring)| == stored
  {
    hide FromGpu, Contents, ConfigOk;
  }

  lemma RoomBelow(c: Config, co: Coordinator, taken: nat, held: nat)
    requires RingLargeEnough(c) && co.g.StoreBatch? && co.gBatch < c.total && co.fBatch <= taken
    requires co.gBatch + 1 - co.fBatch <= c.batchWindow && taken + held == Stored(co)
    ensures held < c.slots && Stored(co) == co.gBatch
  {
  }

  lemma StoreFacts(c: Config, s: State)
    requires Inv(c, s) && s.co.g.StoreBatch?
    ensures ConfigOk(c) && s.co.gBatch < c.total && s.co.gBuf == GpuBatch(c, s.co.gBatch)
        && |s.co.ring.slots| == c.slots
  {
    hide GpuBatch, Contents, COk, FOk, SimsOk, SemOk, Mul;
  }

  lemma StoringKeeps(c: Config, convs: seq<seq<Byte>>, ring: Ring<seq<Byte>>, stored: nat, x: seq<Byte>)
    requires ConfigOk(c) && Faithful(c, convs, ring, stored) && |Contents(ring)| < |ring.slots|
    requires stored < c.total && x == GpuBatch(c, stored)
    ensures Faithful(c, convs, Put(ring, x), stored + 1)
  {
    hide ConfigOk, GpuBatch, FromGpu, Contents, Written;
    WriteAppends(ring, x);
    OneMore(c, convs, Contents(ring), x);
  }

  lemma ReadingKeeps(c: Config, convs: seq<seq<Byte>>, ring: Ring<seq<Byte>>, stored: nat)
    requires ConfigOk(c) && Faithful(c, convs, ring, stored) && |convs| < stored
    ensures Contents(ring) != [] && Faithful(c, convs + [ring.slots[ring.tail]], Take(ring), stored)
  {
    hide ConfigOk, FromGpu, Contents, Released;
    ReleaseTakesOldest(ring);
    var held := Contents(ring);
    assert convs + held == convs + [held[0]] + held[1..];
  }

  lemma Semaphores(c: Config, s: State)
    requires Inv(c, s)
    ensures SemOk(c, s.co, |s.convs|) && |s.co.ring.slots| == c.slots
    ensures s.co.c.ReadRing? ==> s.co.gBatch > |s.convs|
  {
    hide GOk, COk, FOk, SimsOk, Started, Done, Contents;
  }

  lemma FaithfulKeepsG2C(c: Config, s: State, m: nat)
    requires Inv(c, s) && Faithful(c, s.convs, s.co.ring, Stored(s.co)) && RingLargeEnough(c) && G2CReady(c, s, m)
    ensures var t := G2CStep(c, s, m); Faithful(c, t.convs, t.co.ring, Stored(t.co))
  {
    assert ConfigOk(c);
    hide Inv, ConfigOk, Faithful, BatchBytes, Contents, Put, Ok, RingLargeEnough, GpuBatch;
    if s.co.g.StoreBatch? {
      RoomToStore(c, s);
      StoringKeeps(c, s.convs, s.co.ring, Stored(s.co), s.co.gBuf);
    }
  }

  /** thread_C2F touches the ring and the history of batches only in read_slot. */
  lemma C2FAndRing(c: Config, s: State, m: nat)
    requires ConfigOk(c) && C2FReady(c, s, m)
    ensures var t := C2FStep(c, s, m);
      && Stored(t.co) == Stored(s.co)
      && (!s.co.c.ReadRing? ==> t.convs == s.convs && t.co.ring == s.co.ring)
      && (s.co.c.ReadRing? && Contents(s.co.ring) != [] ==>
          t.convs == s.convs + [s.co.ring.slots[s.co.ring.tail]] && t.co.ring == Take(s.co.ring))
  {
    hide ConfigOk, BatchBytes, HeaderOf, BodyOf, Contents, Take, Ok, Sent;
  }

  lemma F2CAndRing(c: Config, s: State, m: nat)
    requires F2CReady(c, s, m)
    ensures var t := F2CStep(c, s, m); Stored(t.co) == Stored(s.co) && t.convs == s.convs && t.co.ring == s.co.ring
  {
    hide AnswerBytes;
  }

  lemma FaithfulKeepsC2F(c: Config, s: State, m: nat)
    requires Inv(c, s) && Faithful(c, s.convs, s.co.ring, Stored(s.co)) && C2FReady(c, s, m)
    ensures var t := C2FStep(c, s, m); Faithful(c, t.convs, t.co.ring, Stored(t.co))
  {
    assert ConfigOk(c);
    hide Inv, ConfigOk, Faithful, Started, Done, Contents, Take, C2FReady, C2FStep;
    C2FAndRing(c, s, m);
    if s.co.c.ReadRing? {
      Semaphores(c, s);
      ReadingKeeps(c, s.convs, s.co.ring, Stored(s.co));
    }
  }

  lemma FaithfulKeeps(c: Config, s: State, e: Event)
    requires Inv(c, s) && Faithful(c, s.convs, s.co.ring, Stored(s.co)) && RingLargeEnough(c) && Enabled(c, s, e)
    ensures Faithful(c, Move(c, s, e).convs, Move(c, s, e).co.ring, Stored(Move(c, s, e).co))
  {
    assert ConfigOk(c);
    hide Inv, ConfigOk, Faithful, Stored, InStep, OutStep, InReady, OutReady, G2CStep, G2CReady, C2FStep, C2FReady,
        F2CStep, F2CReady, RingLargeEnough;
    match e
    case RunG2C(m) => FaithfulKeepsG2C(c, s, m);
    case RunC2F(m) => FaithfulKeepsC2F(c, s, m);
    case RunF2C(m) => F2CAndRing(c, s, m);
    case _ =>
  }

  /** If the batch window, or the whole run, fits in the ring, the i-th read returns the i-th batch of the GPU. */
  lemma {:induction false} LosslessHandOff(c: Config, states: seq<State>, trace: seq<Event>, i: nat)
    requires ConfigOk(c) && IsRun(c, states, trace) && i < |states| && RingLargeEnough(c)
    ensures Faithful(c, states[i].convs, states[i].co.ring, Stored(states[i].co))
    decreases i
  {
    hide Inv, Move, Enabled, Work, ConfigOk;
    if i > 0 {
      ReachableOk(c, states, trace, i - 1);
      LosslessHandOff(c, states, trace, i - 1);
      FaithfulKeeps(c, states[i - 1], trace[i - 1]);
    }
  }

  // ---------- Framing ----------

  lemma SimOfRun(c: Config, s: State, n: nat)
    requires Inv(c, s) && n < |s.sims|
    ensures InOk(c, s.sims[n], Wire(s.log, s.co.c, |s.co.item|, n)) && OutOk(c, s.sims[n])
        && Wire(s.log, s.co.c, |s.co.item|, n) <= s.log
    ensures LogOk(c, s.log, s.convs, s.co.cBatch, CItem(s.co.c)) && CItem(s.co.c) <= c.batch + 1
    ensures |s.convs| >= s.co.cBatch && (CItem(s.co.c) > 1 ==> |s.convs| > s.co.cBatch)
  {
    OneSim(c, s, n);
    Position(c, s);
    Shapes(c, s);
    WireIsPrefix(s.log, s.co.c, |s.co.item|, n);
    hide LogOk, InOk, OutOk, Off, ConfigOk, SimsOk, GOk, FOk, SemOk, Suffix, Wire, BodySize, BatchBytes;
  }

  /** A complete header at a simulator is the header of the batch it is about to receive, decoded as it was meant. */
  lemma HeadersArrive(c: Config, states: seq<State>, trace: seq<Event>, i: nat, n: nat)
    requires ConfigOk(c) && IsRun(c, states, trace) && i < |states| && n < c.fpgas
    ensures n < |states[i].sims|
    ensures var x := states[i].sims[n];
      x.input.ReadHeader? && |x.inBuf| == 64 ==>
        && x.inBuf == HeaderOf(c, x.inBatch)
        && DecodeInt(x.inBuf) == c.batch && DecodeInt(x.inBuf[4..]) == c.nprobe
             && (DecodeInt(x.inBuf[8..]) != 0 <==> x.inBatch == c.total)
    ensures var x := states[i].sims[n];
      forall b | 0 <= b < |x.headers| :: x.headers[b] == HeaderOf(c, b)
  {
    ReachableOk(c, states, trace, i);
    var s := states[i];
    hide Inv, IsRun, LogOk, ConfigOk, HeaderOf, DecodeInt;
    SimOfRun(c, s, n);
    var x := s.sims[n];
    if x.input.ReadHeader? && |x.inBuf| == 64 {
      HeaderRead(c, x, Wire(s.log, s.co.c, |s.co.item|, n), s.log, s.convs, s.co.cBatch, CItem(s.co.c));
    }
  }

  lemma BodyArrives(c: Config, s: State, n: nat)
    requires ConfigOk(c) && Inv(c, s) && n < |s.sims|
    requires s.sims[n].input.ReadBody? && s.sims[n].input.q < c.batch && |s.sims[n].inBuf| == BodySize(c)
    ensures var x := s.sims[n];
      x.inBatch < |s.convs| && |s.convs[x.inBatch]| == BatchBytes(c)
          && x.inBuf == BodyOf(c, s.convs[x.inBatch], x.input.q)
  {
    hide Inv, LogOk, InOk, OutOk, ConfigOk, BodyOf, BatchBytes, ItemOf, Wire, BodySize;
    SimOfRun(c, s, n);
    var x := s.sims[n];
    BodyRead(c, x, Wire(s.log, s.co.c, |s.co.item|, n), s.log, s.convs, s.co.cBatch, CItem(s.co.c));
    BodyItem(c, s.convs, x.inBatch, x.input.q);
  }

  /** A complete body at a simulator is the body built for the query and batch it is about to count. */
  lemma BodiesArrive(c: Config, states: seq<State>, trace: seq<Event>, i: nat, n: nat)
    requires ConfigOk(c) && IsRun(c, states, trace) && i < |states| && n < |states[i].sims|
    requires var x := states[i].sims[n]; x.input.ReadBody? && x.input.q < c.batch && |x.inBuf| == BodySize(c)
    ensures var x := states[i].sims[n];
      && x.inBatch < |states[i].convs| && |states[i].convs[x.inBatch]| == BatchBytes(c)
      && x.inBuf == BodyOf(c, states[i].convs[x.inBatch], x.input.q)
  {
    hide Inv, IsRun, ConfigOk, BodyOf, BatchBytes, BodySize, Work;
    ReachableOk(c, states, trace, i);
    BodyArrives(c, states[i], n);
  }

  /** An item that is not empty is a real body. */
  lemma BodyItem(c: Config, convs: seq<seq<Byte>>, b: nat, q: nat)
    requires ConfigOk(c) && |ItemOf(c, convs, b, q + 1)| == BodySize(c) && q < c.batch
    ensures b < |convs| && |convs[b]| == BatchBytes(c) && ItemOf(c, convs, b, q + 1) == BodyOf(c, convs[b], q)
  {
    BodyParts(c.dim, c.nprobe);
    hide BodyOf, HeaderOf;
  }

  lemma FromRing(c: Config, convs: seq<seq<Byte>>, held: seq<seq<Byte>>, b: nat)
    requires ConfigOk(c) && FromGpu(c, convs + held) && b < |convs|
    ensures b < c.total && convs[b] == GpuBatch(c, b)
  {
    hide ConfigOk, GpuBatch;
    assert (convs + held)[b] == convs[b];
  }

  /** The batches the coordinator is meant to receive are those the GPU encoded. */
  lemma BatchMeant(c: Config, sent: seq<IdBatch>, b: nat)
    requires ConfigOk(c) && c.gpu == Stream(sent) && |sent| == c.total && AllOk(sent, c.batch, c.dim, c.nprobe)
    requires b < c.total
    ensures GpuBatch(c, b) == Encoded(sent[b])
  {
    StreamAt(sent, c.batch, c.dim, c.nprobe, b);
    assert Mul(b + 1, BatchBytes(c)) == Mul(b, BatchBytes(c)) + BatchBytes(c);
    hide Stream, Encoded, AllOk;
  }

  /** End to end: with a ring that is large enough, the four bytes at 4 * j of the body that arrives for query q of
      batch b are the low 32 bits of the j-th list ID the GPU meant for that query, and the ID itself exactly when it
      fits. */
  lemma IdsArrive(c: Config, sent: seq<IdBatch>, states: seq<State>, trace: seq<Event>, i: nat, n: nat, j: nat)
    requires ConfigOk(c) && IsRun(c, states, trace) && i < |states| && n < |states[i].sims| && RingLargeEnough(c)
    requires c.gpu == Stream(sent) && |sent| == c.total && AllOk(sent, c.batch, c.dim, c.nprobe)
    requires var x := states[i].sims[n];
      x.input.ReadBody? && x.input.q < c.batch && |x.inBuf| == BodySize(c) && j < c.nprobe
    ensures var x := states[i].sims[n];
      && x.inBatch < |sent| && x.input.q < |sent[x.inBatch].ids| && j < |sent[x.inBatch].ids[x.input.q]|
      && 4 * j + 4 <= |x.inBuf|
      && var id, r := sent[x.inBatch].ids[x.input.q][j], DecodeInt(x.inBuf[4 * j..]);
         && -0x8000_0000 <= r < 0x8000_0000 && (id - r) % 0x1_0000_0000 == 0
         && (r == id <==> -0x8000_0000 <= id < 0x8000_0000)
  {
    BodiesArrive(c, states, trace, i, n);
    LosslessHandOff(c, states, trace, i);
    var x := states[i].sims[n];
    FromRing(c, states[i].convs, Contents(states[i].co.ring), x.inBatch);
    BatchMeant(c, sent, x.inBatch);
    hide IsRun, GpuBatch, DecodeInt, Body, Contents, FromGpu, Stream, Encoded;
    BodyCarriesIds(c.blank, c.batch, c.dim, c.nprobe, sent[x.inBatch], x.input.q, j);
  }

  // ---------- What the GPU receives ----------

  /** 12 bytes for each of the topk results of each query of each answered batch, and so far k of the current one. */
  predicate AnswersSent(c: Config, f: F2C, fBatch: nat, toGpu: nat) {
    && toGpu == fBatch * (12 * c.topk * c.batch) + (if f.Answer? then f.k else 0)
    && (f.Answer? ==> f.k <= 12 * c.topk * c.batch)
  }

  lemma AnswerLength(batch: nat, topk: nat)
    ensures AnswerBytes(batch, topk) == 12 * topk * batch
  {
    assert batch * (8 * topk + 4 * topk) == batch * (12 * topk) == 12 * topk * batch;
  }

  lemma AnswersSentKeeps(c: Config, s: State, m: nat)
    requires F2CReady(c, s, m) && AnswersSent(c, s.co.f, s.co.fBatch, s.toGpu)
    ensures var t := F2CStep(c, s, m); AnswersSent(c, t.co.f, t.co.fBatch, t.toGpu)
  {
    AnswerLength(c.batch, c.topk);
    MulStep(s.co.fBatch, 12 * c.topk * c.batch);
  }

  lemma OthersSendNoAnswers(c: Config, s: State, e: Event)
    requires ConfigOk(c) && Enabled(c, s, e) && !e.RunF2C?
    ensures var t := Move(c, s, e); t.co.f == s.co.f && t.co.fBatch == s.co.fBatch && t.toGpu == s.toGpu
  {
    hide InStep, OutStep, HeaderOf, BodyOf, Take, Put, Contents, Ok, InReady, OutReady, BatchBytes, ConfigOk, Amount;
  }

  /** In every state of every run the GPU has been sent all of each answered batch, and of the next one what has left
      so far. */
  lemma {:induction false} AnswersReachGpu(c: Config, states: seq<State>, trace: seq<Event>, i: nat)
    requires ConfigOk(c) && IsRun(c, states, trace) && i < |states|
    ensures var s := states[i];
      && s.toGpu == s.co.fBatch * (12 * c.topk * c.batch) + (if s.co.f.Answer? then s.co.f.k else 0)
      && (s.co.f.Answer? ==> s.co.f.k <= 12 * c.topk * c.batch)
    decreases i
  {
    hide Move, Enabled, ConfigOk, F2CReady, F2CStep;
    if i > 0 {
      AnswersReachGpu(c, states, trace, i - 1);
      var s := states[i - 1];
      match trace[i - 1]
      case RunF2C(m) =>
        F2CMove(c, s, m);
        AnswersSentKeeps(c, s, m);
      case _ => OthersSendNoAnswers(c, s, trace[i - 1]);
    }
  }

  lemma F2CMove(c: Config, s: State, m: nat)
    requires ConfigOk(c) && Enabled(c, s, RunF2C(m))
    ensures F2CReady(c, s, m) && Move(c, s, RunF2C(m)) == F2CStep(c, s, m)
  {
    hide ConfigOk, F2CReady, F2CStep;
  }

  // ---------- Packages ----------

  /** No call moves more than one package: 4096 bytes, but 1024 of an answer of an FPGA and 64 of a header at an FPGA.
      */
  lemma PackageSizes(c: Config, s: State, e: Event)
    requires ConfigOk(c) && Enabled(c, s, e)
    ensures var t := Move(c, s, e);
      && t.toGpu <= s.toGpu + 4096 && |t.co.gBuf| <= |s.co.gBuf| + 4096 && |t.sims| == |s.sims|
      && forall n | 0 <= n < |s.sims| ::
           && |t.sims[n].link| <= |s.sims[n].link| + 4096
           && |t.sims[n].inBuf| <= |s.sims[n].inBuf| + (if s.sims[n].input.ReadHeader? then 64 else 4096)
           && -1024 <= t.sims[n].back - s.sims[n].back <= 1024
  {
    hide HeaderOf, BodyOf, ConfigOk, Take, Put, Contents, Ok, DecodeInt, BodyBytes, BatchBytes, AnswerBytes,
        ResultBytes;
  }

  /** A call may move any amount up to that, of what is left and has arrived. */
  lemma AnyAmountUpToAPackage(c: Config, s: State, m: nat)
    requires m > 0
    ensures s.co.g.ReadBatch? && |s.co.gBuf| + m <= BatchBytes(c) && m <= |s.gpuLink| && m <= 4096 ==> G2CReady(c, s, m)
    ensures (s.co.c.SendHeader? || s.co.c.SendBody?) && s.co.c.k + m <= |s.co.item| && m <= 4096 ==> C2FReady(c, s, m)
    ensures s.co.f.Answer? && s.co.fBatch < c.total && s.co.f.k + m <= AnswerBytes(c.batch, c.topk) && m <= 4096 ==>
      F2CReady(c, s, m)
    ensures s.co.f.Receive? && s.co.fBatch < c.total && s.co.f.n < |s.sims| ==>
      m <= s.sims[s.co.f.n].back && s.co.f.k + m <= 1344 && m <= 1024 ==> F2CReady(c, s, m)
  {
  }

  // ---------- Runs end, and end well ----------

  /** In the final state every query of every batch has been answered by every FPGA and every batch by the coordinator;
      each FPGA has had one header per batch and one terminate header after them; all links are empty and all slots
      free. */
  lemma FinalMeansAnswered(c: Config, s: State, n: nat)
    requires Inv(c, s) && Final(c, s) && n < |s.sims|
    ensures s.co.fBatch == c.total == |s.convs| && s.co.freeBatches == c.batchWindow
        && s.co.freeQueries == c.queryWindow && s.co.ready == 0
    ensures |s.log| == Off(c, c.total, 1)
    ensures var x := s.sims[n];
      && |x.headers| == c.total + 1 && x.link == [] && x.back == 0 && x.batches == 0 && x.results == 0
      && forall b | 0 <= b <= c.total ::
           x.headers[b] == HeaderOf(c, b) && (DecodeInt(x.headers[b][8..]) != 0 <==> b == c.total)
  {
    Shapes(c, s);
    Finishing(c, s);
    Position(c, s);
    OneSim(c, s, n);
    WireIsLog(s.log, s.co.c, |s.co.item|, n);
    var x := s.sims[n];
    SimTotals(c, s, n);
    forall b | 0 <= b <= c.total
      ensures DecodeInt(HeaderOf(c, b)[8..]) != 0 <==> b == c.total
    {
      HeaderRoundTrip(c.batch, c.nprobe, b == c.total, c.blank.header);
    }
    hide Off, Ord, HeaderOf, DecodeInt, ConfigOk, COk, GOk, FOk, SimsOk, RingShape;
  }

  lemma SimTotals(c: Config, s: State, n: nat)
    requires Inv(c, s) && Final(c, s) && n < |s.sims|
    ensures var x := s.sims[n]; x.batches == 0 && x.results == 0 && x.back == 0
    ensures Started(c, s.co.c, s.co.cBatch) == Done(c, s.co.f, s.co.fBatch)
  {
    Shapes(c, s);
    Finishing(c, s);
    OneSim(c, s, n);
    hide Off, Ord, Slice, HeaderOf, ConfigOk, COk, GOk, FOk, SimsOk, SemOk, RingShape, Wire;
  }

  /** Every run has a bounded length, and one that cannot be continued has ended well. */
  lemma RunsEnd(c: Config, states: seq<State>, trace: seq<Event>)
    requires ConfigOk(c) && IsRun(c, states, trace) && c.queryWindow > 0 && c.batchWindow > 0
    ensures |trace| <= Work(c, states[0])
    ensures (forall e :: !Enabled(c, states[|trace|], e)) ==> Final(c, states[|trace|])
  {
    ReachableOk(c, states, trace, |trace|);
    hide Inv, IsRun, Final, Enabled, ConfigOk, Work;
    if !Final(c, states[|trace|]) {
      var e := Progress(c, states[|trace|]);
    }
  }

  /** A run that cannot be continued has answered everything. */
  lemma MaximalRunAnswersEverything(c: Config, states: seq<State>, trace: seq<Event>, n: nat)
    requires ConfigOk(c) && IsRun(c, states, trace) && c.queryWindow > 0 && c.batchWindow > 0
    requires (forall e :: !Enabled(c, states[|trace|], e)) && n < c.fpgas
    ensures var s := states[|trace|];
      && s.toGpu == c.total * (12 * c.topk * c.batch)
      && s.co.fBatch == c.total && n < |s.sims| && |s.sims[n].headers| == c.total + 1 && s.sims[n].link == []
      && forall b | 0 <= b <= c.total ::
           s.sims[n].headers[b] == HeaderOf(c, b) && (DecodeInt(s.sims[n].headers[b][8..]) != 0 <==> b == c.total)
  {
    ReachableOk(c, states, trace, |trace|);
    RunsEnd(c, states, trace);
    AnswersReachGpu(c, states, trace, |trace|);
    hide Inv, IsRun, Enabled, ConfigOk, Work, HeaderOf, Off;
    FinalMeansAnswered(c, states[|trace|], n);
    Finishing(c, states[|trace|]);
  }

  /** Every run can be continued to a good end. */
  lemma {:induction false} CanFinish(c: Config, states: seq<State>, trace: seq<Event>)
    returns (states': seq<State>, trace': seq<Event>)
    requires ConfigOk(c) && IsRun(c, states, trace) && c.queryWindow > 0 && c.batchWindow > 0
    ensures IsRun(c, states', trace') && trace <= trace' && Final(c, states'[|trace'|])
    decreases Work(c, states[|trace|])
  {
    ReachableOk(c, states, trace, |trace|);
    var s := states[|trace|];
    hide Inv, Final, Enabled, ConfigOk, Work, Move, IsRun;
    if Final(c, s) {
      return states, trace;
    }
    var e := Progress(c, s);
    MoveFalls(c, s, e);
    RunExtends(c, states, trace, e);
    states', trace' := CanFinish(c, states + [Move(c, s, e)], trace + [e]);
  }

  lemma RunExtends(c: Config, states: seq<State>, trace: seq<Event>, e: Event)
    requires ConfigOk(c) && IsRun(c, states, trace) && Enabled(c, states[|trace|], e)
    ensures IsRun(c, states + [Move(c, states[|trace|], e)], trace + [e])
  {
    hide ConfigOk, Move, Enabled, Initial;
  }

  // ---------- A window of size zero ----------

  /** Nothing has passed the closed window. */
  ghost predicate Closed(c: Config, s: State)
    requires ConfigOk(c)
  {
    if c.batchWindow == 0 then s.co.gBatch == 0 && s.co.g.AwaitWindow? else Started(c, s.co.c, s.co.cBatch) == 0
  }

  lemma ClosedKeeps(c: Config, s: State, e: Event)
    requires Inv(c, s) && Closed(c, s) && Enabled(c, s, e) && (c.batchWindow == 0 || c.queryWindow == 0)
    ensures Closed(c, Move(c, s, e))
  {
    Shapes(c, s);
    WindowsConserved(c, s);
    assert ConfigOk(c);
    hide Inv, SemOk, ConfigOk, InStep, OutStep, InReady, OutReady, C2FReady, C2FStep, G2CStep, G2CReady, F2CReady,
        F2CStep, Started, Done;
    match e
    case RunC2F(m) => ClosedKeepsC2F(c, s, m);
    case RunG2C(m) => ClosedKeepsG2C(c, s, m);
    case RunF2C(m) => ClosedKeepsF2C(c, s, m);
    case _ =>
  }

  lemma ClosedKeepsG2C(c: Config, s: State, m: nat)
    requires ConfigOk(c) && Closed(c, s) && G2CReady(c, s, m) && (c.batchWindow == 0 ==> s.co.freeBatches == 0)
    ensures Closed(c, G2CStep(c, s, m))
  {
    hide ConfigOk, Started, Put, Ok, BatchBytes;
  }

  lemma ClosedKeepsF2C(c: Config, s: State, m: nat)
    requires ConfigOk(c) && Closed(c, s) && F2CReady(c, s, m)
    ensures Closed(c, F2CStep(c, s, m))
  {
    hide ConfigOk, Started, AnswerBytes;
  }

  lemma ClosedKeepsC2F(c: Config, s: State, m: nat)
    requires ConfigOk(c) && Closed(c, s) && C2FReady(c, s, m)
    requires c.batchWindow > 0 ==> s.co.freeQueries == 0 && (s.co.c.AwaitQuery? ==> s.co.c.q <= c.batch)
    ensures Closed(c, C2FStep(c, s, m))
  {
    OrdGrows(c, s.co.cBatch, c.batch);
    assert c.batch > 0;
    hide ConfigOk, BatchBytes, HeaderOf, BodyOf, Contents, Take, Ok, Ord, Sent;
  }

  lemma ClosedInitially(c: Config, s: State)
    requires ConfigOk(c) && Initial(c, s)
    ensures Closed(c, s)
  {
    assert Ord(c, 0, 0) == 0;
    hide ConfigOk;
  }

  lemma ClosedIsNotFinal(c: Config, s: State)
    requires Inv(c, s) && Closed(c, s) && c.total > 0
    ensures !Final(c, s)
  {
    Finishing(c, s);
    assert c.batch > 0;
    OrdOrder(c, 0, 0, c.total, 0);
    hide Inv, ConfigOk, Ord;
  }

  /** With a window of size 0 no run ever ends: the coordinator waits forever before the first query. */
  lemma {:induction false} ZeroWindowNeverEnds(c: Config, states: seq<State>, trace: seq<Event>, i: nat)
    requires ConfigOk(c) && IsRun(c, states, trace) && i < |states|
    requires (c.batchWindow == 0 || c.queryWindow == 0) && c.total > 0
    ensures Closed(c, states[i]) && !Final(c, states[i])
    decreases i
  {
    hide Inv, ConfigOk, Move, Enabled, Final, Closed, Work, Initial;
    ReachableOk(c, states, trace, i);
    if i == 0 {
      ClosedInitially(c, states[0]);
    } else {
      ZeroWindowNeverEnds(c, states, trace, i - 1);
      ReachableOk(c, states, trace, i - 1);
      ClosedKeeps(c, states[i - 1], trace[i - 1]);
    }
    ClosedIsNotFinal(c, states[i]);
  }

  /** A run that has begun can end exactly when both windows are open. */
  lemma EndsIffWindowsOpen(c: Config, states: seq<State>, trace: seq<Event>)
    requires ConfigOk(c) && IsRun(c, states, trace) && c.total > 0
    ensures c.queryWindow > 0 && c.batchWindow > 0
       <==> exists states', trace' :: IsRun(c, states', trace') && trace <= trace' && Final(c, states'[|trace'|])
  {
    hide Inv, ConfigOk, Initial, Move, Enabled, Final;
    if c.queryWindow > 0 && c.batchWindow > 0 {
      var states', trace' := CanFinish(c, states, trace);
    } else {
      forall states', trace' | IsRun(c, states', trace')
        ensures !Final(c, states'[|trace'|])
      {
        ZeroWindowNeverEnds(c, states', trace', |trace'|);
      }
    }
  }
}
