/** No thread of the pipeline is ever more than a window ahead, and some thread can always go on. */
module PipelineProgress {
  import opened Bytes
  import opened Arith
  import opened Framing
  import opened Rings
  import opened PipelineModel
  import opened PipelineLocal
  import opened PipelineSafety

  // ---------- Who is ahead of whom ----------

  function Queries(i: nat): nat { if i == 0 then 0 else i - 1 }

  /** A position further on in the stream has no fewer queries before it. */
  lemma FurtherHasMore(c: Config, b: nat, i: nat, b': nat, i': nat)
    requires ConfigOk(c) && i <= c.batch + 1 && i' <= c.batch + 1 && Off(c, b', i') <= Off(c, b, i)
    ensures Ord(c, b', Queries(i')) <= Ord(c, b, Queries(i))
  {
    BodyParts(c.dim, c.nprobe);
    hide Off, Ord, ConfigOk, BodySize;
    if b' < b || (b' == b && i' <= i) {
      OrdOrder(c, b', Queries(i'), b, Queries(i));
    } else if i <= c.batch {
      OffOrder(c, b, i, b', i');
      PositiveSize(c, i);
      assert false;
    } else {
      OffWrap(c, b);
      OrdWrap(c, b);
      if b' > b + 1 || i' > 0 {
        PositiveSize(c, 0);
        OffOrder(c, b + 1, 0, b', i');
      }
    }
  }

  lemma PositiveSize(c: Config, i: nat)
    requires ConfigOk(c)
    ensures ItemSize(c, i) > 0
  {
    BodyParts(c.dim, c.nprobe);
  }

  lemma StartedAtItem(c: Config, pc: C2F, cBatch: nat)
    ensures Started(c, pc, cBatch) == Ord(c, cBatch, Queries(CItem(pc)))
  {
  }

  lemma BodiesAtItem(c: Config, x: Fpga)
    ensures InBodies(c, x) == Ord(c, x.inBatch, Queries(InItem(x)))
  {
  }

  ghost predicate SimAt(c: Config, s: State, n: nat)
    requires ConfigOk(c)
  {
    n < |s.sims| && SimOk(c, s.sims[n], Wire(s.log, s.co.c, |s.co.item|, n), Got(c, s.co.f, s.co.fBatch, n))
  }

  lemma OneSim(c: Config, s: State, n: nat)
    requires Inv(c, s) && n < c.fpgas
    ensures SimAt(c, s, n)
  {
    hide SimOk, Wire, Got, ConfigOk, COk, GOk, FOk, SemOk;
  }

  lemma Position(c: Config, s: State)
    requires Inv(c, s)
    ensures |s.log| == Off(c, s.co.cBatch, CItem(s.co.c)) && CItem(s.co.c) <= c.batch + 1
  {
    hide ConfigOk, GOk, FOk, SemOk, SimsOk, BatchBytes, BodySize, Off, ItemOf, Slice;
  }

  /** What the coordinator has got back, the simulator has sent, has received, and the coordinator has let pass the
      window. */
  lemma SimOrder(c: Config, s: State, n: nat)
    requires ConfigOk(c) && SimAt(c, s, n)
    requires |s.log| == Off(c, s.co.cBatch, CItem(s.co.c)) && CItem(s.co.c) <= c.batch + 1
    ensures Done(c, s.co.f, s.co.fBatch) <= OutTaken(c, s.sims[n]) <= InBodies(c, s.sims[n])
        <= Started(c, s.co.c, s.co.cBatch)
  {
    var x := s.sims[n];
    WireIsPrefix(s.log, s.co.c, |s.co.item|, n);
    hide Off, Ord, ConfigOk, HeaderOf, Slice, Wire, BodySize;
    StartedAtItem(c, s.co.c, s.co.cBatch);
    BodiesAtItem(c, x);
    FurtherHasMore(c, s.co.cBatch, CItem(s.co.c), x.inBatch, InItem(x));
  }

  lemma BatchOrder(c: Config, f: nat, fq: nat, b: nat, q: nat)
    requires ConfigOk(c) && Ord(c, f, fq) <= Ord(c, b, q) && q <= c.batch
    ensures f <= b || (f == b + 1 && q == c.batch)
  {
    assert c.batch > 0;
    hide Ord, ConfigOk;
    if f > b {
      OrdOrder(c, f, 0, f, fq);
      if f > b + 1 {
        OrdOrder(c, b, q, b + 1, 0);
        OrdOrder(c, b + 1, 0, f, 0);
      } else {
        OrdOrder(c, b, q, f, 0);
      }
    }
  }

  lemma OrdGrows(c: Config, b: nat, q: nat)
    ensures Ord(c, b, q) == Ord(c, b, 0) + q
  {
  }

  lemma Shapes(c: Config, s: State)
    requires Inv(c, s)
    ensures |s.sims| == c.fpgas > 0 && SemOk(c, s.co, |s.convs|) && s.co.gBatch <= c.total
    ensures s.co.c.AwaitQuery? || s.co.c.SendBody? ==> |s.convs| == s.co.cBatch + 1
    ensures !s.co.c.AwaitQuery? && !s.co.c.SendBody? ==> |s.convs| == s.co.cBatch
    ensures s.co.c.AwaitQuery? ==> s.co.c.q <= c.batch
    ensures s.co.c.SendBody? ==> s.co.c.q < c.batch
    ensures s.co.f.Receive? ==> s.co.f.q <= c.batch
  {
    hide LogOk, SemOk, BatchBytes, BodySize, Suffix, Mul, Slice;
    assert 0 < c.fpgas;
  }

  /** The order of the whole pipeline: answered <= let through the window, and no batch is answered before it was
      taken. */
  lemma Order(c: Config, s: State)
    requires Inv(c, s)
    ensures Done(c, s.co.f, s.co.fBatch) <= Started(c, s.co.c, s.co.cBatch)
    ensures s.co.fBatch <= |s.convs| <= s.co.gBatch <= c.total
  {
    Shapes(c, s);
    OneSim(c, s, 0);
    Position(c, s);
    SimOrder(c, s, 0);
    hide SimAt, Off, SimsOk, COk, GOk, FOk, RingShape, Ord, OutTaken, InBodies, ConfigOk;
    BatchOrder(c, s.co.fBatch, match s.co.f case Receive(q, _, _) => q case Answer(_) => c.batch, s.co.cBatch,
               match s.co.c case AwaitQuery(q) => q case SendBody(q, _, _) => q + 1 case _ => 0);
  }

  /** Free slots plus what is in flight are the window, and what is in flight is never more than the window. */
  lemma WindowsConserved(c: Config, s: State)
    requires Inv(c, s)
    ensures var inFlight := Started(c, s.co.c, s.co.cBatch) - Done(c, s.co.f, s.co.fBatch);
      0 <= inFlight <= c.queryWindow && s.co.freeQueries + inFlight == c.queryWindow
    ensures var inFlight := s.co.gBatch + (if s.co.g.AwaitWindow? then 0 else 1) - s.co.fBatch;
      0 <= inFlight <= c.batchWindow && s.co.freeBatches + inFlight == c.batchWindow
  {
    Order(c, s);
    hide SimsOk, COk, GOk, FOk, ConfigOk;
  }

  // ---------- When a thread cannot go on ----------

  lemma G2CBlocked(c: Config, s: State)
    requires Inv(c, s) && !Enabled(c, s, Gpu(1)) && !Enabled(c, s, RunG2C(1))
    ensures s.co.g.AwaitWindow? && (s.co.gBatch == c.total || s.co.freeBatches == 0)
  {
    if s.co.gBatch < c.total {
      BatchInside(c, s.co.gBatch);
    }
    hide Mul, ConfigOk, BatchBytes, GpuBatch, Slice, Contents, SimsOk, COk, FOk, SemOk;
  }

  lemma C2FBlocked(c: Config, s: State)
    requires Inv(c, s) && !Enabled(c, s, RunC2F(1))
    ensures s.co.c.C2FDone? || (s.co.c.AwaitReady? && s.co.ready == 0)
         || (s.co.c.AwaitQuery? && s.co.c.q < c.batch && s.co.freeQueries == 0)
  {
    hide ConfigOk, BatchBytes, LogOk, SimsOk, GOk, FOk, SemOk, BodySize, Contents, Suffix;
    SimCount(c, s);
  }

  lemma F2CBlocked(c: Config, s: State)
    requires Inv(c, s) && !Enabled(c, s, RunF2C(1))
    ensures s.co.fBatch <= c.total
    ensures s.co.fBatch == c.total
         || (s.co.f.Receive? && s.co.f.q < c.batch && s.co.f.n < c.fpgas == |s.sims| && s.sims[s.co.f.n].back == 0
             && s.co.f.k < 1344)
  {
    SimCount(c, s);
    hide ConfigOk, GOk, COk, SemOk, SimsOk, RingShape, AnswerBytes;
  }

  /** A simulator that cannot receive has received everything, and has not half an item left to wait for. */
  lemma InBlocked(c: Config, x: Fpga, wire: seq<Byte>, log: seq<Byte>, b: nat, i: nat)
    requires ConfigOk(c) && InOk(c, x, wire) && wire == log && |log| == Off(c, b, i) && !InReady(x, 1)
    ensures x.input.InDone?
        || (!Before(x.inBatch, InItem(x), b, i) && InItem(x) <= c.batch && (x.input.ReadBody? ==> x.inBatch < c.total))
  {
    hide Off, Slice, HeaderOf, ConfigOk;
    if !x.input.InDone? && Before(x.inBatch, InItem(x), b, i) {
      OffOrder(c, x.inBatch, InItem(x), b, i);
    }
  }

  lemma OutBlocked(c: Config, x: Fpga, wire: seq<Byte>)
    requires ConfigOk(c) && InOk(c, x, wire) && OutOk(c, x) && !OutReady(x, 1)
    ensures x.output.OutDone? || (x.output.AwaitHeader? && x.batches == 0)
        || (x.output.AwaitResult? && x.output.q < c.batch && x.results == 0)
  {
    hide Off, Slice, Ord;
  }

  /** A simulator whose two threads are stuck, with nothing more coming, has answered every query it was given. */
  lemma Starved(c: Config, x: Fpga, wire: seq<Byte>, got: nat, log: seq<Byte>, b: nat, i: nat)
    requires ConfigOk(c) && SimOk(c, x, wire, got) && wire == log && |log| == Off(c, b, i) && i <= c.batch + 1
    requires !InReady(x, 1) && !OutReady(x, 1)
    ensures x.input.InDone? ==> x.output.OutDone? && OutSent(c, x) == Ord(c, c.total, 0)
    ensures !x.input.InDone? ==> !x.output.OutDone? && !Before(x.inBatch, InItem(x), b, i)
    ensures !x.input.InDone? ==> OutSent(c, x) >= Ord(c, b, Queries(i)) && OutBytes(c, x) == 1344 * OutSent(c, x)
  {
    InBlocked(c, x, wire, log, b, i);
    OutBlocked(c, x, wire);
    hide Off, Slice, HeaderOf, ConfigOk, InReady, OutReady;
    BodiesAtItem(c, x);
    if x.input.InDone? {
      if x.output.AwaitResult? {
        OrdOrder(c, x.outBatch, x.output.q, c.total, 0);
      }
    } else {
      OrdOrder(c, b, Queries(i), x.inBatch, Queries(InItem(x)));
      OrdOrder(c, x.inBatch, Queries(InItem(x)), x.inBatch + 1, 0);
    }
  }

  // ---------- Somebody can always go on ----------

  /** Everything that was started has been sent: nobody waits for bytes the coordinator still holds. */
  lemma WireIsLog(log: seq<Byte>, pc: C2F, item: nat, n: nat)
    requires !pc.SendHeader? && !pc.SendBody?
    ensures Wire(log, pc, item, n) == log
  {
    WireAll(log, pc, item, n);
  }

  /** If thread_F2C_C2G waits for FPGA n in vain, every query let through the window has been answered. */
  lemma WaitingForSim(c: Config, s: State, n: nat)
    requires Inv(c, s) && n < |s.sims| && s.co.f.Receive? && s.co.f.n == n && s.co.f.k < 1344 && s.sims[n].back == 0
    requires s.co.f.q < c.batch && s.co.fBatch < c.total
    requires !s.co.c.SendHeader? && !s.co.c.SendBody? && !InReady(s.sims[n], 1) && !OutReady(s.sims[n], 1)
    ensures Done(c, s.co.f, s.co.fBatch) >= Started(c, s.co.c, s.co.cBatch)
  {
    Shapes(c, s);
    OneSim(c, s, n);
    Position(c, s);
    WireIsLog(s.log, s.co.c, |s.co.item|, n);
    StartedAtItem(c, s.co.c, s.co.cBatch);
    hide COk, GOk, FOk, SemOk, SimsOk, RingShape, Off, InReady, OutReady, Ord, Started, ConfigOk;
    Starved(c, s.sims[n], s.log, Got(c, s.co.f, s.co.fBatch, n), s.log, s.co.cBatch, CItem(s.co.c));
    if s.sims[n].input.InDone? {
      OrdOrder(c, s.co.fBatch, s.co.f.q, c.total, 0);
    }
  }

  /** If every query let through has been answered, and the windows are open, only the end of the run stops the
      coordinator. */
  lemma NothingInFlight(c: Config, s: State)
    requires Inv(c, s) && c.queryWindow > 0 && c.batchWindow > 0 && s.co.f.Receive? && s.co.f.q < c.batch
    requires Done(c, s.co.f, s.co.fBatch) >= Started(c, s.co.c, s.co.cBatch)
    requires !Enabled(c, s, Gpu(1)) && !Enabled(c, s, RunG2C(1)) && !Enabled(c, s, RunC2F(1))
    ensures s.co.c.C2FDone? && s.co.gBatch == c.total && s.co.g.AwaitWindow? && s.co.cBatch == c.total
        && s.co.fBatch == c.total
  {
    G2CBlocked(c, s);
    C2FBlocked(c, s);
    Shapes(c, s);
    Finishing(c, s);
    hide Enabled, Inv, GOk, COk, FOk, SimsOk, RingShape, Started, Done, ConfigOk;
    if s.co.c.AwaitReady? || s.co.c.C2FDone? {
      AnsweredBatches(c, s);
    }
  }

  lemma Finishing(c: Config, s: State)
    requires Inv(c, s)
    ensures s.co.c.C2FDone? ==> s.co.cBatch == c.total
    ensures s.co.c.AwaitReady? ==> s.co.cBatch < c.total
    ensures s.co.fBatch <= c.total && (s.co.fBatch == c.total ==> s.co.f == Receive(0, 0, 0))
    ensures !s.co.g.AwaitWindow? ==> s.co.gBatch < c.total
  {
    hide LogOk, SemOk, SimsOk, BatchBytes, BodySize, Suffix, Mul, Slice, ConfigOk;
  }

  lemma AnsweredBatches(c: Config, s: State)
    requires Inv(c, s) && (s.co.c.AwaitReady? || s.co.c.C2FDone?) && s.co.f.Receive? && s.co.f.q < c.batch
    requires Done(c, s.co.f, s.co.fBatch) >= Started(c, s.co.c, s.co.cBatch)
    ensures s.co.fBatch >= s.co.cBatch
  {
    hide GOk, COk, SemOk, SimsOk, RingShape, Ord, FOk, ConfigOk;
    BatchOrder(c, s.co.cBatch, 0, s.co.fBatch, s.co.f.q);
  }

  /** As long as the run is not over, some thread can take a step. */
  lemma Progress(c: Config, s: State) returns (e: Event)
    requires Inv(c, s) && c.queryWindow > 0 && c.batchWindow > 0 && !Final(c, s)
    ensures Enabled(c, s, e)
  {
    hide Inv, ConfigOk, Final;
    if Enabled(c, s, Gpu(1)) { return Gpu(1); }
    if Enabled(c, s, RunG2C(1)) { return RunG2C(1); }
    if Enabled(c, s, RunC2F(1)) { return RunC2F(1); }
    if Enabled(c, s, RunF2C(1)) { return RunF2C(1); }
    F2CBlocked(c, s);
    C2FBlocked(c, s);
    if s.co.fBatch < c.total {
      var n := s.co.f.n;
      if InReady(s.sims[n], 1) { return RunIn(n, 1); }
      if OutReady(s.sims[n], 1) { return RunOut(n, 1); }
      WaitingForSim(c, s, n);
      NothingInFlight(c, s);
    } else {
      e := FinishSims(c, s);
    }
  }

  /** All batches are answered: the coordinator is done, and so is every simulator that cannot go on. */
  lemma FinishSims(c: Config, s: State) returns (e: Event)
    requires Inv(c, s) && c.queryWindow > 0 && c.batchWindow > 0 && !Final(c, s) && s.co.fBatch == c.total
    requires !Enabled(c, s, Gpu(1)) && !Enabled(c, s, RunG2C(1)) && !Enabled(c, s, RunC2F(1))
    ensures Enabled(c, s, e)
  {
    AllAnswered(c, s);
    Finishing(c, s);
    assert c.batch > 0;
    NothingInFlight(c, s);
    var n: nat :| n < |s.sims| && !(s.sims[n].input == InDone && s.sims[n].output == OutDone);
    if InReady(s.sims[n], 1) { return RunIn(n, 1); }
    if OutReady(s.sims[n], 1) { return RunOut(n, 1); }
    SimFinished(c, s, n);
  }

  lemma AllAnswered(c: Config, s: State)
    requires Inv(c, s) && s.co.fBatch == c.total
    ensures Done(c, s.co.f, s.co.fBatch) >= Started(c, s.co.c, s.co.cBatch)
  {
    Finishing(c, s);
    CBounds(c, s);
  }

  lemma CBounds(c: Config, s: State)
    requires Inv(c, s)
    ensures Started(c, s.co.c, s.co.cBatch) <= Ord(c, c.total, 0)
  {
    var q := match s.co.c case AwaitQuery(q) => q case SendBody(q, _, _) => q + 1 case _ => 0;
    assert q <= c.batch && (q > 0 ==> s.co.cBatch < c.total) && s.co.cBatch <= c.total by {
      hide LogOk, SemOk, SimsOk, BatchBytes, BodySize, Suffix, Mul, Slice, ConfigOk;
    }
    hide Ord, Inv;
    OrdOrder(c, s.co.cBatch, q, c.total, 0);
  }

  lemma SimFinished(c: Config, s: State, n: nat)
    requires Inv(c, s) && n < |s.sims| && s.co.c.C2FDone? && s.co.cBatch == c.total && !InReady(s.sims[n], 1)
        && !OutReady(s.sims[n], 1)
    ensures s.sims[n].input == InDone && s.sims[n].output == OutDone
  {
    Shapes(c, s);
    OneSim(c, s, n);
    Position(c, s);
    WireIsLog(s.log, s.co.c, |s.co.item|, n);
    hide COk, GOk, FOk, SemOk, SimsOk, RingShape, Off, InReady, OutReady, Ord, ConfigOk;
    var x := s.sims[n];
    Starved(c, x, s.log, Got(c, s.co.f, s.co.fBatch, n), s.log, c.total, 1);
    InBlocked(c, x, s.log, s.log, c.total, 1);
    assert x.inBatch <= c.total;
  }
}
