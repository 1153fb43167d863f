/** What every step of every thread of the pipeline keeps, whatever the interleaving. */
module PipelineSafety {
  import opened Bytes
  import opened Arith
  import opened Framing
  import opened Rings
  import opened PipelineModel
  import opened PipelineLocal

  // ---------- thread_G2C ----------

  function GpuRead(c: Config, g: G2C, gBatch: nat, gBuf: seq<Byte>): nat {
    Mul(gBatch, BatchBytes(c)) + (match g case AwaitWindow => 0 case ReadBatch => |gBuf| case _ => BatchBytes(c))
  }

  /** The link from the GPU holds what has been sent and not read; the buffer holds what has been read of this batch. */
  ghost predicate GOk(c: Config, gpuSent: nat, gpuLink: seq<Byte>, g: G2C, gBatch: nat, gBuf: seq<Byte>)
    requires ConfigOk(c)
  {
    && gBatch <= c.total && (!g.AwaitWindow? ==> gBatch < c.total)
    && GpuRead(c, g, gBatch, gBuf) <= gpuSent <= |c.gpu| && gpuLink == c.gpu[GpuRead(c, g, gBatch, gBuf)..gpuSent]
    && (g.ReadBatch? ==> |gBuf| <= BatchBytes(c) && gBuf == Slice(c.gpu, Mul(gBatch, BatchBytes(c)), |gBuf|))
    && (g.StoreBatch? ==> gBatch < c.total && gBuf == GpuBatch(c, gBatch))
  }

  lemma GpuKeeps(c: Config, s: State, m: nat)
    requires ConfigOk(c) && GOk(c, s.gpuSent, s.gpuLink, s.co.g, s.co.gBatch, s.co.gBuf) && Enabled(c, s, Gpu(m))
    ensures var t := Move(c, s, Gpu(m)); GOk(c, t.gpuSent, t.gpuLink, t.co.g, t.co.gBatch, t.co.gBuf)
  {
    hide Mul, GpuBatch, ConfigOk;
  }

  /** Batch b lies inside what the GPU sends. */
  lemma BatchInside(c: Config, b: nat)
    requires ConfigOk(c) && b < c.total
    ensures Mul(b + 1, BatchBytes(c)) == Mul(b, BatchBytes(c)) + BatchBytes(c) <= |c.gpu|
    ensures GpuBatch(c, b) == Slice(c.gpu, Mul(b, BatchBytes(c)), BatchBytes(c))
  {
    MulOrder(b + 1, c.total, BatchBytes(c));
  }

  lemma SliceMore(s: seq<Byte>, from: nat, k: nat, m: nat, link: seq<Byte>, end: nat)
    requires from + k + m <= end <= |s| && link == s[from + k..end]
    ensures Slice(s, from, k) + link[..m] == Slice(s, from, k + m) && link[m..] == s[from + k + m..end]
  {
  }

  lemma G2CReads(c: Config, gpuSent: nat, gpuLink: seq<Byte>, gBatch: nat, gBuf: seq<Byte>, m: nat)
    requires ConfigOk(c) && GOk(c, gpuSent, gpuLink, ReadBatch, gBatch, gBuf)
    requires |gBuf| + m <= BatchBytes(c) && m <= |gpuLink|
    ensures GOk(c, gpuSent, gpuLink[m..], ReadBatch, gBatch, gBuf + gpuLink[..m])
  {
    hide Mul, ConfigOk, BatchBytes, GpuBatch;
    SliceMore(c.gpu, Mul(gBatch, BatchBytes(c)), |gBuf|, m, gpuLink, gpuSent);
    hide Slice;
  }

  lemma G2CKeeps(c: Config, s: State, m: nat)
    requires ConfigOk(c) && GOk(c, s.gpuSent, s.gpuLink, s.co.g, s.co.gBatch, s.co.gBuf) && G2CReady(c, s, m)
    ensures var t := G2CStep(c, s, m); GOk(c, t.gpuSent, t.gpuLink, t.co.g, t.co.gBatch, t.co.gBuf)
  {
    hide Mul, Put, ConfigOk, GpuBatch, BatchBytes, Ok;
    if s.co.g.ReadBatch? && |s.co.gBuf| < BatchBytes(c) {
      G2CReads(c, s.gpuSent, s.gpuLink, s.co.gBatch, s.co.gBuf, m);
    } else if s.co.gBatch < c.total {
      BatchInside(c, s.co.gBatch);
    }
  }

  // ---------- thread_C2F ----------

  function CItem(pc: C2F): nat {
    match pc
    case NextBatch => 0
    case AwaitQuery(q) => q + 1
    case SendBody(q, _, _) => q + 2
    case _ => 1
  }

  predicate Sending(c: Config, n: nat, k: nat, size: nat) {
    n <= c.fpgas && k < size && (n == c.fpgas ==> k == 0)
  }

  predicate Suffix(item: seq<Byte>, log: seq<Byte>) {
    |item| <= |log| && item == log[|log| - |item|..]
  }

  ghost predicate COk(c: Config, log: seq<Byte>, convs: seq<seq<Byte>>, pc: C2F, cBatch: nat, conv: seq<Byte>,
                      item: seq<Byte>)
    requires ConfigOk(c)
  {
    && cBatch <= c.total && LogOk(c, log, convs, cBatch, CItem(pc))
    && |conv| == BatchBytes(c)
    && (match pc
        case NextBatch => |convs| == cBatch
        case SendHeader(n, k) => |convs| == cBatch && |item| == 64 && Suffix(item, log) && Sending(c, n, k, |item|)
        case AwaitReady => cBatch < c.total && |convs| == cBatch
        case ReadRing => cBatch < c.total && |convs| == cBatch
        case AwaitQuery(q) => cBatch < c.total && q <= c.batch && |convs| == cBatch + 1 && conv == convs[cBatch]
        case SendBody(q, n, k) =>
          cBatch < c.total && q < c.batch && |convs| == cBatch + 1 && conv == convs[cBatch]
          && |item| == BodySize(c) && Suffix(item, log) && Sending(c, n, k, |item|)
        case C2FDone => cBatch == c.total && |convs| == cBatch)
  }

  // ---------- thread_F2C_C2G ----------

  ghost predicate FOk(c: Config, f: F2C, fBatch: nat) {
    && fBatch <= c.total
    && match f
       case Receive(q, n, k) =>
         && q <= c.batch && n <= c.fpgas && k < 1344 && (n == c.fpgas ==> k == 0)
         && (q == c.batch || fBatch == c.total ==> n == 0 && k == 0) && (fBatch == c.total ==> q == 0)
       case Answer(k) => fBatch < c.total && k <= AnswerBytes(c.batch, c.topk)
  }

  /** The number of queries answered by all FPGAs. */
  function Done(c: Config, f: F2C, fBatch: nat): nat {
    Ord(c, fBatch, match f case Receive(q, _, _) => q case Answer(_) => c.batch)
  }

  function Got(c: Config, f: F2C, fBatch: nat, n: nat): nat {
    1344 * Done(c, f, fBatch)
        + (match f case Receive(_, j, k) => (if n < j then 1344 else if n == j then k else 0) case _ => 0)
  }

  // ---------- The simulators ----------

  /** Bytes of the current item not yet sent to FPGA n. */
  function Pending(pc: C2F, item: nat, n: nat): int {
    match pc
    case SendHeader(j, k) => if n < j then 0 else if n == j then item - k else item
    case SendBody(_, j, k) => if n < j then 0 else if n == j then item - k else item
    case _ => 0
  }

  /** All that has been sent to FPGA n. */
  function Wire(log: seq<Byte>, pc: C2F, item: nat, n: nat): seq<Byte> {
    var len := |log| - Pending(pc, item, n);
    if 0 <= len <= |log| then log[..len] else []
  }

  ghost predicate SimsOk(c: Config, sims: seq<Fpga>, log: seq<Byte>, pc: C2F, item: nat, f: F2C, fBatch: nat)
    requires ConfigOk(c)
  {
    && |sims| == c.fpgas
    && forall n | 0 <= n < |sims| :: SimOk(c, sims[n], Wire(log, pc, item, n), Got(c, f, fBatch, n))
  }

  // ---------- The semaphores ----------

  /** The number of queries thread_C2F has passed the query window with. */
  function Started(c: Config, pc: C2F, cBatch: nat): nat {
    Ord(c, cBatch, match pc case AwaitQuery(q) => q case SendBody(q, _, _) => q + 1 case _ => 0)
  }

  /** Free slots and what is in flight add up to the windows; batches announced and not taken are what `ready`
      counts. */
  ghost predicate SemOk(c: Config, co: Coordinator, taken: nat) {
    && co.freeBatches + co.gBatch + (if co.g.AwaitWindow? then 0 else 1) == c.batchWindow + co.fBatch
    && co.freeQueries + Started(c, co.c, co.cBatch) == c.queryWindow + Done(c, co.f, co.fBatch)
    && co.ready + taken + (if co.c.ReadRing? then 1 else 0) == co.gBatch
  }

  // ---------- The ring buffer ----------

  function Stored(co: Coordinator): nat { co.gBatch + (if co.g.PostBatch? then 1 else 0) }

  ghost predicate RingShape(c: Config, ring: Ring<seq<Byte>>) {
    && Ok(ring) && |ring.slots| == c.slots && forall x | x in Contents(ring) :: |x| == BatchBytes(c)
  }

  ghost predicate Inv(c: Config, s: State) {
    && ConfigOk(c)
    && GOk(c, s.gpuSent, s.gpuLink, s.co.g, s.co.gBatch, s.co.gBuf)
    && COk(c, s.log, s.convs, s.co.c, s.co.cBatch, s.co.conv, s.co.item)
    && FOk(c, s.co.f, s.co.fBatch)
    && SimsOk(c, s.sims, s.log, s.co.c, |s.co.item|, s.co.f, s.co.fBatch)
    && SemOk(c, s.co, |s.convs|)
    && RingShape(c, s.co.ring)
  }

  lemma InitialOk(c: Config, s: State)
    requires ConfigOk(c) && Initial(c, s)
    ensures Inv(c, s)
  {
    NothingYet(c, s.convs);
    forall n | 0 <= n < |s.sims|
      ensures SimOk(c, s.sims[n], Wire(s.log, s.co.c, |s.co.item|, n), Got(c, s.co.f, s.co.fBatch, n))
    {
      InitialSim(c, s.sims[n]);
    }
    hide Mul, SimOk, ConfigOk, LogOk;
  }

  lemma NothingYet(c: Config, convs: seq<seq<Byte>>)
    requires ConfigOk(c)
    ensures LogOk(c, [], convs, 0, 0) && Off(c, 0, 0) == 0 == Ord(c, 0, 0) && Mul(0, BatchBytes(c)) == 0
  {
    hide ConfigOk;
  }

  lemma InitialSim(c: Config, x: Fpga)
    requires ConfigOk(c) && x == Fpga([], ReadHeader, 0, [], x.size, x.need, [], 0, 0, AwaitHeader, 0, x.outSize, 0)
    ensures SimOk(c, x, [], 0)
  {
    NothingYet(c, []);
    hide ConfigOk, Off, Ord, HeaderOf, BodySize, LogOk;
    assert InOk(c, x, []);
  }

  // ---------- Sending ----------

  lemma WireGrows(log: seq<Byte>, item: seq<Byte>, k: nat, m: nat)
    requires Suffix(item, log) && k + m <= |item|
    ensures log[..|log| - |item| + k] + item[k..k + m] == log[..|log| - |item| + k + m]
  {
  }

  /** Sending m more bytes of the item to FPGA n. */
  lemma SendingKeeps(c: Config, s: State, pc': C2F, n: nat, k: nat, m: nat)
    requires ConfigOk(c) && SimsOk(c, s.sims, s.log, s.co.c, |s.co.item|, s.co.f, s.co.fBatch)
    requires n < |s.sims| && k + m <= |s.co.item| && Suffix(s.co.item, s.log)
    requires forall j: nat ::
        Pending(s.co.c, |s.co.item|, j) == if j < n then 0 else if j == n then |s.co.item| - k else |s.co.item|
    requires forall j: nat ::
        Pending(pc', |s.co.item|, j) == if j < n then 0 else if j == n then |s.co.item| - k - m else |s.co.item|
    ensures SimsOk(c, Sent(s, n, k, m), s.log, pc', |s.co.item|, s.co.f, s.co.fBatch)
  {
    hide SimOk, Got, ConfigOk;
    var item := |s.co.item|;
    WireGrows(s.log, s.co.item, k, m);
    SendKeeps(c, s.sims[n], Wire(s.log, s.co.c, item, n), Got(c, s.co.f, s.co.fBatch, n), s.co.item[k..k + m]);
    hide Suffix;
    assert Wire(s.log, pc', item, n) == Wire(s.log, s.co.c, item, n) + s.co.item[k..k + m];
    forall j: nat | j < |s.sims| && j != n
      ensures Wire(s.log, pc', item, j) == Wire(s.log, s.co.c, item, j)
    {
    }
    hide Wire;
  }

  /** Nobody's wire changes when an item is only announced, or when it has gone to everybody. */
  lemma SameWires(c: Config, s: State, log: seq<Byte>, pc: C2F, item: nat)
    requires ConfigOk(c) && SimsOk(c, s.sims, s.log, s.co.c, |s.co.item|, s.co.f, s.co.fBatch)
    requires forall n | 0 <= n < c.fpgas :: Wire(log, pc, item, n) == Wire(s.log, s.co.c, |s.co.item|, n)
    ensures SimsOk(c, s.sims, log, pc, item, s.co.f, s.co.fBatch)
  {
    hide SimOk, Got, Wire;
  }

  // ---------- Every step of thread_C2F ----------

  lemma AppendSuffix(log: seq<Byte>, item: seq<Byte>)
    ensures |log + item| - |item| == |log| && (log + item)[|log|..] == item && (log + item)[..|log|] == log
  {
  }

  /** Nothing of the current item is left to send to FPGA n. */
  lemma WireAll(log: seq<Byte>, pc: C2F, item: nat, n: nat)
    requires Pending(pc, item, n) == 0
    ensures Wire(log, pc, item, n) == log
  {
  }

  lemma WireNone(log: seq<Byte>, pc: C2F, item: seq<Byte>, n: nat)
    requires Pending(pc, |item|, n) == |item|
    ensures Wire(log + item, pc, |item|, n) == log
  {
  }

  lemma ItemSizes(c: Config, convs: seq<seq<Byte>>, b: nat, i: nat)
    requires ConfigOk(c) && i <= c.batch && (i > 0 ==> b < |convs| && |convs[b]| == BatchBytes(c))
    ensures |ItemOf(c, convs, b, i)| == ItemSize(c, i) > 0
  {
    BodyParts(c.dim, c.nprobe);
    hide HeaderOf, BodyOf;
  }

  lemma CAnnounces(c: Config, s: State, pc: C2F, item: seq<Byte>)
    requires ConfigOk(c) && COk(c, s.log, s.convs, s.co.c, s.co.cBatch, s.co.conv, s.co.item)
    requires SimsOk(c, s.sims, s.log, s.co.c, |s.co.item|, s.co.f, s.co.fBatch)
    requires s.co.c.NextBatch? || (s.co.c.AwaitQuery? && s.co.c.q < c.batch)
    requires item == ItemOf(c, s.convs, s.co.cBatch, CItem(s.co.c))
    requires pc == if s.co.c.NextBatch? then SendHeader(0, 0) else SendBody(s.co.c.q, 0, 0)
    ensures COk(c, s.log + item, s.convs, pc, s.co.cBatch, s.co.conv, item)
    ensures SimsOk(c, s.sims, s.log + item, pc, |item|, s.co.f, s.co.fBatch)
  {
    hide LogOk, SimsOk, ItemOf, ConfigOk, BatchBytes, BodySize, Wire;
    ItemSizes(c, s.convs, s.co.cBatch, CItem(s.co.c));
    LogGrows(c, s.log, s.convs, s.co.cBatch, CItem(s.co.c));
    AppendSuffix(s.log, item);
    forall n | 0 <= n < c.fpgas
      ensures Wire(s.log + item, pc, |item|, n) == Wire(s.log, s.co.c, |s.co.item|, n)
    {
      WireAll(s.log, s.co.c, |s.co.item|, n);
      WireNone(s.log, pc, item, n);
    }
    SameWires(c, s, s.log + item, pc, |item|);
  }

  lemma CSends(c: Config, s: State, m: nat)
    requires ConfigOk(c) && COk(c, s.log, s.convs, s.co.c, s.co.cBatch, s.co.conv, s.co.item)
    requires SimsOk(c, s.sims, s.log, s.co.c, |s.co.item|, s.co.f, s.co.fBatch)
    requires C2FReady(c, s, m) && (s.co.c.SendHeader? || s.co.c.SendBody?) && s.co.c.n < c.fpgas
    ensures var t := C2FStep(c, s, m);
      && COk(c, t.log, t.convs, t.co.c, t.co.cBatch, t.co.conv, t.co.item)
      && SimsOk(c, t.sims, t.log, t.co.c, |t.co.item|, t.co.f, t.co.fBatch)
  {
    hide LogOk, ConfigOk, BatchBytes, BodySize, Wire, SimOk, Got, HeaderOf, BodyOf;
    var t := C2FStep(c, s, m);
    SendingKeeps(c, s, t.co.c, s.co.c.n, s.co.c.k, m);
  }

  /** A step that neither sends nor announces anything. */
  lemma CKeepsWires(c: Config, s: State, pc: C2F)
    requires ConfigOk(c) && SimsOk(c, s.sims, s.log, s.co.c, |s.co.item|, s.co.f, s.co.fBatch)
    requires !pc.SendHeader? && !pc.SendBody?
    requires (s.co.c.SendHeader? || s.co.c.SendBody?) ==> s.co.c.n >= c.fpgas
    ensures SimsOk(c, s.sims, s.log, pc, |s.co.item|, s.co.f, s.co.fBatch)
  {
    hide SimsOk, Wire;
    forall n | 0 <= n < c.fpgas
      ensures Wire(s.log, pc, |s.co.item|, n) == Wire(s.log, s.co.c, |s.co.item|, n)
    {
      WireAll(s.log, s.co.c, |s.co.item|, n);
      WireAll(s.log, pc, |s.co.item|, n);
    }
    SameWires(c, s, s.log, pc, |s.co.item|);
  }

  /** What read_slot hands over is a batch, or the buffer stays what it was. */
  lemma ConvSize(c: Config, s: State)
    requires ConfigOk(c) && RingShape(c, s.co.ring) && |s.co.conv| == BatchBytes(c) && s.co.c.ReadRing?
    ensures C2FReady(c, s, 0) && |C2FStep(c, s, 0).co.conv| == BatchBytes(c) && RingShape(c, C2FStep(c, s, 0).co.ring)
  {
    hide ConfigOk, BatchBytes;
    ReleaseTakesOldest(s.co.ring);
    if Contents(s.co.ring) != [] {
      assert s.co.ring.slots[s.co.ring.tail] in Contents(s.co.ring);
    }
    hide Contents;
  }

  lemma CMoves(c: Config, s: State, m: nat)
    requires ConfigOk(c) && COk(c, s.log, s.convs, s.co.c, s.co.cBatch, s.co.conv, s.co.item) && C2FReady(c, s, m)
    requires s.co.c.ReadRing? ==> |C2FStep(c, s, m).co.conv| == BatchBytes(c)
    requires match s.co.c
      case NextBatch => false
      case AwaitQuery(q) => q == c.batch
      case SendHeader(n, _) => n == c.fpgas == |s.sims|
      case SendBody(_, n, _) => n == c.fpgas == |s.sims|
      case _ => true
    ensures var t := C2FStep(c, s, m); COk(c, t.log, t.convs, t.co.c, t.co.cBatch, t.co.conv, t.co.item)
  {
    hide LogOk, BatchBytes, ConfigOk, Contents, Take, BodySize, Put, HeaderOf, BodyOf, Ok;
    if s.co.c.ReadRing? {
      LogKnowsMore(c, s.log, s.convs, C2FStep(c, s, m).co.conv);
    } else if s.co.c.AwaitQuery? {
      LogNextBatch(c, s.log, s.convs, s.co.cBatch);
    }
  }

  predicate Announces(c: Config, pc: C2F) {
    pc.NextBatch? || (pc.AwaitQuery? && pc.q < c.batch)
  }

  predicate Sends(c: Config, pc: C2F) {
    (pc.SendHeader? || pc.SendBody?) && pc.n < c.fpgas
  }

  lemma C2FAnnounces(c: Config, s: State, m: nat)
    requires ConfigOk(c) && COk(c, s.log, s.convs, s.co.c, s.co.cBatch, s.co.conv, s.co.item) && RingShape(c, s.co.ring)
    requires SimsOk(c, s.sims, s.log, s.co.c, |s.co.item|, s.co.f, s.co.fBatch) && |s.sims| == c.fpgas
        && C2FReady(c, s, m)
    requires Announces(c, s.co.c)
    ensures var t := C2FStep(c, s, m);
      && COk(c, t.log, t.convs, t.co.c, t.co.cBatch, t.co.conv, t.co.item) && RingShape(c, t.co.ring)
      && SimsOk(c, t.sims, t.log, t.co.c, |t.co.item|, t.co.f, t.co.fBatch)
  {
    hide LogOk, BatchBytes, ConfigOk, Contents, Take, BodySize, Put, HeaderOf, BodyOf, Ok, RingShape, SimsOk;
    if s.co.c.NextBatch? {
      CAnnounces(c, s, SendHeader(0, 0), HeaderOf(c, s.co.cBatch));
    } else {
      CAnnounces(c, s, SendBody(s.co.c.q, 0, 0), BodyOf(c, s.co.conv, s.co.c.q));
    }
  }

  lemma C2FMoves(c: Config, s: State, m: nat)
    requires ConfigOk(c) && COk(c, s.log, s.convs, s.co.c, s.co.cBatch, s.co.conv, s.co.item) && RingShape(c, s.co.ring)
    requires SimsOk(c, s.sims, s.log, s.co.c, |s.co.item|, s.co.f, s.co.fBatch) && |s.sims| == c.fpgas
        && C2FReady(c, s, m)
    requires !Announces(c, s.co.c) && !Sends(c, s.co.c)
    ensures var t := C2FStep(c, s, m);
      && COk(c, t.log, t.convs, t.co.c, t.co.cBatch, t.co.conv, t.co.item) && RingShape(c, t.co.ring)
      && SimsOk(c, t.sims, t.log, t.co.c, |t.co.item|, t.co.f, t.co.fBatch)
  {
    hide LogOk, BatchBytes, ConfigOk, Contents, Take, BodySize, Put, HeaderOf, BodyOf, Ok, RingShape, SimsOk;
    if s.co.c.ReadRing? {
      ConvSize(c, s);
    }
    CMoves(c, s, m);
    CKeepsWires(c, s, C2FStep(c, s, m).co.c);
  }

  lemma C2FKeeps(c: Config, s: State, m: nat)
    requires ConfigOk(c) && COk(c, s.log, s.convs, s.co.c, s.co.cBatch, s.co.conv, s.co.item) && RingShape(c, s.co.ring)
    requires SimsOk(c, s.sims, s.log, s.co.c, |s.co.item|, s.co.f, s.co.fBatch) && |s.sims| == c.fpgas
        && C2FReady(c, s, m)
    ensures var t := C2FStep(c, s, m);
      && COk(c, t.log, t.convs, t.co.c, t.co.cBatch, t.co.conv, t.co.item) && RingShape(c, t.co.ring)
      && SimsOk(c, t.sims, t.log, t.co.c, |t.co.item|, t.co.f, t.co.fBatch)
  {
    hide COk, ConfigOk, RingShape, SimsOk;
    if Announces(c, s.co.c) {
      C2FAnnounces(c, s, m);
    } else if Sends(c, s.co.c) {
      CSends(c, s, m);
    } else {
      C2FMoves(c, s, m);
    }
  }

  // ---------- Every step of thread_F2C_C2G ----------

  lemma F2CReads(c: Config, s: State, m: nat)
    requires ConfigOk(c) && FOk(c, s.co.f, s.co.fBatch)
        && SimsOk(c, s.sims, s.log, s.co.c, |s.co.item|, s.co.f, s.co.fBatch)
    requires F2CReady(c, s, m) && s.co.f.Receive? && s.co.f.q < c.batch && s.co.f.n < c.fpgas
    ensures var t := F2CStep(c, s, m);
      FOk(c, t.co.f, t.co.fBatch) && SimsOk(c, t.sims, t.log, t.co.c, |t.co.item|, t.co.f, t.co.fBatch)
  {
    hide SimOk, Wire, Done, ConfigOk;
    var t := F2CStep(c, s, m);
    var n := s.co.f.n;
    ReceiveKeeps(c, s.sims[n], Wire(s.log, s.co.c, |s.co.item|, n), Got(c, s.co.f, s.co.fBatch, n), m);
    SameDone(c, s.co.f, t.co.f, s.co.fBatch);
    forall j: nat | j < c.fpgas
      ensures Got(c, t.co.f, t.co.fBatch, j) == Got(c, s.co.f, s.co.fBatch, j) + (if j == n then m else 0)
    {
    }
    hide Got;
  }

  lemma SameDone(c: Config, f: F2C, f': F2C, fBatch: nat)
    requires f.Receive? && f'.Receive? && f'.q == f.q
    ensures Done(c, f', fBatch) == Done(c, f, fBatch)
  {
  }

  lemma F2CMoves(c: Config, s: State, m: nat)
    requires ConfigOk(c) && FOk(c, s.co.f, s.co.fBatch)
        && SimsOk(c, s.sims, s.log, s.co.c, |s.co.item|, s.co.f, s.co.fBatch)
    requires F2CReady(c, s, m) && (s.co.f.Receive? ==> s.co.f.q >= c.batch || s.co.f.n >= c.fpgas)
    ensures var t := F2CStep(c, s, m);
      FOk(c, t.co.f, t.co.fBatch) && SimsOk(c, t.sims, t.log, t.co.c, |t.co.item|, t.co.f, t.co.fBatch)
  {
    hide SimOk, Wire, ConfigOk, Ord, AnswerBytes;
    var t := F2CStep(c, s, m);
    OrdWrap(c, s.co.fBatch);
    OrdStep(c, s.co.fBatch);
    forall j: nat | j < c.fpgas
      ensures Got(c, t.co.f, t.co.fBatch, j) == Got(c, s.co.f, s.co.fBatch, j)
    {
    }
    hide Got;
  }

  // ---------- Every step of a simulator ----------

  lemma SimKeeps(c: Config, s: State, n: nat, x: Fpga)
    requires ConfigOk(c) && SimsOk(c, s.sims, s.log, s.co.c, |s.co.item|, s.co.f, s.co.fBatch)
    requires n < |s.sims| && SimOk(c, x, Wire(s.log, s.co.c, |s.co.item|, n), Got(c, s.co.f, s.co.fBatch, n))
    ensures SimsOk(c, s.sims[n := x], s.log, s.co.c, |s.co.item|, s.co.f, s.co.fBatch)
  {
    hide SimOk, Wire, Got, ConfigOk;
  }

  lemma WireIsPrefix(log: seq<Byte>, pc: C2F, item: nat, n: nat)
    ensures Wire(log, pc, item, n) <= log
  {
  }

  lemma RunInKeeps(c: Config, s: State, n: nat, m: nat)
    requires ConfigOk(c) && COk(c, s.log, s.convs, s.co.c, s.co.cBatch, s.co.conv, s.co.item)
    requires SimsOk(c, s.sims, s.log, s.co.c, |s.co.item|, s.co.f, s.co.fBatch) && n < |s.sims| && InReady(s.sims[n], m)
    ensures SimsOk(c, s.sims[n := InStep(c, s.sims[n], m)], s.log, s.co.c, |s.co.item|, s.co.f, s.co.fBatch)
  {
    hide SimOk, Wire, Got, ConfigOk, LogOk, InStep, InReady;
    WireIsPrefix(s.log, s.co.c, |s.co.item|, n);
    InKeeps(c, s.sims[n], Wire(s.log, s.co.c, |s.co.item|, n), Got(c, s.co.f, s.co.fBatch, n), m,
            s.log, s.convs, s.co.cBatch, CItem(s.co.c));
    SimKeeps(c, s, n, InStep(c, s.sims[n], m));
  }

  lemma RunOutKeeps(c: Config, s: State, n: nat, m: nat)
    requires ConfigOk(c) && SimsOk(c, s.sims, s.log, s.co.c, |s.co.item|, s.co.f, s.co.fBatch) && n < |s.sims|
        && OutReady(s.sims[n], m)
    ensures SimsOk(c, s.sims[n := OutStep(s.sims[n], m)], s.log, s.co.c, |s.co.item|, s.co.f, s.co.fBatch)
  {
    hide SimOk, Wire, Got, ConfigOk, OutStep, OutReady;
    OutKeeps(c, s.sims[n], Wire(s.log, s.co.c, |s.co.item|, n), Got(c, s.co.f, s.co.fBatch, n), m);
    SimKeeps(c, s, n, OutStep(s.sims[n], m));
  }

  // ---------- Semaphores and ring ----------

  lemma SemKeepsC2F(c: Config, s: State, m: nat)
    requires ConfigOk(c) && SemOk(c, s.co, |s.convs|) && |s.sims| == c.fpgas && C2FReady(c, s, m)
    requires s.co.c.AwaitQuery? ==> s.co.c.q <= c.batch
    ensures SemOk(c, C2FStep(c, s, m).co, |C2FStep(c, s, m).convs|)
  {
    OrdWrap(c, s.co.cBatch);
    OrdStep(c, s.co.cBatch);
    hide Ord, ConfigOk, HeaderOf, BodyOf, Contents, Take, BatchBytes, Amount, Ok, Done;
  }

  lemma SemKeepsF2C(c: Config, s: State, m: nat)
    requires ConfigOk(c) && SemOk(c, s.co, |s.convs|) && FOk(c, s.co.f, s.co.fBatch) && |s.sims| == c.fpgas
        && F2CReady(c, s, m)
    ensures SemOk(c, F2CStep(c, s, m).co, |F2CStep(c, s, m).convs|)
  {
    OrdWrap(c, s.co.fBatch);
    OrdStep(c, s.co.fBatch);
    hide Ord, ConfigOk, AnswerBytes, Amount, Started;
  }

  lemma SemKeeps(c: Config, s: State, e: Event)
    requires ConfigOk(c) && SemOk(c, s.co, |s.convs|) && FOk(c, s.co.f, s.co.fBatch) && |s.sims| == c.fpgas
        && Enabled(c, s, e)
    requires s.co.c.AwaitQuery? ==> s.co.c.q <= c.batch
    ensures SemOk(c, Move(c, s, e).co, |Move(c, s, e).convs|)
  {
    hide ConfigOk, Started, Done, C2FStep, C2FReady, F2CStep, F2CReady, FOk, InStep, OutStep, InReady, OutReady,
        BatchBytes, Put, Ok;
    match e
    case RunC2F(m) => SemKeepsC2F(c, s, m);
    case RunF2C(m) => SemKeepsF2C(c, s, m);
    case _ =>
  }

  lemma RingKeeps(c: Config, s: State, m: nat)
    requires ConfigOk(c) && RingShape(c, s.co.ring) && GOk(c, s.gpuSent, s.gpuLink, s.co.g, s.co.gBatch, s.co.gBuf)
        && G2CReady(c, s, m)
    ensures RingShape(c, G2CStep(c, s, m).co.ring)
  {
    hide ConfigOk, BatchBytes, Mul, GpuBatch;
    if s.co.g.StoreBatch? {
      WriteAppends(s.co.ring, s.co.gBuf);
    }
    hide Contents;
  }

  /** Whatever happens next, the invariant holds afterwards. */
  lemma MoveKeeps(c: Config, s: State, e: Event)
    requires Inv(c, s) && Enabled(c, s, e)
    ensures Inv(c, Move(c, s, e))
  {
    hide LogOk, SimsOk, ConfigOk, GOk, RingShape, SemOk, HeaderOf, BodyOf, Contents, Put, Take, InStep, OutStep,
        InReady, OutReady;
    hide BatchBytes, AnswerBytes, Amount, Ok;
    SimCount(c, s);
    SemKeeps(c, s, e);
    match e
    case Gpu(m) => GpuKeeps(c, s, m);
    case RunG2C(m) => G2CKeeps(c, s, m); RingKeeps(c, s, m);
    case RunC2F(m) => C2FKeeps(c, s, m);
    case RunF2C(m) =>
      if s.co.f.Receive? && s.co.f.q < c.batch && s.co.f.n < c.fpgas { F2CReads(c, s, m); } else { F2CMoves(c, s, m); }
    case RunIn(n, m) => RunInKeeps(c, s, n, m);
    case RunOut(n, m) => RunOutKeeps(c, s, n, m);
  }

  lemma SimCount(c: Config, s: State)
    requires Inv(c, s)
    ensures |s.sims| == c.fpgas
  {
  }
}
