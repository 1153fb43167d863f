/** The coordinator of CPU_programs/CPU_cooridnator_for_GPU_FPGA.cpp and any number of FPGA simulators
    (CPU_programs/FPGA_simulator.cpp) as one transition system: three coordinator threads and two threads per FPGA,
    interleaved arbitrarily, over unbounded FIFO links whose sends and reads move any positive number of bytes. */
module PipelineModel {
  import opened Bytes
  import opened Arith
  import opened Framing
  import opened Rings

  /** total: total_batch_num; batch: batch_size; gpu: all the bytes the GPU will send. */
  datatype Config = Config(
    total: nat, batch: nat, nprobe: nat, dim: nat, simDim: nat, topk: nat,
    queryWindow: nat, batchWindow: nat, fpgas: nat, slots: nat,
    gpu: seq<Byte>, blank: Blank)

  function BatchBytes(c: Config): nat { GpuBatchBytes(c.batch, c.dim, c.nprobe) }

  function BodySize(c: Config): nat { BodyBytes(c.dim, c.nprobe) }

  /** What the two programs need to be started with; the numbers are MAX_C2F_BUF_SIZE and MAX_BATCH_NUM. */
  predicate ConfigOk(c: Config) {
    && 0 < c.batch < TWO_31 && c.nprobe < TWO_31 && c.dim > 0 && c.fpgas > 0 && c.slots > 0
    && |c.gpu| == Mul(c.total, BatchBytes(c)) && BlankOk(c.blank, c.batch, c.dim, c.nprobe)
    && BodyBytes(c.simDim, c.nprobe) == BodySize(c) <= 10_000_000 && c.total + 1 <= 1_000_000
  }

  /** The b-th batch of the GPU. */
  function GpuBatch(c: Config, b: nat): (r: seq<Byte>)
    requires ConfigOk(c) && b < c.total
    ensures |r| == BatchBytes(c)
  {
    MulOrder(b + 1, c.total, BatchBytes(c));
    c.gpu[Mul(b, BatchBytes(c))..Mul(b + 1, BatchBytes(c))]
  }

  function HeaderOf(c: Config, b: nat): (r: seq<Byte>)
    requires ConfigOk(c)
    ensures |r| == 64
  {
    Header(c.batch, c.nprobe, b == c.total, c.blank.header)
  }

  function BodyOf(c: Config, conv: seq<Byte>, q: nat): (r: seq<Byte>)
    requires ConfigOk(c) && q < c.batch && |conv| == BatchBytes(c)
    ensures |r| == BodySize(c)
  {
    Body(c.blank, c.batch, c.dim, c.nprobe, conv, q)
  }

  // ---------- The state ----------

  /** thread_G2C: sem_wait, the read loop, write_slot, sem_post. */
  datatype G2C = AwaitWindow | ReadBatch | StoreBatch | PostBatch

  /** thread_C2F. Position (n, k): k bytes of the current item have gone to FPGA n, all of it to those before. */
  datatype C2F = NextBatch | SendHeader(n: nat, k: nat) | AwaitReady | ReadRing | AwaitQuery(q: nat)
    | SendBody(q: nat, n: nat, k: nat) | C2FDone

  /** thread_F2C_C2G: k bytes of the answer to query q have come from FPGA n; or k bytes have gone to the GPU. */
  datatype F2C = Receive(q: nat, n: nat, k: nat) | Answer(k: nat)

  datatype Coordinator = Coordinator(
    g: G2C, gBatch: nat, gBuf: seq<Byte>, ring: Ring<seq<Byte>>,
    freeBatches: nat, ready: nat, freeQueries: nat,
    c: C2F, cBatch: nat, conv: seq<Byte>, item: seq<Byte>,
    f: F2C, fBatch: nat)

  datatype SimIn = ReadHeader | ReadBody(q: nat) | InDone

  datatype SimOut = AwaitHeader | AwaitResult(q: nat) | SendResult(q: nat, k: nat) | OutDone

  /** One FPGA simulator: link and back are the bytes in flight from and to the coordinator; the content of an answer
      is the same uninitialised buffer each time, so only its length is kept. */
  datatype Fpga = Fpga(
    link: seq<Byte>, input: SimIn, inBatch: nat, inBuf: seq<Byte>, size: int, need: nat, headers: seq<seq<Byte>>,
    batches: nat, results: nat,
    output: SimOut, outBatch: nat, outSize: int, back: nat)

  /** gpuSent: bytes the GPU has sent; log: everything thread_C2F has started to send; convs: what each batch was read
      as; toGpu: the bytes of answers that have gone to the GPU. The last three are history. */
  datatype State = State(gpuSent: nat, gpuLink: seq<Byte>, co: Coordinator, sims: seq<Fpga>, log: seq<Byte>,
                         convs: seq<seq<Byte>>, toGpu: nat)

  /** Whose turn it is, and how many bytes a send or read moves if that is what comes next. */
  datatype Event = Gpu(m: nat) | RunG2C(m: nat) | RunC2F(m: nat) | RunF2C(m: nat) | RunIn(n: nat, m: nat)
      | RunOut(n: nat, m: nat)

  /** A send or read call moves between 1 byte and as much as was asked for: what is left of the item, at most one
      package. */
  predicate Amount(m: nat, left: int, package: nat) {
    1 <= m <= left && m <= package
  }

  // ---------- The coordinator's threads ----------

  predicate G2CReady(c: Config, s: State, m: nat) {
    match s.co.g
    case AwaitWindow => s.co.gBatch < c.total && s.co.freeBatches > 0
    case ReadBatch => |s.co.gBuf| >= BatchBytes(c) || (Amount(m, BatchBytes(c) - |s.co.gBuf|, 4096) && m <= |s.gpuLink|)
    case StoreBatch => Ok(s.co.ring)
    case PostBatch => true
  }

  function G2CStep(c: Config, s: State, m: nat): State
    requires G2CReady(c, s, m)
  {
    var co := s.co;
    match co.g
    case AwaitWindow => s.(co := co.(freeBatches := co.freeBatches - 1, g := ReadBatch, gBuf := []))
    case ReadBatch =>
      if |co.gBuf| >= BatchBytes(c) then s.(co := co.(g := StoreBatch))
      else s.(co := co.(gBuf := co.gBuf + s.gpuLink[..m]), gpuLink := s.gpuLink[m..])
    case StoreBatch => s.(co := co.(ring := Put(co.ring, co.gBuf), g := PostBatch))
    case PostBatch => s.(co := co.(ready := co.ready + 1, gBatch := co.gBatch + 1, g := AwaitWindow))
  }

  predicate C2FReady(c: Config, s: State, m: nat) {
    match s.co.c
    case NextBatch => true
    case SendHeader(n, k) => n >= |s.sims| || (k <= |s.co.item| && Amount(m, |s.co.item| - k, 4096))
    case AwaitReady => s.co.ready > 0
    case ReadRing => Ok(s.co.ring)
    case AwaitQuery(q) => q >= c.batch || (s.co.freeQueries > 0 && |s.co.conv| == BatchBytes(c))
    case SendBody(q, n, k) => n >= |s.sims| || (k <= |s.co.item| && Amount(m, |s.co.item| - k, 4096))
    case C2FDone => false
  }

  /** m more bytes of the item go to FPGA n. */
  function Sent(s: State, n: nat, k: nat, m: nat): seq<Fpga>
    requires n < |s.sims| && k + m <= |s.co.item|
  {
    s.sims[n := s.sims[n].(link := s.sims[n].link + s.co.item[k..k + m])]
  }

  function C2FStep(c: Config, s: State, m: nat): State
    requires ConfigOk(c) && C2FReady(c, s, m)
  {
    var co := s.co;
    match co.c
    case NextBatch =>
      s.(co := co.(item := HeaderOf(c, co.cBatch), c := SendHeader(0, 0)), log := s.log + HeaderOf(c, co.cBatch))
    case SendHeader(n, k) =>
      if n >= |s.sims| then s.(co := co.(c := if co.cBatch == c.total then C2FDone else AwaitReady))
      else s.(co := co.(c := if k + m == |co.item| then SendHeader(n + 1, 0) else SendHeader(n, k + m)),
              sims := Sent(s, n, k, m))
    case AwaitReady => s.(co := co.(ready := co.ready - 1, c := ReadRing))
    case ReadRing =>
      var conv := if Contents(co.ring) == [] then co.conv else co.ring.slots[co.ring.tail];
      s.(co := co.(conv := conv, ring := Take(co.ring), c := AwaitQuery(0)), convs := s.convs + [conv])
    case AwaitQuery(q) =>
      if q >= c.batch then s.(co := co.(cBatch := co.cBatch + 1, c := NextBatch))
      else s.(co := co.(freeQueries := co.freeQueries - 1, item := BodyOf(c, co.conv, q), c := SendBody(q, 0, 0)),
              log := s.log + BodyOf(c, co.conv, q))
    case SendBody(q, n, k) =>
      if n >= |s.sims| then s.(co := co.(c := AwaitQuery(q + 1)))
      else s.(co := co.(c := if k + m == |co.item| then SendBody(q, n + 1, 0) else SendBody(q, n, k + m)),
              sims := Sent(s, n, k, m))
  }

  predicate F2CReady(c: Config, s: State, m: nat) {
    s.co.fBatch < c.total &&
    match s.co.f
    case Receive(q, n, k) =>
      q >= c.batch || n >= |s.sims| || (Amount(m, ResultBytes() - k, 1024) && m <= s.sims[n].back)
    case Answer(k) => k >= AnswerBytes(c.batch, c.topk) || Amount(m, AnswerBytes(c.batch, c.topk) - k, 4096)
  }

  function F2CStep(c: Config, s: State, m: nat): State
    requires F2CReady(c, s, m)
  {
    var co := s.co;
    match co.f
    case Receive(q, n, k) =>
      if q >= c.batch then s.(co := co.(f := Answer(0)))
      else if n >= |s.sims| then s.(co := co.(freeQueries := co.freeQueries + 1, f := Receive(q + 1, 0, 0)))
      else s.(co := co.(f := if k + m == ResultBytes() then Receive(q, n + 1, 0) else Receive(q, n, k + m)),
              sims := s.sims[n := s.sims[n].(back := s.sims[n].back - m)])
    case Answer(k) =>
      if k >= AnswerBytes(c.batch, c.topk) then
          s.(co := co.(freeBatches := co.freeBatches + 1, fBatch := co.fBatch + 1, f := Receive(0, 0, 0)))
      else s.(co := co.(f := Answer(k + m)), toGpu := s.toGpu + m)
  }

  // ---------- The simulator's threads ----------

  predicate InReady(x: Fpga, m: nat) {
    match x.input
    case ReadHeader => |x.inBuf| >= 64 || (Amount(m, 64 - |x.inBuf|, 64) && m <= |x.link|)
    case ReadBody(q) => q >= x.size || |x.inBuf| >= x.need || (Amount(m, x.need - |x.inBuf|, 4096) && m <= |x.link|)
    case InDone => false
  }

  function InStep(c: Config, x: Fpga, m: nat): Fpga
    requires InReady(x, m)
  {
    match x.input
    case ReadHeader =>
      if |x.inBuf| < 64 then x.(inBuf := x.inBuf + x.link[..m], link := x.link[m..])
      else
        var nprobe := DecodeInt(x.inBuf[4..]);
        var stored := x.(headers := x.headers + [x.inBuf], batches := x.batches + 1, inBuf := []);
        if DecodeInt(x.inBuf[8..]) != 0 then stored.(input := InDone)
        else stored.(input := ReadBody(0), size := DecodeInt(x.inBuf),
                     need := if nprobe >= 0 then BodyBytes(c.simDim, nprobe) else 0)
    case ReadBody(q) =>
      if q >= x.size then x.(inBatch := x.inBatch + 1, input := ReadHeader)
      else if |x.inBuf| < x.need then x.(inBuf := x.inBuf + x.link[..m], link := x.link[m..])
      else x.(results := x.results + 1, input := ReadBody(q + 1), inBuf := [])
  }

  predicate OutReady(x: Fpga, m: nat) {
    match x.output
    case AwaitHeader => x.batches > 0 && x.outBatch < |x.headers| && |x.headers[x.outBatch]| == 64
    case AwaitResult(q) => q >= x.outSize || x.results > 0
    case SendResult(q, k) => k >= ResultBytes() || Amount(m, ResultBytes() - k, 1024)
    case OutDone => false
  }

  function OutStep(x: Fpga, m: nat): Fpga
    requires OutReady(x, m)
  {
    match x.output
    case AwaitHeader =>
      var header := x.headers[x.outBatch];
      if DecodeInt(header[8..]) != 0 then x.(batches := x.batches - 1, output := OutDone)
      else x.(batches := x.batches - 1, outSize := DecodeInt(header), output := AwaitResult(0))
    case AwaitResult(q) =>
      if q >= x.outSize then x.(outBatch := x.outBatch + 1, output := AwaitHeader)
      else x.(results := x.results - 1, output := SendResult(q, 0))
    case SendResult(q, k) =>
      if k >= ResultBytes() then x.(output := AwaitResult(q + 1))
      else x.(output := SendResult(q, k + m), back := x.back + m)
  }

  // ---------- Steps and runs ----------

  predicate Enabled(c: Config, s: State, e: Event) {
    match e
    case Gpu(m) => m > 0 && s.gpuSent + m <= |c.gpu|
    case RunG2C(m) => G2CReady(c, s, m)
    case RunC2F(m) => C2FReady(c, s, m)
    case RunF2C(m) => F2CReady(c, s, m)
    case RunIn(n, m) => n < |s.sims| && InReady(s.sims[n], m)
    case RunOut(n, m) => n < |s.sims| && OutReady(s.sims[n], m)
  }

  function Move(c: Config, s: State, e: Event): State
    requires ConfigOk(c) && Enabled(c, s, e)
  {
    match e
    case Gpu(m) => s.(gpuSent := s.gpuSent + m, gpuLink := s.gpuLink + c.gpu[s.gpuSent..s.gpuSent + m])
    case RunG2C(m) => G2CStep(c, s, m)
    case RunC2F(m) => C2FStep(c, s, m)
    case RunF2C(m) => F2CStep(c, s, m)
    case RunIn(n, m) => s.(sims := s.sims[n := InStep(c, s.sims[n], m)])
    case RunOut(n, m) => s.(sims := s.sims[n := OutStep(s.sims[n], m)])
  }

  /** Garbage in the buffers, all semaphores at their initial values, nothing sent. */
  ghost predicate Initial(c: Config, s: State) {
    && s.gpuSent == 0 && s.gpuLink == [] && s.log == [] && s.convs == [] && s.toGpu == 0
    && s.co.g == AwaitWindow && s.co.gBatch == 0 && s.co.gBuf == []
    && Ok(s.co.ring) && |s.co.ring.slots| == c.slots && Contents(s.co.ring) == []
    && s.co.freeBatches == c.batchWindow && s.co.ready == 0 && s.co.freeQueries == c.queryWindow
    && s.co.c == NextBatch && s.co.cBatch == 0 && |s.co.conv| == BatchBytes(c)
    && s.co.f == Receive(0, 0, 0) && s.co.fBatch == 0
    && |s.sims| == c.fpgas
    && forall n | 0 <= n < c.fpgas ::
         s.sims[n] == Fpga([], ReadHeader, 0, [], s.sims[n].size, s.sims[n].need, [], 0, 0, AwaitHeader, 0,
                           s.sims[n].outSize, 0)
  }

  /** All threads have returned. */
  predicate Final(c: Config, s: State) {
    && s.co.gBatch == c.total && s.co.g == AwaitWindow && s.co.c == C2FDone && s.co.fBatch == c.total
    && forall n | 0 <= n < |s.sims| :: s.sims[n].input == InDone && s.sims[n].output == OutDone
  }

  /** trace[i] leads from state i to state i + 1. */
  ghost predicate IsRun(c: Config, states: seq<State>, trace: seq<Event>)
    requires ConfigOk(c)
  {
    && |states| == |trace| + 1 && Initial(c, states[0])
    && forall i | 0 <= i < |trace| :: Enabled(c, states[i], trace[i]) && states[i + 1] == Move(c, states[i], trace[i])
  }
}
