/** Whole runs of the pipeline: they end, they end well, and the batches arrive as the GPU sent them. */
module PipelineRuns {
  import opened Bytes
  import opened Arith
  import opened Framing
  import opened Rings
  import opened PipelineModel
  import opened PipelineLocal
  import opened PipelineSafety
  import opened PipelineProgress

  // ---------- How much is left to do ----------

  /** A position in nested loops: how many rounds are left of each, outermost first. */
  datatype Clock = Clock(a: nat, b: nat, c: nat, d: nat)

  predicate Below(y: Clock, x: Clock) {
    y.a < x.a || (y.a == x.a && (y.b < x.b || (y.b == x.b && (y.c < x.c || (y.c == x.c && y.d < x.d)))))
  }

  /** The clock read as a number in which every inner loop has at most `base` rounds. */
  function Rank(x: Clock, base: nat): nat {
    Mul(Mul(Mul(x.a, base) + x.b, base) + x.c, base) + x.d
  }

  lemma DigitFalls(hi: nat, lo: nat, hi': nat, lo': nat, base: nat)
    requires lo' < base && (hi' < hi || (hi' == hi && lo' < lo))
    ensures Mul(hi', base) + lo' < Mul(hi, base) + lo
  {
    if hi' < hi {
      MulOrder(hi' + 1, hi, base);
    }
  }

  /** y is an earlier reading than x, and none of its inner digits is too large. */
  predicate Falls(x: Clock, y: Clock, base: nat) {
    Below(y, x) && y.b < base && y.c < base && y.d < base
  }

  lemma RankFalls(x: Clock, y: Clock, base: nat)
    requires Falls(x, y, base)
    ensures Rank(y, base) < Rank(x, base)
  {
    hide Mul;
    var high, high' := Mul(x.a, base) + x.b, Mul(y.a, base) + y.b;
    if (y.a, y.b) != (x.a, x.b) {
      DigitFalls(x.a, x.b, y.a, y.b, base);
    }
    var mid, mid' := Mul(high, base) + x.c, Mul(high', base) + y.c;
    if (y.a, y.b, y.c) != (x.a, x.b, x.c) {
      DigitFalls(high, x.c, high', y.c, base);
    }
    DigitFalls(mid, x.d, mid', y.d, base);
  }

  function Left(x: int): nat { if x > 0 then x else 0 }

  /** More than any counter inside a batch ever reaches. */
  function Base(c: Config): nat {
    2 * c.batch + 10 + c.fpgas + BodySize(c) + BatchBytes(c) + AnswerBytes(c.batch, c.topk) + 1344 + 64
  }

  lemma BaseIsLarge(c: Config)
    requires ConfigOk(c)
    ensures var k := Base(c);
      2 * c.batch + 9 < k && c.fpgas < k && BodySize(c) + 64 < k && BatchBytes(c) + 4 < k
          && AnswerBytes(c.batch, c.topk) < k && 1344 < k
  {
  }

  function GClock(c: Config, g: G2C, gBatch: nat, buf: nat): Clock {
    Clock(Left(c.total - gBatch),
          match g case AwaitWindow => BatchBytes(c) + 4 case ReadBatch =>
            Left(BatchBytes(c) - buf) + 3 case StoreBatch => 2 case PostBatch => 1,
          0, 0)
  }

  function CClock(c: Config, pc: C2F, cBatch: nat): Clock {
    var left := Left(c.total + 1 - cBatch);
    var last := Base(c) - 1;
    match pc
    case NextBatch => Clock(left, 2 * c.batch + 7, 0, 0)
    case SendHeader(n, k) => Clock(left, 2 * c.batch + 6, Left(c.fpgas - n), Left(last - k))
    case AwaitReady => Clock(left, 2 * c.batch + 5, 0, 0)
    case ReadRing => Clock(left, 2 * c.batch + 4, 0, 0)
    case AwaitQuery(q) => Clock(left, 2 * Left(c.batch - q) + 2, 0, 0)
    case SendBody(q, n, k) => Clock(left, 2 * Left(c.batch - q) + 1, Left(c.fpgas - n), Left(last - k))
    case C2FDone => Clock(left, 0, 0, 0)
  }

  function FClock(c: Config, f: F2C, fBatch: nat): Clock {
    var left := Left(c.total - fBatch);
    match f
    case Receive(q, n, k) => Clock(left, Left(c.batch - q) + 1, Left(c.fpgas - n), Left(Base(c) - 1 - k))
    case Answer(k) => Clock(left, 0, 0, Left(Base(c) - 1 - k))
  }

  function InClock(c: Config, x: Fpga): Clock {
    Clock(Left(c.total + 1 - x.inBatch),
          match x.input case ReadHeader => c.batch + 3 case ReadBody(q) => Left(c.batch - q) + 1 case InDone => 0,
          0, Left(Base(c) - 1 - |x.inBuf|))
  }

  function OutClock(c: Config, x: Fpga): Clock {
    var left := Left(c.total + 1 - x.outBatch);
    match x.output
    case AwaitHeader => Clock(left, 2 * c.batch + 4, 0, 0)
    case AwaitResult(q) => Clock(left, 2 * Left(c.batch - q) + 2, 0, 0)
    case SendResult(q, k) => Clock(left, 2 * Left(c.batch - q) + 1, 0, Left(Base(c) - 1 - k))
    case OutDone => Clock(left, 0, 0, 0)
  }

  function SimWork(c: Config, x: Fpga): nat { Rank(InClock(c, x), Base(c)) + Rank(OutClock(c, x), Base(c)) }

  function Sum(c: Config, sims: seq<Fpga>): nat {
    if sims == [] then 0 else SimWork(c, sims[0]) + Sum(c, sims[1..])
  }

  /** What is left to do in the whole system. */
  function Work(c: Config, s: State): nat {
    Left(|c.gpu| - s.gpuSent) + Rank(GClock(c, s.co.g, s.co.gBatch, |s.co.gBuf|), Base(c))
    + Rank(CClock(c, s.co.c, s.co.cBatch), Base(c)) + Rank(FClock(c, s.co.f, s.co.fBatch), Base(c)) + Sum(c, s.sims)
  }

  lemma {:induction false} SumUpdate(c: Config, sims: seq<Fpga>, n: nat, x: Fpga)
    requires n < |sims|
    ensures Sum(c, sims[n := x]) == Sum(c, sims) - SimWork(c, sims[n]) + SimWork(c, x)
    decreases |sims|
  {
    hide SimWork;
    if n > 0 {
      assert sims[n := x][1..] == sims[1..][n - 1 := x];
      SumUpdate(c, sims[1..], n - 1, x);
    } else {
      assert sims[n := x][1..] == sims[1..];
    }
  }

  // ---------- Every step leaves less to do ----------

  lemma G2CFalls(c: Config, s: State, m: nat)
    requires ConfigOk(c) && GOk(c, s.gpuSent, s.gpuLink, s.co.g, s.co.gBatch, s.co.gBuf) && G2CReady(c, s, m)
    ensures var t := G2CStep(c, s, m);
      Falls(GClock(c, s.co.g, s.co.gBatch, |s.co.gBuf|), GClock(c, t.co.g, t.co.gBatch, |t.co.gBuf|), Base(c))
  {
    BaseIsLarge(c);
    hide ConfigOk, BatchBytes, BodySize, AnswerBytes, Mul, Slice, GpuBatch, Put, Ok, Base;
  }

  lemma C2FSendFalls(c: Config, s: State, m: nat)
    requires ConfigOk(c) && COk(c, s.log, s.convs, s.co.c, s.co.cBatch, s.co.conv, s.co.item) && |s.sims| == c.fpgas
        && C2FReady(c, s, m)
    requires Sends(c, s.co.c)
    ensures var t := C2FStep(c, s, m); Falls(CClock(c, s.co.c, s.co.cBatch), CClock(c, t.co.c, t.co.cBatch), Base(c))
  {
    BaseIsLarge(c);
    hide ConfigOk, BatchBytes, BodySize, AnswerBytes, HeaderOf, BodyOf, LogOk, Suffix, Contents, Take, Ok, Base, Sent;
  }

  lemma C2FOtherFalls(c: Config, s: State, m: nat)
    requires ConfigOk(c) && COk(c, s.log, s.convs, s.co.c, s.co.cBatch, s.co.conv, s.co.item) && |s.sims| == c.fpgas
        && C2FReady(c, s, m)
    requires !Sends(c, s.co.c)
    ensures var t := C2FStep(c, s, m); Falls(CClock(c, s.co.c, s.co.cBatch), CClock(c, t.co.c, t.co.cBatch), Base(c))
  {
    BaseIsLarge(c);
    hide ConfigOk, BatchBytes, BodySize, AnswerBytes, HeaderOf, BodyOf, LogOk, Suffix, Contents, Take, Ok, Base, Sent;
  }

  lemma C2FFalls(c: Config, s: State, m: nat)
    requires ConfigOk(c) && COk(c, s.log, s.convs, s.co.c, s.co.cBatch, s.co.conv, s.co.item) && |s.sims| == c.fpgas
        && C2FReady(c, s, m)
    ensures var t := C2FStep(c, s, m); Falls(CClock(c, s.co.c, s.co.cBatch), CClock(c, t.co.c, t.co.cBatch), Base(c))
  {
    hide ConfigOk, COk, C2FReady, C2FStep, CClock, Falls, Base;
    if Sends(c, s.co.c) {
      C2FSendFalls(c, s, m);
    } else {
      C2FOtherFalls(c, s, m);
    }
  }

  lemma F2CFalls(c: Config, s: State, m: nat)
    requires ConfigOk(c) && FOk(c, s.co.f, s.co.fBatch) && |s.sims| == c.fpgas && F2CReady(c, s, m)
    ensures var t := F2CStep(c, s, m); Falls(FClock(c, s.co.f, s.co.fBatch), FClock(c, t.co.f, t.co.fBatch), Base(c))
  {
    BaseIsLarge(c);
    hide ConfigOk, BatchBytes, BodySize, AnswerBytes, Base;
  }

  lemma InFalls(c: Config, x: Fpga, wire: seq<Byte>, m: nat)
    requires ConfigOk(c) && InOk(c, x, wire) && InReady(x, m)
    ensures Falls(InClock(c, x), InClock(c, InStep(c, x, m)), Base(c)) && OutClock(c, InStep(c, x, m)) == OutClock(c, x)
  {
    BaseIsLarge(c);
    hide ConfigOk, BatchBytes, BodySize, AnswerBytes, Base, Off, HeaderOf, Slice, DecodeInt, BodyBytes;
  }

  lemma OutFalls(c: Config, x: Fpga, m: nat)
    requires ConfigOk(c) && OutOk(c, x) && OutReady(x, m)
    ensures Falls(OutClock(c, x), OutClock(c, OutStep(x, m)), Base(c)) && InClock(c, OutStep(x, m)) == InClock(c, x)
  {
    BaseIsLarge(c);
    hide ConfigOk, BatchBytes, BodySize, AnswerBytes, Base, Ord, DecodeInt;
  }

  lemma SimFalls(c: Config, s: State, n: nat, y: Fpga)
    requires n < |s.sims|
    requires (Falls(InClock(c, s.sims[n]), InClock(c, y), Base(c)) && OutClock(c, y) == OutClock(c, s.sims[n]))
          || (Falls(OutClock(c, s.sims[n]), OutClock(c, y), Base(c)) && InClock(c, y) == InClock(c, s.sims[n]))
    ensures Work(c, s.(sims := s.sims[n := y])) < Work(c, s)
  {
    hide Rank, GClock, CClock, FClock, InClock, OutClock, Sum, Falls;
    if InClock(c, y) == InClock(c, s.sims[n]) && Falls(OutClock(c, s.sims[n]), OutClock(c, y), Base(c)) {
      RankFalls(OutClock(c, s.sims[n]), OutClock(c, y), Base(c));
    } else {
      RankFalls(InClock(c, s.sims[n]), InClock(c, y), Base(c));
    }
    SumUpdate(c, s.sims, n, y);
  }

  lemma G2CWork(c: Config, s: State, m: nat)
    requires ConfigOk(c) && G2CReady(c, s, m)
    requires var t := G2CStep(c, s, m);
      Falls(GClock(c, s.co.g, s.co.gBatch, |s.co.gBuf|), GClock(c, t.co.g, t.co.gBatch, |t.co.gBuf|), Base(c))
    ensures Work(c, G2CStep(c, s, m)) < Work(c, s)
  {
    var t := G2CStep(c, s, m);
    hide Rank, GClock, CClock, FClock, Sum, Falls, ConfigOk, BatchBytes, Put, Ok, Base;
    RankFalls(GClock(c, s.co.g, s.co.gBatch, |s.co.gBuf|), GClock(c, t.co.g, t.co.gBatch, |t.co.gBuf|), Base(c));
  }

  lemma C2FSameSims(c: Config, s: State, m: nat)
    requires ConfigOk(c) && C2FReady(c, s, m)
    ensures Sum(c, C2FStep(c, s, m).sims) == Sum(c, s.sims)
  {
    hide Sum, SimWork, ConfigOk, BatchBytes, HeaderOf, BodyOf, Contents, Take, Ok, Base;
    if (s.co.c.SendHeader? || s.co.c.SendBody?) && s.co.c.n < |s.sims| {
      var t := C2FStep(c, s, m);
      LinkIsNoWork(c, s.sims[s.co.c.n], t.sims[s.co.c.n]);
      SumUpdate(c, s.sims, s.co.c.n, t.sims[s.co.c.n]);
    }
  }

  lemma C2FWork(c: Config, s: State, m: nat)
    requires ConfigOk(c) && C2FReady(c, s, m)
    requires var t := C2FStep(c, s, m); Falls(CClock(c, s.co.c, s.co.cBatch), CClock(c, t.co.c, t.co.cBatch), Base(c))
    ensures Work(c, C2FStep(c, s, m)) < Work(c, s)
  {
    C2FSameSims(c, s, m);
    C2FOnlyMoves(c, s, m);
    var t := C2FStep(c, s, m);
    hide Rank, GClock, CClock, FClock, Sum, Falls, ConfigOk, C2FReady, C2FStep, Base;
    RankFalls(CClock(c, s.co.c, s.co.cBatch), CClock(c, t.co.c, t.co.cBatch), Base(c));
  }

  /** thread_C2F touches nothing that the other threads count by. */
  lemma C2FOnlyMoves(c: Config, s: State, m: nat)
    requires ConfigOk(c) && C2FReady(c, s, m)
    ensures var t := C2FStep(c, s, m);
      t.gpuSent == s.gpuSent && t.co.g == s.co.g && t.co.gBatch == s.co.gBatch && t.co.gBuf == s.co.gBuf
      && t.co.f == s.co.f && t.co.fBatch == s.co.fBatch
  {
    hide ConfigOk, BatchBytes, HeaderOf, BodyOf, Contents, Take, Ok, Sent;
  }

  lemma F2CWork(c: Config, s: State, m: nat)
    requires F2CReady(c, s, m)
    requires var t := F2CStep(c, s, m); Falls(FClock(c, s.co.f, s.co.fBatch), FClock(c, t.co.f, t.co.fBatch), Base(c))
    ensures Work(c, F2CStep(c, s, m)) < Work(c, s)
  {
    var t := F2CStep(c, s, m);
    hide Rank, GClock, CClock, FClock, InClock, OutClock, Sum, Falls, AnswerBytes, Base;
    RankFalls(FClock(c, s.co.f, s.co.fBatch), FClock(c, t.co.f, t.co.fBatch), Base(c));
    if s.co.f.Receive? && s.co.f.q < c.batch && s.co.f.n < |s.sims| {
      LinkIsNoWork(c, s.sims[s.co.f.n], t.sims[s.co.f.n]);
      SumUpdate(c, s.sims, s.co.f.n, t.sims[s.co.f.n]);
    }
  }

  /** Bytes in flight are nobody's work. */
  lemma LinkIsNoWork(c: Config, x: Fpga, y: Fpga)
    requires y == x.(link := y.link, back := y.back)
    ensures SimWork(c, y) == SimWork(c, x)
  {
    hide Rank, Base;
  }

  /** Whatever happens next, less is left to do: so every run is finite. */
  lemma MoveFalls(c: Config, s: State, e: Event)
    requires Inv(c, s) && Enabled(c, s, e)
    ensures Work(c, Move(c, s, e)) < Work(c, s)
  {
    SimCount(c, s);
    hide ConfigOk, LogOk, SimsOk, SemOk, RingShape, Falls, GOk, FOk, COk, SimOk, Sum, Rank;
    hide G2CReady, C2FReady, F2CReady, InReady, OutReady, G2CStep, C2FStep, F2CStep, InStep, OutStep, GClock, CClock,
        FClock, InClock, OutClock;
    match e
    case Gpu(m) =>
    case RunG2C(m) => G2CFalls(c, s, m); G2CWork(c, s, m);
    case RunC2F(m) => C2FFalls(c, s, m); C2FWork(c, s, m);
    case RunF2C(m) => F2CFalls(c, s, m); F2CWork(c, s, m);
    case RunIn(n, m) => SimStepFalls(c, s, n, m);
    case RunOut(n, m) => SimStepFalls(c, s, n, m);
  }

  lemma SimStepFalls(c: Config, s: State, n: nat, m: nat)
    requires Inv(c, s) && n < |s.sims|
    ensures InReady(s.sims[n], m) ==> Work(c, s.(sims := s.sims[n := InStep(c, s.sims[n], m)])) < Work(c, s)
    ensures OutReady(s.sims[n], m) ==> Work(c, s.(sims := s.sims[n := OutStep(s.sims[n], m)])) < Work(c, s)
  {
    SimCount(c, s);
    OneSim(c, s, n);
    hide Work, Falls, InReady, OutReady, InStep, OutStep, InClock, OutClock, InOk, OutOk, ConfigOk, COk, GOk, FOk,
        SemOk, SimsOk, Wire, Got;
    if InReady(s.sims[n], m) {
      InFalls(c, s.sims[n], Wire(s.log, s.co.c, |s.co.item|, n), m);
      SimFalls(c, s, n, InStep(c, s.sims[n], m));
    }
    if OutReady(s.sims[n], m) {
      OutFalls(c, s.sims[n], m);
      SimFalls(c, s, n, OutStep(s.sims[n], m));
    }
  }
}
