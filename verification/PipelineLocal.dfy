/** Positions in the byte streams of the pipeline, and what every step of one FPGA simulator keeps. */
module PipelineLocal {
  import opened Bytes
  import opened Arith
  import opened Framing
  import opened PipelineModel

  // ---------- Positions ----------

  /** Item 0 of a batch is its header, item q + 1 the body of query q. */
  function ItemSize(c: Config, i: nat): nat { if i == 0 then 64 else BodySize(c) }

  function BatchStream(c: Config): nat { 64 + Mul(c.batch, BodySize(c)) }

  /** Where item i of batch b begins in the stream to an FPGA. */
  function Off(c: Config, b: nat, i: nat): nat {
    Mul(b, BatchStream(c)) + (if i == 0 then 0 else 64 + Mul(i - 1, BodySize(c)))
  }

  predicate Before(b: nat, i: nat, b': nat, i': nat) {
    b < b' || (b == b' && i < i')
  }

  lemma OffNext(c: Config, b: nat, i: nat)
    ensures Off(c, b, i + 1) == Off(c, b, i) + ItemSize(c, i)
  {
  }

  /** The end of one batch is the beginning of the next. */
  lemma OffWrap(c: Config, b: nat)
    ensures Off(c, b, c.batch + 1) == Off(c, b + 1, 0)
  {
  }

  lemma OffOrder(c: Config, b: nat, i: nat, b': nat, i': nat)
    requires Before(b, i, b', i') && i <= c.batch
    ensures Off(c, b, i) + ItemSize(c, i) <= Off(c, b', i')
  {
    OffNext(c, b, i);
    if b == b' {
      OffMonotone(c, b, i + 1, i');
    } else {
      OffMonotone(c, b, i + 1, c.batch + 1);
      OffWrap(c, b);
      MulOrder(b + 1, b', BatchStream(c));
      OffMonotone(c, b', 0, i');
    }
  }

  lemma OffMonotone(c: Config, b: nat, i: nat, j: nat)
    requires i <= j
    ensures Off(c, b, i) <= Off(c, b, j)
  {
    if 0 < i {
      MulOrder(i - 1, j - 1, BodySize(c));
    }
  }

  /** The number of queries before query q of batch b. */
  function Ord(c: Config, b: nat, q: nat): nat { Mul(b, c.batch) + q }

  lemma OrdOrder(c: Config, b: nat, q: nat, b': nat, q': nat)
    requires q <= c.batch && (b < b' || (b == b' && q <= q'))
    ensures Ord(c, b, q) <= Ord(c, b', q')
    ensures b < b' ==> Ord(c, b, q) + (c.batch - q) <= Ord(c, b', q')
  {
    if b < b' {
      MulOrder(b + 1, b', c.batch);
    }
  }

  lemma OrdWrap(c: Config, b: nat)
    ensures Ord(c, b, c.batch) == Ord(c, b + 1, 0)
  {
  }

  // ---------- The stream the coordinator broadcasts ----------

  /** What item i of batch b is, given what the batches were read as. */
  function ItemOf(c: Config, convs: seq<seq<Byte>>, b: nat, i: nat): seq<Byte>
    requires ConfigOk(c)
  {
    if i == 0 then HeaderOf(c, b)
    else if b < |convs| && |convs[b]| == BatchBytes(c) && i <= c.batch then BodyOf(c, convs[b], i - 1)
    else []
  }

  function Slice(s: seq<Byte>, from: nat, n: nat): seq<Byte> {
    if from + n <= |s| then s[from..from + n] else []
  }

  /** The log holds exactly the items before item i of batch b, in order. */
  ghost predicate LogOk(c: Config, log: seq<Byte>, convs: seq<seq<Byte>>, b: nat, i: nat)
    requires ConfigOk(c)
  {
    && |log| == Off(c, b, i)
    && forall b': nat, i': nat | Before(b', i', b, i) && i' <= c.batch ::
         Slice(log, Off(c, b', i'), ItemSize(c, i')) == ItemOf(c, convs, b', i')
  }

  lemma LogGrows(c: Config, log: seq<Byte>, convs: seq<seq<Byte>>, b: nat, i: nat)
    requires ConfigOk(c) && LogOk(c, log, convs, b, i) && i <= c.batch && |ItemOf(c, convs, b, i)| == ItemSize(c, i)
    ensures LogOk(c, log + ItemOf(c, convs, b, i), convs, b, i + 1)
  {
    var item := ItemOf(c, convs, b, i);
    OffNext(c, b, i);
    SliceEnd(log, item);
    hide Off, ItemOf, ItemSize, Slice;
    forall b': nat, i': nat | Before(b', i', b, i + 1) && i' <= c.batch
      ensures Slice(log + item, Off(c, b', i'), ItemSize(c, i')) == ItemOf(c, convs, b', i')
    {
      if Before(b', i', b, i) {
        OffOrder(c, b', i', b, i);
        SliceKept(log, item, Off(c, b', i'), ItemSize(c, i'));
      } else {
        assert b' == b && i' == i;
      }
    }
  }

  lemma SliceKept(s: seq<Byte>, t: seq<Byte>, from: nat, n: nat)
    requires from + n <= |s|
    ensures Slice(s + t, from, n) == Slice(s, from, n)
  {
  }

  lemma SliceEnd(s: seq<Byte>, t: seq<Byte>)
    ensures Slice(s + t, |s|, |t|) == t
  {
  }

  /** The next batch has been read: nothing said so far depends on it. */
  lemma LogKnowsMore(c: Config, log: seq<Byte>, convs: seq<seq<Byte>>, conv: seq<Byte>)
    requires ConfigOk(c) && LogOk(c, log, convs, |convs|, 1)
    ensures LogOk(c, log, convs + [conv], |convs|, 1)
  {
    hide Off, ItemSize;
    forall b': nat, i': nat | Before(b', i', |convs|, 1) && i' <= c.batch
      ensures Slice(log, Off(c, b', i'), ItemSize(c, i')) == ItemOf(c, convs + [conv], b', i')
    {
    }
  }

  lemma LogNextBatch(c: Config, log: seq<Byte>, convs: seq<seq<Byte>>, b: nat)
    requires ConfigOk(c) && LogOk(c, log, convs, b, c.batch + 1)
    ensures LogOk(c, log, convs, b + 1, 0)
  {
    OffWrap(c, b);
    hide Off, ItemSize, ItemOf;
  }

  /** A reader that has a whole item has the item the writer meant, and the writer has gone past it. */
  lemma ReadsItem(c: Config, log: seq<Byte>, convs: seq<seq<Byte>>, b: nat, i: nat, b': nat, i': nat)
    requires ConfigOk(c) && LogOk(c, log, convs, b, i) && i' <= c.batch && i <= c.batch + 1
    requires Off(c, b', i') + ItemSize(c, i') <= |log|
    ensures Before(b', i', b, i)
    ensures Slice(log, Off(c, b', i'), ItemSize(c, i')) == ItemOf(c, convs, b', i')
  {
    BodyParts(c.dim, c.nprobe);
    assert ItemSize(c, i') > 0;
    NotBehind(c, b, i, b', i');
  }

  lemma NotBehind(c: Config, b: nat, i: nat, b': nat, i': nat)
    requires i <= c.batch + 1 && i' <= c.batch && Off(c, b', i') < Off(c, b, i)
    ensures Before(b', i', b, i)
  {
    if !Before(b', i', b, i) && (b, i) != (b', i') {
      if i <= c.batch {
        OffOrder(c, b, i, b', i');
      } else {
        OffWrap(c, b);
        if b + 1 < b' || i' > 0 {
          OffOrder(c, b + 1, 0, b', i');
        }
      }
      assert false;
    }
  }

  // ---------- One simulator ----------

  function InItem(x: Fpga): nat {
    match x.input
    case ReadHeader => 0
    case ReadBody(q) => q + 1
    case InDone => 1
  }

  function InBodies(c: Config, x: Fpga): nat { Ord(c, x.inBatch, if x.input.ReadBody? then x.input.q else 0) }

  /** It has read everything up to here. */
  function InOff(c: Config, x: Fpga): nat { Off(c, x.inBatch, InItem(x)) + |x.inBuf| }

  /** wire: all that has been sent to this FPGA. */
  ghost predicate InOk(c: Config, x: Fpga, wire: seq<Byte>)
    requires ConfigOk(c)
  {
    && InOff(c, x) <= |wire| && x.link == wire[InOff(c, x)..]
         && x.inBuf == Slice(wire, Off(c, x.inBatch, InItem(x)), |x.inBuf|)
    && |x.headers| == x.inBatch + (if x.input.ReadHeader? then 0 else 1)
    && (forall b | 0 <= b < |x.headers| :: x.headers[b] == HeaderOf(c, b))
    && match x.input
       case ReadHeader => x.inBatch <= c.total && |x.inBuf| <= 64
       case ReadBody(q) =>
         x.inBatch < c.total && q <= c.batch && |x.inBuf| <= BodySize(c) && (q == c.batch ==> x.inBuf == [])
         && x.size == c.batch && x.need == BodySize(c)
       case InDone => x.inBatch == c.total && x.inBuf == []
  }

  function OutHeaders(x: Fpga): nat { x.outBatch + (if x.output.AwaitHeader? then 0 else 1) }

  /** Queries whose answer this FPGA has sent completely, and those it has begun. */
  function OutSent(c: Config, x: Fpga): nat {
    Ord(c, x.outBatch, match x.output case AwaitResult(q) => q case SendResult(q, _) => q case _ => 0)
  }

  function OutTaken(c: Config, x: Fpga): nat { OutSent(c, x) + (if x.output.SendResult? then 1 else 0) }

  ghost predicate OutOk(c: Config, x: Fpga) {
    && x.batches + OutHeaders(x) == |x.headers| && x.results + OutTaken(c, x) == InBodies(c, x)
    && match x.output
       case AwaitHeader => x.outBatch <= c.total
       case AwaitResult(q) => x.outBatch < c.total && q <= c.batch && x.outSize == c.batch
       case SendResult(q, k) => x.outBatch < c.total && q < c.batch && x.outSize == c.batch && k <= ResultBytes()
       case OutDone => x.outBatch == c.total
  }

  function OutBytes(c: Config, x: Fpga): nat {
    1344 * OutSent(c, x) + (if x.output.SendResult? then x.output.k else 0)
  }

  /** got: the bytes of its answers the coordinator has read. */
  ghost predicate SimOk(c: Config, x: Fpga, wire: seq<Byte>, got: nat)
    requires ConfigOk(c)
  {
    InOk(c, x, wire) && OutOk(c, x) && OutBytes(c, x) == got + x.back
  }

  lemma SendKeeps(c: Config, x: Fpga, wire: seq<Byte>, got: nat, chunk: seq<Byte>)
    requires ConfigOk(c) && SimOk(c, x, wire, got)
    ensures SimOk(c, x.(link := x.link + chunk), wire + chunk, got)
  {
    hide Off, HeaderOf, Ord;
    var x' := x.(link := x.link + chunk);
    assert (wire + chunk)[InOff(c, x)..] == wire[InOff(c, x)..] + chunk;
    assert InOk(c, x', wire + chunk);
  }

  lemma ReceiveKeeps(c: Config, x: Fpga, wire: seq<Byte>, got: nat, m: nat)
    requires ConfigOk(c) && SimOk(c, x, wire, got) && m <= x.back
    ensures SimOk(c, x.(back := x.back - m), wire, got + m)
  {
    hide Off, HeaderOf, Ord;
    assert InOk(c, x.(back := x.back - m), wire);
  }

  lemma ReadMore(c: Config, x: Fpga, wire: seq<Byte>, m: nat)
    requires ConfigOk(c) && InOk(c, x, wire) && m <= |x.link|
    ensures var x' := x.(inBuf := x.inBuf + x.link[..m], link := x.link[m..]);
      && InOff(c, x') <= |wire| && x'.link == wire[InOff(c, x')..]
      && x'.inBuf == Slice(wire, Off(c, x.inBatch, InItem(x)), |x'.inBuf|)
  {
    hide Off, HeaderOf, Ord;
  }

  /** The header it has read is the header of the batch it expects, and it decodes it rightly. */
  lemma HeaderRead(c: Config, x: Fpga, wire: seq<Byte>, log: seq<Byte>, convs: seq<seq<Byte>>, b: nat, i: nat)
    requires ConfigOk(c) && InOk(c, x, wire) && LogOk(c, log, convs, b, i) && wire <= log && i <= c.batch + 1
    requires x.input.ReadHeader? && |x.inBuf| == 64
    ensures x.inBuf == HeaderOf(c, x.inBatch)
    ensures DecodeInt(x.inBuf) == c.batch && DecodeInt(x.inBuf[4..]) == c.nprobe
    ensures DecodeInt(x.inBuf[8..]) != 0 <==> x.inBatch == c.total
  {
    hide Off, Ord;
    ReadsItem(c, log, convs, b, i, x.inBatch, 0);
    HeaderRoundTrip(c.batch, c.nprobe, x.inBatch == c.total, c.blank.header);
  }

  /** The body it has read is the body of its own query and batch, as the coordinator built it. */
  lemma BodyRead(c: Config, x: Fpga, wire: seq<Byte>, log: seq<Byte>, convs: seq<seq<Byte>>, b: nat, i: nat)
    requires ConfigOk(c) && InOk(c, x, wire) && LogOk(c, log, convs, b, i) && wire <= log && i <= c.batch + 1
    requires x.input.ReadBody? && x.input.q < c.batch && |x.inBuf| == BodySize(c)
    ensures Before(x.inBatch, x.input.q + 1, b, i) && x.inBuf == ItemOf(c, convs, x.inBatch, x.input.q + 1)
  {
    hide Off, Ord, ItemOf;
    ReadsItem(c, log, convs, b, i, x.inBatch, x.input.q + 1);
  }

  lemma ReadingKeeps(c: Config, x: Fpga, wire: seq<Byte>, got: nat, m: nat)
    requires ConfigOk(c) && SimOk(c, x, wire, got) && m <= |x.link|
    requires if x.input.ReadHeader? then |x.inBuf| + m <= 64
        else x.input.ReadBody? && x.input.q < c.batch && |x.inBuf| + m <= x.need
    ensures SimOk(c, x.(inBuf := x.inBuf + x.link[..m], link := x.link[m..]), wire, got)
  {
    ReadMore(c, x, wire, m);
    hide Off, Ord, HeaderOf, Slice, ConfigOk;
    assert InOk(c, x.(inBuf := x.inBuf + x.link[..m], link := x.link[m..]), wire);
  }

  lemma HeaderKeeps(c: Config, x: Fpga, wire: seq<Byte>, got: nat, m: nat)
    requires ConfigOk(c) && SimOk(c, x, wire, got) && x.input.ReadHeader? && x.inBuf == HeaderOf(c, x.inBatch)
    ensures InReady(x, m) && SimOk(c, InStep(c, x, m), wire, got)
  {
    OffNext(c, x.inBatch, 0);
    HeaderRoundTrip(c.batch, c.nprobe, x.inBatch == c.total, c.blank.header);
    hide Off, Ord, Slice, BodyBytes, DecodeInt, Header;
    assert InOk(c, InStep(c, x, m), wire);
  }

  lemma BodyKeeps(c: Config, x: Fpga, wire: seq<Byte>, got: nat, m: nat)
    requires ConfigOk(c) && SimOk(c, x, wire, got) && x.input.ReadBody?
        && (x.input.q < c.batch ==> |x.inBuf| == BodySize(c))
    ensures InReady(x, m) && SimOk(c, InStep(c, x, m), wire, got)
  {
    OffNext(c, x.inBatch, x.input.q + 1);
    OffWrap(c, x.inBatch);
    OrdWrap(c, x.inBatch);
    assert Ord(c, x.inBatch, x.input.q + 1) == Ord(c, x.inBatch, x.input.q) + 1;
    hide Off, Ord, Slice, HeaderOf, BodyBytes, ConfigOk;
    assert InOk(c, InStep(c, x, m), wire);
  }

  /** Every step of thread_C2F of a simulator. */
  lemma InKeeps(c: Config, x: Fpga, wire: seq<Byte>, got: nat, m: nat, log: seq<Byte>, convs: seq<seq<Byte>>, b: nat,
                i: nat)
    requires ConfigOk(c) && SimOk(c, x, wire, got) && LogOk(c, log, convs, b, i) && wire <= log && i <= c.batch + 1
    requires InReady(x, m)
    ensures SimOk(c, InStep(c, x, m), wire, got)
  {
    assert InOk(c, x, wire);
    if x.input.ReadHeader? && |x.inBuf| == 64 {
      HeaderRead(c, x, wire, log, convs, b, i);
      HeaderKeeps(c, x, wire, got, m);
    } else if x.input.ReadBody? && (x.input.q == c.batch || |x.inBuf| == BodySize(c)) {
      BodyKeeps(c, x, wire, got, m);
    } else {
      ReadingKeeps(c, x, wire, got, m);
    }
  }

  /** Every step of thread_F2C of a simulator. */
  lemma OutKeeps(c: Config, x: Fpga, wire: seq<Byte>, got: nat, m: nat)
    requires ConfigOk(c) && SimOk(c, x, wire, got) && OutReady(x, m)
    ensures SimOk(c, OutStep(x, m), wire, got)
  {
    if x.output.AwaitHeader? {
      assert x.headers[x.outBatch] == HeaderOf(c, x.outBatch);
      HeaderRoundTrip(c.batch, c.nprobe, x.outBatch == c.total, c.blank.header);
    }
    OrdWrap(c, x.outBatch);
    OrdStep(c, x.outBatch);
    SameIn(c, x, OutStep(x, m), wire);
    hide Off, Ord, Header, DecodeInt, InOk, ConfigOk;
  }

  lemma OrdStep(c: Config, b: nat)
    ensures forall q: nat :: Ord(c, b, q + 1) == Ord(c, b, q) + 1
  {
  }

  /** The receiving half of a simulator has not moved. */
  lemma SameIn(c: Config, x: Fpga, x': Fpga, wire: seq<Byte>)
    requires ConfigOk(c) && InOk(c, x, wire)
    requires x' == x.(batches := x'.batches, results := x'.results, output := x'.output, outBatch := x'.outBatch,
                      outSize := x'.outSize, back := x'.back)
    ensures InOk(c, x', wire)
  {
    hide Off, HeaderOf, Slice;
  }
}
