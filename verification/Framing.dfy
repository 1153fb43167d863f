/** The byte layout shared by the coordinator and the FPGA side: CPU_programs/constants.hpp, the frames built by
    CPU_programs/CPU_cooridnator_for_GPU_FPGA.cpp, and what CPU_programs/FPGA_simulator.cpp decodes. */
module Framing {
  import opened Bytes
  import opened Arith

  // ---------- Sizes ----------

  const FPGA_TOPK: nat := 100

  function CellBytes(nprobe: nat): nat { 64 * WordsFor(nprobe * 32) }

  /** A query vector or a centre vector. */
  function VectorBytes(dim: nat): nat { 64 * WordsFor(dim * 32) }

  function BodyBytes(dim: nat, nprobe: nat): nat {
    64 * (WordsFor(nprobe * 32) + WordsFor(dim * 32) + nprobe * WordsFor(dim * 32))
  }

  function ResultBytes(): (n: nat)
    ensures n == 1344
  {
    64 * (1 + WordsFor(FPGA_TOPK * 64) + WordsFor(FPGA_TOPK * 32))
  }

  /** A batch from the GPU: a 16-byte header, the queries, then the list IDs in 8 bytes each. */
  function GpuBatchBytes(batch: nat, dim: nat, nprobe: nat): nat {
    16 + 4 * batch * dim + 8 * batch * nprobe
  }

  function AnswerBytes(batch: nat, topk: nat): nat {
    batch * (8 * topk + 4 * topk)
  }

  /** The two ends agree on the length of a body exactly when their dimensions fill the same number of words. */
  lemma SameBodyIffSameWords(dim: nat, simDim: nat, nprobe: nat)
    ensures BodyBytes(dim, nprobe) == BodyBytes(simDim, nprobe) <==> WordsFor(dim * 32) == WordsFor(simDim * 32)
  {
    var a, b := WordsFor(dim * 32), WordsFor(simDim * 32);
    if a < b {
      MulMonotone(a, b, nprobe);
      assert nprobe * a == a * nprobe && nprobe * b == b * nprobe;
    } else if b < a {
      MulMonotone(b, a, nprobe);
      assert nprobe * a == a * nprobe && nprobe * b == b * nprobe;
    }
  }

  lemma BodyParts(dim: nat, nprobe: nat)
    ensures BodyBytes(dim, nprobe) == CellBytes(nprobe) + VectorBytes(dim) + nprobe * VectorBytes(dim)
    ensures 4 * nprobe <= CellBytes(nprobe) && 4 * dim <= VectorBytes(dim)
    ensures dim > 0 ==> BodyBytes(dim, nprobe) > 0
  {
    assert 64 * (nprobe * WordsFor(dim * 32)) == nprobe * (64 * WordsFor(dim * 32));
    MulMonotone(0, nprobe, WordsFor(dim * 32));
  }

  // ---------- Integers in memory: little endian, two's complement ----------

  const TWO_31: int := 0x8000_0000
  const TWO_32: int := 0x1_0000_0000
  const TWO_64: int := 0x1_0000_0000_0000_0000

  function Digits(u: nat, n: nat): (r: seq<Byte>)
    ensures |r| == n
  {
    if n == 0 then [] else [u % 256] + Digits(u / 256, n - 1)
  }

  function Value(bytes: seq<Byte>): nat {
    if bytes == [] then 0 else bytes[0] + 256 * Value(bytes[1..])
  }

  function Power256(n: nat): nat {
    if n == 0 then 1 else 256 * Power256(n - 1)
  }

  lemma {:induction false} ValueOfDigits(u: nat, n: nat)
    requires u < Power256(n)
    ensures Value(Digits(u, n)) == u
    decreases n
  {
    if n > 0 {
      ValueOfDigits(u / 256, n - 1);
      assert Digits(u, n)[1..] == Digits(u / 256, n - 1);
    }
  }

  function EncodeInt(v: int): (r: seq<Byte>)
    requires -TWO_31 <= v < TWO_31
    ensures |r| == 4
  {
    Digits(if v < 0 then v + TWO_32 else v, 4)
  }

  /** decode_int of CPU_programs/utils.hpp. */
  function DecodeInt(bytes: seq<Byte>): int
    requires |bytes| >= 4
  {
    var u := Value(bytes[..4]);
    if u < TWO_31 then u else u - TWO_32
  }

  lemma IntRoundTrip(v: int, rest: seq<Byte>)
    requires -TWO_31 <= v < TWO_31
    ensures DecodeInt(EncodeInt(v) + rest) == v
  {
    var u := if v < 0 then v + TWO_32 else v;
    assert Power256(4) == TWO_32;
    ValueOfDigits(u, 4);
    assert (EncodeInt(v) + rest)[..4] == Digits(u, 4);
  }

  function DecodeInt64(bytes: seq<Byte>): int
    requires |bytes| == 8
  {
    var u: int := Value(bytes);
    if u < TWO_64 / 2 then u else u - TWO_64
  }

  /** The conversion of an int64_t to int32_t keeps the low 32 bits. */
  function ToInt32(v: int): (r: int)
    ensures -TWO_31 <= r < TWO_31 && (v - r) % 0x1_0000_0000 == 0
    ensures r == v <==> -TWO_31 <= v < TWO_31
  {
    var u := v % TWO_32;
    if u < TWO_31 then u else u - TWO_32
  }

  // ---------- Headers ----------

  function Header(batch: nat, nprobe: nat, terminate: bool, rest: seq<Byte>): (r: seq<Byte>)
    requires batch < TWO_31 && nprobe < TWO_31 && |rest| == 52
    ensures |r| == 64
  {
    EncodeInt(batch) + EncodeInt(nprobe) + EncodeInt(if terminate then 1 else 0) + rest
  }

  /** What the receiver decodes is what the sender stored. */
  lemma HeaderRoundTrip(batch: nat, nprobe: nat, terminate: bool, rest: seq<Byte>)
    requires batch < TWO_31 && nprobe < TWO_31 && |rest| == 52
    ensures var h := Header(batch, nprobe, terminate, rest);
      DecodeInt(h) == batch && DecodeInt(h[4..]) == nprobe && (DecodeInt(h[8..]) != 0 <==> terminate)
  {
    var h := Header(batch, nprobe, terminate, rest);
    var t := if terminate then 1 else 0;
    IntRoundTrip(batch, EncodeInt(nprobe) + EncodeInt(t) + rest);
    assert h == EncodeInt(batch) + (EncodeInt(nprobe) + EncodeInt(t) + rest);
    IntRoundTrip(nprobe, EncodeInt(t) + rest);
    assert h[4..] == EncodeInt(nprobe) + (EncodeInt(t) + rest);
    IntRoundTrip(t, rest);
    assert h[8..] == EncodeInt(t) + rest;
  }

  // ---------- Bodies ----------

  /** What the buffers that the program allocates but never fills hold. */
  datatype Blank = Blank(header: seq<Byte>, frame: seq<Byte>, queries: seq<Byte>, queryRest: seq<Byte>,
                         centers: seq<Byte>)

  predicate BlankOk(k: Blank, batch: nat, dim: nat, nprobe: nat) {
    && |k.header| == 52 && |k.frame| == CellBytes(nprobe) && |k.queries| == Mul(batch, 4 * dim)
    && |k.queryRest| == VectorBytes(dim) - 4 * dim && |k.centers| == nprobe * VectorBytes(dim)
  }

  /** Where the list IDs of query q begin in a batch from the GPU. */
  function IdsAt(batch: nat, dim: nat, nprobe: nat, q: nat): nat {
    16 + 4 * batch * dim + 8 * q * nprobe
  }

  lemma IdsInside(batch: nat, dim: nat, nprobe: nat, q: nat)
    requires q < batch
    ensures IdsAt(batch, dim, nprobe, q) + 8 * nprobe <= GpuBatchBytes(batch, dim, nprobe)
  {
    BlocksInOrder(q, batch, nprobe);
    assert 8 * q * nprobe == 8 * (q * nprobe) && 8 * batch * nprobe == 8 * (batch * nprobe);
  }

  function Id(conv: seq<Byte>, at: nat, j: nat): int
    requires at + 8 * j + 8 <= |conv|
  {
    DecodeInt64(conv[at + 8 * j..at + 8 * j + 8])
  }

  function Ids(conv: seq<Byte>, at: nat, n: nat): (r: seq<Byte>)
    requires at + 8 * n <= |conv|
    ensures |r| == 4 * n
  {
    if n == 0 then [] else Ids(conv, at, n - 1) + EncodeInt(ToInt32(Id(conv, at, n - 1)))
  }

  lemma {:induction false} IdsHold(conv: seq<Byte>, at: nat, n: nat, j: nat)
    requires at + 8 * n <= |conv| && j < n
    ensures DecodeInt(Ids(conv, at, n)[4 * j..]) == ToInt32(Id(conv, at, j))
    decreases n
  {
    var last := EncodeInt(ToInt32(Id(conv, at, n - 1)));
    if j == n - 1 {
      IntRoundTrip(ToInt32(Id(conv, at, j)), []);
      assert Ids(conv, at, n)[4 * j..] == last + [];
    } else {
      IdsHold(conv, at, n - 1, j);
      assert Ids(conv, at, n)[4 * j..][..4] == Ids(conv, at, n - 1)[4 * j..][..4];
    }
  }

  function QueryRow(k: Blank, batch: nat, dim: nat, nprobe: nat, q: nat): (r: seq<Byte>)
    requires BlankOk(k, batch, dim, nprobe) && q < batch
    ensures |r| == 4 * dim
  {
    MulOrder(q + 1, batch, 4 * dim);
    k.queries[Mul(q, 4 * dim)..Mul(q + 1, 4 * dim)]
  }

  function Body(k: Blank, batch: nat, dim: nat, nprobe: nat, conv: seq<Byte>, q: nat): (r: seq<Byte>)
    requires BlankOk(k, batch, dim, nprobe) && q < batch && |conv| == GpuBatchBytes(batch, dim, nprobe)
    ensures |r| == BodyBytes(dim, nprobe)
  {
    IdsInside(batch, dim, nprobe, q);
    BodyParts(dim, nprobe);
    Ids(conv, IdsAt(batch, dim, nprobe, q), nprobe) + k.frame[4 * nprobe..]
        + (QueryRow(k, batch, dim, nprobe, q) + k.queryRest + k.centers)
  }

  /** The j-th four bytes of a body are the j-th list ID of its query, converted to 32 bits. */
  lemma BodyStartsWithIds(k: Blank, batch: nat, dim: nat, nprobe: nat, conv: seq<Byte>, q: nat, j: nat)
    requires BlankOk(k, batch, dim, nprobe) && q < batch && |conv| == GpuBatchBytes(batch, dim, nprobe) && j < nprobe
    ensures 4 * j + 4 <= BodyBytes(dim, nprobe)
    ensures IdsAt(batch, dim, nprobe, q) + 8 * j + 8 <= |conv|
    ensures DecodeInt(Body(k, batch, dim, nprobe, conv, q)[4 * j..])
        == ToInt32(Id(conv, IdsAt(batch, dim, nprobe, q), j))
  {
    IdsInside(batch, dim, nprobe, q);
    BodyParts(dim, nprobe);
    var ids := Ids(conv, IdsAt(batch, dim, nprobe, q), nprobe);
    var body := Body(k, batch, dim, nprobe, conv, q);
    IdsHold(conv, IdsAt(batch, dim, nprobe, q), nprobe, j);
    assert body[4 * j..][..4] == ids[4 * j..][..4];
  }

  // ---------- Building a body in place ----------

  function Overwrite(s: seq<Byte>, at: nat, src: seq<Byte>): (r: seq<Byte>)
    requires at + |src| <= |s|
    ensures |r| == |s|
  {
    s[..at] + src + s[at + |src|..]
  }

  /** Writing b right after a is writing a + b. */
  lemma OverwriteMore(s: seq<Byte>, at: nat, a: seq<Byte>, b: seq<Byte>)
    requires at + |a| + |b| <= |s|
    ensures Overwrite(Overwrite(s, at, a), at + |a|, b) == Overwrite(s, at, a + b)
  {
  }

  method Memcpy(dst: array<Byte>, at: nat, src: seq<Byte>)
    requires at + |src| <= dst.Length
    modifies dst
    ensures dst[..] == Overwrite(old(dst[..]), at, src)
  {
    var i := 0;
    while i < |src|
      invariant i <= |src|
      invariant dst[..] == old(dst[..at]) + src[..i] + old(dst[at + i..])
    {
      dst[at + i] := src[i];
      i := i + 1;
    }
  }

  method CopyIds(conv: array<Byte>, bias: nat, nprobe: nat, buf: array<Byte>)
    requires bias + 8 * nprobe <= conv.Length && 4 * nprobe <= buf.Length && conv != buf
    modifies buf
    ensures buf[..] == Overwrite(old(buf[..]), 0, Ids(conv[..], bias, nprobe))
  {
    hide Overwrite;
    ghost var ids := conv[..];
    StartEmpty(buf[..]);
    var j := 0;
    while j < nprobe
      invariant j <= nprobe && conv[..] == ids
      invariant buf[..] == Overwrite(old(buf[..]), 0, Ids(ids, bias, j))
    {
      var id := EncodeInt(ToInt32(Id(conv[..], bias, j)));
      OverwriteMore(old(buf[..]), 0, Ids(ids, bias, j), id);
      Memcpy(buf, 4 * j, id);
      j := j + 1;
    }
  }

  lemma StartEmpty(s: seq<Byte>)
    ensures Overwrite(s, 0, []) == s
  {
  }

  /** The parts of the buffers no query overwrites. */
  predicate BuffersOk(k: Blank, dim: nat, nprobe: nat, bufQuery: seq<Byte>, buf: seq<Byte>) {
    && 4 * dim <= |bufQuery| == VectorBytes(dim) && bufQuery[4 * dim..] == k.queryRest
    && 4 * nprobe <= CellBytes(nprobe) <= |buf| == BodyBytes(dim, nprobe)
    && |k.frame| == CellBytes(nprobe) && buf[4 * nprobe..CellBytes(nprobe)] == k.frame[4 * nprobe..]
  }

  /** The inner part of thread_C2F: what send_C2F_query is about to send. The buffers keep their unused parts between
      queries. */
  method BuildBody(k: Blank, batch: nat, dim: nat, nprobe: nat, conv: array<Byte>, q: nat, bufQuery: array<Byte>,
                   buf: array<Byte>)
    requires BlankOk(k, batch, dim, nprobe) && q < batch && conv.Length == GpuBatchBytes(batch, dim, nprobe)
    requires conv != buf && conv != bufQuery && buf != bufQuery
    requires BuffersOk(k, dim, nprobe, bufQuery[..], buf[..])
    modifies bufQuery, buf
    ensures buf[..] == Body(k, batch, dim, nprobe, conv[..], q)
    ensures BuffersOk(k, dim, nprobe, bufQuery[..], buf[..])
  {
    BodyLayout(k, batch, dim, nprobe, conv[..], q, bufQuery[..], buf[..]);
    hide *;
    Memcpy(bufQuery, 0, QueryRow(k, batch, dim, nprobe, q));
    CopyIds(conv, IdsAt(batch, dim, nprobe, q), nprobe, buf);
    Memcpy(buf, CellBytes(nprobe), bufQuery[..]);
    Memcpy(buf, CellBytes(nprobe) + VectorBytes(dim), k.centers);
  }

  /** Where the parts of a body go, and what the four copies make of the buffers. */
  lemma BodyLayout(k: Blank, batch: nat, dim: nat, nprobe: nat, conv: seq<Byte>, q: nat, bufQuery: seq<Byte>,
                   buf: seq<Byte>)
    requires BlankOk(k, batch, dim, nprobe) && q < batch && |conv| == GpuBatchBytes(batch, dim, nprobe)
    requires BuffersOk(k, dim, nprobe, bufQuery, buf)
    ensures IdsAt(batch, dim, nprobe, q) + 8 * nprobe <= |conv| && 4 * dim <= |bufQuery| == VectorBytes(dim)
    ensures 4 * nprobe <= CellBytes(nprobe) && CellBytes(nprobe) + VectorBytes(dim) + |k.centers| == |buf|
    ensures var query := Overwrite(bufQuery, 0, QueryRow(k, batch, dim, nprobe, q));
      var one := Overwrite(buf, 0, Ids(conv, IdsAt(batch, dim, nprobe, q), nprobe));
      var two := Overwrite(one, CellBytes(nprobe), query);
      var three := Overwrite(two, CellBytes(nprobe) + VectorBytes(dim), k.centers);
      three == Body(k, batch, dim, nprobe, conv, q) && BuffersOk(k, dim, nprobe, query, three)
  {
    BodyParts(dim, nprobe);
    IdsInside(batch, dim, nprobe, q);
    var row := QueryRow(k, batch, dim, nprobe, q);
    var ids := Ids(conv, IdsAt(batch, dim, nprobe, q), nprobe);
    Copies(k.frame, ids, row, k.queryRest, k.centers, CellBytes(nprobe), bufQuery, buf);
    StillOk(k, dim, nprobe, ids, row);
    hide *;
  }

  lemma Copies(frame: seq<Byte>, ids: seq<Byte>, row: seq<Byte>, rest: seq<Byte>, centers: seq<Byte>, cells: nat,
               bufQuery: seq<Byte>, buf: seq<Byte>)
    requires |ids| <= cells == |frame| && |row| <= |bufQuery| && bufQuery[|row|..] == rest
    requires |buf| == cells + |bufQuery| + |centers| && buf[|ids|..cells] == frame[|ids|..]
    ensures var query := Overwrite(bufQuery, 0, row);
      var two := Overwrite(Overwrite(buf, 0, ids), cells, query);
      query == row + rest
          && Overwrite(two, cells + |bufQuery|, centers) == ids + frame[|ids|..] + (row + rest + centers)
  {
    RowFirst(bufQuery, row);
    Layers(buf, ids, frame[|ids|..], row + rest, centers);
  }

  lemma RowFirst(bufQuery: seq<Byte>, row: seq<Byte>)
    requires |row| <= |bufQuery|
    ensures Overwrite(bufQuery, 0, row) == row + bufQuery[|row|..]
  {
  }

  lemma StillOk(k: Blank, dim: nat, nprobe: nat, ids: seq<Byte>, row: seq<Byte>)
    requires |ids| == 4 * nprobe <= CellBytes(nprobe) == |k.frame| && |row| == 4 * dim
        && |row + k.queryRest| == VectorBytes(dim)
    requires CellBytes(nprobe) + VectorBytes(dim) + |k.centers| == BodyBytes(dim, nprobe)
    ensures BuffersOk(k, dim, nprobe, row + k.queryRest, ids + k.frame[4 * nprobe..] + (row + k.queryRest + k.centers))
  {
  }

  /** Overwriting first the IDs, then the query, then the centres. */
  lemma Layers(buf: seq<Byte>, ids: seq<Byte>, pad: seq<Byte>, query: seq<Byte>, centers: seq<Byte>)
    requires |buf| == |ids| + |pad| + |query| + |centers| && buf[|ids|..|ids| + |pad|] == pad
    ensures var two := Overwrite(Overwrite(buf, 0, ids), |ids| + |pad|, query);
      Overwrite(two, |ids| + |pad| + |query|, centers) == ids + pad + (query + centers)
  {
    var one := Overwrite(buf, 0, ids);
    assert one[..|ids| + |pad|] == ids + pad;
    var two := Overwrite(one, |ids| + |pad|, query);
    assert two[..|ids| + |pad| + |query|] == ids + pad + query;
  }
}
