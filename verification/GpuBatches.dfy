/** What the GPU sends to the coordinator, built from the list IDs it means, and where those IDs end up: the layout
    CPU_programs/CPU_cooridnator_for_GPU_FPGA.cpp expects of a batch, seen from the other end of the link. */
module GpuBatches {
  import opened Bytes
  import opened Arith
  import opened Framing

  type Int64 = v: int | -0x8000_0000_0000_0000 <= v < 0x8000_0000_0000_0000

  /** A header of four int32, the query vectors, and one row of list IDs per query. */
  datatype IdBatch = IdBatch(header: seq<Byte>, queries: seq<Byte>, ids: seq<seq<Int64>>)

  predicate IdBatchOk(x: IdBatch, batch: nat, dim: nat, nprobe: nat) {
    && |x.header| == 16 && |x.queries| == 4 * batch * dim
    && |x.ids| == batch && forall q | 0 <= q < batch :: |x.ids[q]| == nprobe
  }

  function EncodeInt64(v: Int64): (r: seq<Byte>)
    ensures |r| == 8
  {
    Digits(if v < 0 then v + 0x1_0000_0000_0000_0000 else v, 8)
  }

  function IdCells(ids: seq<Int64>): (r: seq<seq<Byte>>)
    ensures Rows(r, |ids|, 8)
  {
    seq(|ids|, j requires 0 <= j < |ids| => EncodeInt64(ids[j]))
  }

  function IdRows(ids: seq<seq<Int64>>): (r: seq<seq<Byte>>)
    ensures |r| == |ids|
  {
    seq(|ids|, q requires 0 <= q < |ids| => Flat(IdCells(ids[q])))
  }

  function Encoded(x: IdBatch): seq<Byte> {
    x.header + x.queries + Flat(IdRows(x.ids))
  }

  function EncodedAll(sent: seq<IdBatch>): (r: seq<seq<Byte>>)
    ensures |r| == |sent|
  {
    seq(|sent|, b requires 0 <= b < |sent| => Encoded(sent[b]))
  }

  /** All that the GPU sends. */
  function Stream(sent: seq<IdBatch>): seq<Byte> {
    Flat(EncodedAll(sent))
  }

  // ---------- Integers byte by byte ----------

  /** A stored int32 is little endian and in two's complement. */
  lemma LittleEndian(v: int)
    requires -TWO_31 <= v < TWO_31
    ensures var b0: int, b1: int, b2: int, b3: int
              := EncodeInt(v)[0], EncodeInt(v)[1], EncodeInt(v)[2], EncodeInt(v)[3];
      b0 + 256 * b1 + 65_536 * b2 + 16_777_216 * b3 == (if v < 0 then v + 4_294_967_296 else v)
  {
    var u := if v < 0 then v + TWO_32 else v;
    var u1, u2, u3 := u / 256, u / 256 / 256, u / 256 / 256 / 256;
    assert Digits(u3, 1) == [u3 % 256] + Digits(u3 / 256, 0);
    assert Digits(u2, 2) == [u2 % 256] + Digits(u3, 1);
    assert Digits(u1, 3) == [u1 % 256] + Digits(u2, 2);
    assert Digits(u, 4) == [u % 256] + Digits(u1, 3);
  }

  /** So is a stored int64. */
  lemma Int64RoundTrip(v: Int64)
    ensures DecodeInt64(EncodeInt64(v)) == v
  {
    assert Power256(8) == TWO_64;
    ValueOfDigits(if v < 0 then v + TWO_64 else v, 8);
  }

  // ---------- Where the IDs of a batch lie ----------

  lemma RowsOfIds(ids: seq<seq<Int64>>, batch: nat, nprobe: nat)
    requires |ids| == batch && forall q | 0 <= q < batch :: |ids[q]| == nprobe
    ensures Rows(IdRows(ids), batch, 8 * nprobe)
  {
    MulIsProduct(nprobe, 8);
    forall q | 0 <= q < batch ensures |IdRows(ids)[q]| == 8 * nprobe {
      FlatSize(IdCells(ids[q]), nprobe, 8);
    }
  }

  /** A batch is as long as the receiver expects. */
  lemma EncodedSize(x: IdBatch, batch: nat, dim: nat, nprobe: nat)
    requires IdBatchOk(x, batch, dim, nprobe)
    ensures |Encoded(x)| == 16 + 4 * batch * dim + 8 * batch * nprobe == GpuBatchBytes(batch, dim, nprobe)
  {
    RowsOfIds(x.ids, batch, nprobe);
    FlatSize(IdRows(x.ids), batch, 8 * nprobe);
    MulIsProduct(batch, 8 * nprobe);
    assert batch * (8 * nprobe) == 8 * batch * nprobe;
  }

  /** The receiver's offsets lead to the eight bytes of the j-th ID of query q. */
  lemma EncodedId(x: IdBatch, batch: nat, dim: nat, nprobe: nat, q: nat, j: nat)
    requires IdBatchOk(x, batch, dim, nprobe) && q < batch && j < nprobe
    ensures IdsAt(batch, dim, nprobe, q) + 8 * j + 8 <= |Encoded(x)|
    ensures Id(Encoded(x), IdsAt(batch, dim, nprobe, q), j) == x.ids[q][j]
  {
    RowOfQuery(x, batch, nprobe, q);
    CellOfId(x.ids[q], j);
    RowStart(batch, dim, nprobe, q);
    Int64RoundTrip(x.ids[q][j]);
    hide *;
    CellAt(x.header + x.queries, Flat(IdRows(x.ids)), Flat(IdCells(x.ids[q])), EncodeInt64(x.ids[q][j]),
           Mul(q, 8 * nprobe), 8 * j);
    ReadsId(x, IdsAt(batch, dim, nprobe, q), j, EncodeInt64(x.ids[q][j]));
  }

  lemma ReadsId(x: IdBatch, at: nat, j: nat, cell: seq<Byte>)
    requires |cell| == 8 && at + 8 * j + 8 <= |x.header + x.queries + Flat(IdRows(x.ids))|
    requires (x.header + x.queries + Flat(IdRows(x.ids)))[at + 8 * j..at + 8 * j + 8] == cell
    ensures at + 8 * j + 8 <= |Encoded(x)| && Id(Encoded(x), at, j) == DecodeInt64(cell)
  {
    hide Flat, IdRows, DecodeInt64;
  }

  lemma RowOfQuery(x: IdBatch, batch: nat, nprobe: nat, q: nat)
    requires |x.ids| == batch && (forall i | 0 <= i < batch :: |x.ids[i]| == nprobe) && q < batch
    ensures |Flat(IdCells(x.ids[q]))| == 8 * nprobe && Mul(q, 8 * nprobe) + 8 * nprobe <= |Flat(IdRows(x.ids))|
    ensures Flat(IdRows(x.ids))[Mul(q, 8 * nprobe)..Mul(q, 8 * nprobe) + 8 * nprobe] == Flat(IdCells(x.ids[q]))
  {
    RowsOfIds(x.ids, batch, nprobe);
    FlatAt(IdRows(x.ids), batch, 8 * nprobe, q);
    hide Flat, IdCells, Mul;
  }

  lemma CellOfId(ids: seq<Int64>, j: nat)
    requires j < |ids|
    ensures 8 * j + 8 <= |Flat(IdCells(ids))|
    ensures Flat(IdCells(ids))[8 * j..8 * j + 8] == EncodeInt64(ids[j])
  {
    FlatAt(IdCells(ids), |ids|, 8, j);
    MulIsProduct(j, 8);
    hide Flat, EncodeInt64;
  }

  lemma RowStart(batch: nat, dim: nat, nprobe: nat, q: nat)
    ensures IdsAt(batch, dim, nprobe, q) == 16 + 4 * batch * dim + Mul(q, 8 * nprobe)
  {
    MulIsProduct(q, 8 * nprobe);
    assert q * (8 * nprobe) == 8 * q * nprobe;
  }

  lemma CellAt(front: seq<Byte>, rows: seq<Byte>, row: seq<Byte>, cell: seq<Byte>, at: nat, j: nat)
    requires at + |row| <= |rows| && rows[at..at + |row|] == row
    requires j + |cell| <= |row| && row[j..j + |cell|] == cell
    ensures (front + rows)[|front| + at + j..|front| + at + j + |cell|] == cell
  {
    forall t | 0 <= t < |cell| ensures rows[at + j + t] == cell[t] {
      assert rows[at + j + t] == rows[at..at + |row|][j + t] == row[j..j + |cell|][t];
    }
  }

  predicate AllOk(sent: seq<IdBatch>, batch: nat, dim: nat, nprobe: nat) {
    forall b | 0 <= b < |sent| :: IdBatchOk(sent[b], batch, dim, nprobe)
  }

  /** The b-th batch of the stream. */
  lemma StreamAt(sent: seq<IdBatch>, batch: nat, dim: nat, nprobe: nat, b: nat)
    requires AllOk(sent, batch, dim, nprobe) && b < |sent|
    ensures var size := 16 + 4 * batch * dim + 8 * batch * nprobe;
      && Mul(b, size) + size <= |Stream(sent)| == Mul(|sent|, size)
      && Stream(sent)[Mul(b, size)..Mul(b, size) + size] == Encoded(sent[b])
  {
    var size := 16 + 4 * batch * dim + 8 * batch * nprobe;
    forall i | 0 <= i < |sent| ensures |EncodedAll(sent)[i]| == size {
      EncodedSize(sent[i], batch, dim, nprobe);
    }
    FlatAt(EncodedAll(sent), |sent|, size, b);
  }

  // ---------- From the GPU's IDs to the body ----------

  /** The j-th four bytes of the body for query q are the low 32 bits of the j-th ID the GPU meant for that query: the
      ID itself exactly when it fits. */
  lemma BodyCarriesIds(k: Blank, batch: nat, dim: nat, nprobe: nat, x: IdBatch, q: nat, j: nat)
    requires BlankOk(k, batch, dim, nprobe) && IdBatchOk(x, batch, dim, nprobe) && q < batch && j < nprobe
    ensures |Encoded(x)| == GpuBatchBytes(batch, dim, nprobe) && 4 * j + 4 <= BodyBytes(dim, nprobe)
    ensures var r := DecodeInt(Body(k, batch, dim, nprobe, Encoded(x), q)[4 * j..]);
      && -0x8000_0000 <= r < 0x8000_0000 && (x.ids[q][j] - r) % 0x1_0000_0000 == 0
      && (r == x.ids[q][j] <==> -0x8000_0000 <= x.ids[q][j] < 0x8000_0000)
  {
    EncodedSize(x, batch, dim, nprobe);
    EncodedId(x, batch, dim, nprobe, q, j);
    BodyStartsWithIds(k, batch, dim, nprobe, Encoded(x), q, j);
    hide *;
  }

  /** What else is in a body, with the offsets written out: the padding behind the IDs, the query's own vector, its
      padding, and the centres. */
  lemma BodyFields(k: Blank, batch: nat, dim: nat, nprobe: nat, conv: seq<Byte>, vectors: seq<seq<Byte>>, q: nat)
    requires BlankOk(k, batch, dim, nprobe) && |conv| == GpuBatchBytes(batch, dim, nprobe) && q < batch
    requires Rows(vectors, batch, 4 * dim) && k.queries == Flat(vectors)
    ensures var body := Body(k, batch, dim, nprobe, conv, q);
      var query, centers := 64 * WordsFor(32 * nprobe), 64 * WordsFor(32 * nprobe) + 64 * WordsFor(32 * dim);
      && 4 * nprobe <= query == |k.frame| && query + 4 * dim <= centers
      && |body| == centers + |k.centers| && |k.centers| == nprobe * (64 * WordsFor(32 * dim))
      && body[4 * nprobe..query] == k.frame[4 * nprobe..]
      && body[query..query + 4 * dim] == vectors[q]
      && body[query + 4 * dim..centers] == k.queryRest
      && body[centers..] == k.centers
  {
    BodyParts(dim, nprobe);
    IdsInside(batch, dim, nprobe, q);
    OwnVector(k, batch, dim, nprobe, vectors, q);
    hide QueryRow, Mul, Flat, Ids, IdsAt, Rows, GpuBatchBytes;
    FiveParts(Ids(conv, IdsAt(batch, dim, nprobe, q), nprobe), k.frame[4 * nprobe..], vectors[q], k.queryRest,
              k.centers);
  }

  lemma OwnVector(k: Blank, batch: nat, dim: nat, nprobe: nat, vectors: seq<seq<Byte>>, q: nat)
    requires BlankOk(k, batch, dim, nprobe) && q < batch && Rows(vectors, batch, 4 * dim) && k.queries == Flat(vectors)
    ensures QueryRow(k, batch, dim, nprobe, q) == vectors[q] && |vectors[q]| == 4 * dim
  {
    FlatAt(vectors, batch, 4 * dim, q);
    assert Mul(q + 1, 4 * dim) == Mul(q, 4 * dim) + 4 * dim;
  }

  lemma FiveParts(a: seq<Byte>, b: seq<Byte>, c: seq<Byte>, d: seq<Byte>, e: seq<Byte>)
    ensures var s, ab := a + b + (c + d + e), |a| + |b|;
      && s[|a|..ab] == b && s[ab..ab + |c|] == c && s[ab + |c|..ab + |c| + |d|] == d && s[ab + |c| + |d|..] == e
  {
  }
}
