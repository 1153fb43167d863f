/** Octets, the 512-bit words they are padded to, and rows of them laid out one behind the other. */
module Bytes {
  import opened Arith

  type Byte = b: int | 0 <= b < 256

  /** The number of 512-bit words needed for so many bits. */
  function WordsFor(bits: nat): (n: nat)
    ensures 512 * n - 512 < bits <= 512 * n
  {
    if bits % 512 == 0 then bits / 512 else bits / 512 + 1
  }

  // ---------- Rows ----------

  predicate Rows(rows: seq<seq<Byte>>, n: nat, width: nat) {
    |rows| == n && forall i | 0 <= i < n :: |rows[i]| == width
  }

  function Flat(rows: seq<seq<Byte>>): seq<Byte> {
    if rows == [] then [] else Flat(rows[..|rows| - 1]) + rows[|rows| - 1]
  }

  lemma {:induction false} FlatSize(rows: seq<seq<Byte>>, n: nat, width: nat)
    requires Rows(rows, n, width)
    ensures |Flat(rows)| == Mul(n, width)
    decreases n
  {
    if n > 0 {
      FlatSize(rows[..n - 1], n - 1, width);
    }
  }

  /** Row i lies between i * width and (i + 1) * width. */
  lemma {:induction false} FlatAt(rows: seq<seq<Byte>>, n: nat, width: nat, i: nat)
    requires Rows(rows, n, width) && i < n
    ensures Mul(i, width) + width <= |Flat(rows)| == Mul(n, width)
    ensures Flat(rows)[Mul(i, width)..Mul(i, width) + width] == rows[i]
    decreases n
  {
    FlatSize(rows, n, width);
    FlatSize(rows[..n - 1], n - 1, width);
    if i < n - 1 {
      FlatAt(rows[..n - 1], n - 1, width, i);
      assert Flat(rows)[Mul(i, width)..Mul(i, width) + width]
          == Flat(rows[..n - 1])[Mul(i, width)..Mul(i, width) + width];
    }
  }

  /** Bytes whose number is a multiple of the width are rows. */
  lemma {:induction false} AsRows(s: seq<Byte>, n: nat, width: nat) returns (rows: seq<seq<Byte>>)
    requires |s| == Mul(n, width)
    ensures Rows(rows, n, width) && Flat(rows) == s
    decreases n
  {
    rows := [];
    if n > 0 {
      var front := AsRows(s[..Mul(n - 1, width)], n - 1, width);
      rows := front + [s[Mul(n - 1, width)..]];
      assert rows[..n - 1] == front;
    }
  }
}
