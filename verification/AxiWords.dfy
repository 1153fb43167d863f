/** Words of an AXI stream (net_axis of fpga-network-stack/hls/axi_utils.hpp), well-formed packets, and what they
    carry. */
module AxiWords {
  import opened Bytes

  /** keep[i] says whether byte i of data counts; last marks the final word of a packet. */
  datatype Word = Word(data: seq<Byte>, keep: seq<bool>, last: bool)

  predicate HasWidth(x: Word, w: nat) {
    |x.data| == w && |x.keep| == w
  }

  /** The keep field of a word with n leading bytes. */
  function KeepOf(n: nat, w: nat): (r: seq<bool>)
    requires n <= w
    ensures |r| == w && forall i | 0 <= i < w :: r[i] <==> i < n
  {
    seq(w, i => i < n)
  }

  /** The number of leading bytes kept. */
  function Count(keep: seq<bool>): (n: nat)
    ensures n <= |keep|
  {
    if keep == [] || !keep[0] then 0 else 1 + Count(keep[1..])
  }

  lemma {:induction false} CountIs(keep: seq<bool>, n: nat)
    requires n <= |keep| && (forall i | 0 <= i < n :: keep[i]) && (n < |keep| ==> !keep[n])
    ensures Count(keep) == n
    decreases n
  {
    if n > 0 {
      CountIs(keep[1..], n - 1);
    }
  }

  function Kept(x: Word): seq<Byte>
    requires |x.data| == |x.keep|
  {
    x.data[..Count(x.keep)]
  }

  /** Contiguous keep; full unless the word ends a packet; never empty. */
  predicate WellFormed(x: Word, w: nat) {
    && HasWidth(x, w)
    && x.keep == KeepOf(Count(x.keep), w)
    && 0 < Count(x.keep)
    && (!x.last ==> Count(x.keep) == w)
  }

  /** The stream stops at the end of a packet. */
  predicate Complete(s: seq<Word>) {
    s == [] || s[|s| - 1].last
  }

  /** The byte sequences of the packets that end in s, when `carried` bytes of the first one have already gone by. */
  function Packets(carried: seq<Byte>, s: seq<Word>): seq<seq<Byte>>
    decreases s
    requires forall x | x in s :: |x.data| == |x.keep|
  {
    if s == [] then []
    else if s[0].last then [carried + Kept(s[0])] + Packets([], s[1..])
    else Packets(carried + Kept(s[0]), s[1..])
  }

  // ---------- From packets to words and back ----------

  /** The words that carry the bytes p as one packet of width w; the last one is filled up with `fill`. */
  function WordsOf(p: seq<Byte>, w: nat, fill: Byte): (s: seq<Word>)
    requires w > 0
    ensures forall x | x in s :: HasWidth(x, w)
    decreases |p|
  {
    if |p| <= w then [Word(p + seq(w - |p|, _ => fill), seq(w, i => i < |p|), true)]
    else [Word(p[..w], seq(w, _ => true), false)] + WordsOf(p[w..], w, fill)
  }

  function StreamOf(ps: seq<seq<Byte>>, w: nat, fill: Byte): (s: seq<Word>)
    requires w > 0
    ensures forall x | x in s :: HasWidth(x, w)
  {
    if ps == [] then [] else WordsOf(ps[0], w, fill) + StreamOf(ps[1..], w, fill)
  }

  lemma KeepsBytes(p: seq<Byte>, w: nat, fill: Byte)
    requires 0 < |p| <= w
    ensures var x := Word(p + seq(w - |p|, _ => fill), seq(w, i => i < |p|), true);
      WellFormed(x, w) && Kept(x) == p
  {
    var keep := seq(w, i => i < |p|);
    CountIs(keep, |p|);
    assert keep == KeepOf(|p|, w);
  }

  lemma KeepsWord(p: seq<Byte>, w: nat)
    requires 0 < w == |p|
    ensures var x := Word(p, seq(w, _ => true), false);
      WellFormed(x, w) && Kept(x) == p
  {
    var keep := seq(w, _ => true);
    CountIs(keep, w);
    assert keep == KeepOf(w, w);
  }

  lemma {:induction false} OnePacket(carried: seq<Byte>, p: seq<Byte>, w: nat, fill: Byte, rest: seq<Word>)
    requires w > 0 && p != [] && forall x | x in rest :: |x.data| == |x.keep|
    ensures forall x | x in WordsOf(p, w, fill) :: WellFormed(x, w)
    ensures Complete(WordsOf(p, w, fill)) && WordsOf(p, w, fill) != []
    ensures Packets(carried, WordsOf(p, w, fill) + rest) == [carried + p] + Packets([], rest)
    decreases |p|
  {
    var words := WordsOf(p, w, fill);
    if |p| <= w {
      KeepsBytes(p, w, fill);
      assert (words + rest)[1..] == rest;
    } else {
      KeepsWord(p[..w], w);
      OnePacket(carried + p[..w], p[w..], w, fill, rest);
      assert (words + rest)[1..] == WordsOf(p[w..], w, fill) + rest;
      assert carried + p[..w] + p[w..] == carried + p;
    }
  }

  /** The packets of a stream are the packets it was made of, and all its words are well formed. */
  lemma {:induction false} PacketsOfStream(ps: seq<seq<Byte>>, w: nat, fill: Byte)
    requires w > 0 && forall i | 0 <= i < |ps| :: ps[i] != []
    ensures forall x | x in StreamOf(ps, w, fill) :: WellFormed(x, w)
    ensures Complete(StreamOf(ps, w, fill)) && Packets([], StreamOf(ps, w, fill)) == ps
    decreases ps
  {
    if ps != [] {
      PacketsOfStream(ps[1..], w, fill);
      OnePacket([], ps[0], w, fill, StreamOf(ps[1..], w, fill));
      assert [] + ps[0] == ps[0];
    }
  }

  // ---------- A machine between two FIFOs ----------

  /** hls::stream: an unbounded FIFO. */
  class Stream<T> {
    var queue: seq<T>

    constructor ()
      ensures queue == []
    {
      queue := [];
    }

    predicate Empty()
      reads this
    {
      queue == []
    }

    method Read() returns (x: T)
      requires queue != []
      modifies this
      ensures x == old(queue)[0] && queue == old(queue)[1..]
    {
      x := queue[0];
      queue := queue[1..];
    }

    method Write(x: T)
      modifies this
      ensures queue == old(queue) + [x]
    {
      queue := queue + [x];
    }
  }
}
