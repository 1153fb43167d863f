/** lshiftWordByOctet and rshiftWordByOctet of fpga-network-stack/hls/axi_utils.hpp: what they do to packets, and that
    they undo each other. */
module AxiShift {
  import opened Bytes
  import opened AxiWords
  import opened AxiMachines
  import opened AxiWidth
  import opened AxiWidthPackets

  // ---------- Keep fields ----------

  lemma KeepFacts(x: Word, w: nat)
    requires WellFormed(x, w)
    ensures forall i | 0 <= i < w :: x.keep[i] <==> i < Count(x.keep)
  {
    assert forall i | 0 <= i < w :: x.keep[i] == KeepOf(Count(x.keep), w)[i];
  }

  /** A word is determined to be well formed by where its keep bits stop. */
  lemma IsWellFormed(x: Word, w: nat, n: nat)
    requires HasWidth(x, w) && n <= w && forall i | 0 <= i < w :: x.keep[i] <==> i < n
    ensures Count(x.keep) == n && Kept(x) == x.data[..n]
    ensures WellFormed(x, w) <==> 0 < n && (!x.last ==> n == w)
  {
    CountIs(x.keep, n);
    assert x.keep == KeepOf(n, w);
  }

  lemma AnyKeptIs(x: Word, w: nat, from: nat)
    requires WellFormed(x, w) && from <= w
    ensures AnyKept(x.keep[from..]) <==> from < Count(x.keep)
  {
    KeepFacts(x, w);
    if from < Count(x.keep) {
      assert x.keep[from..][0];
    }
  }

  // ---------- Left shift ----------

  ghost function Prepended(offset: nat, ps: seq<seq<Byte>>): seq<seq<Byte>> {
    if ps == [] then [] else [Zeros(offset) + ps[0]] + Prepended(offset, ps[1..])
  }

  /** Between words: nothing carried over, or a full word of an unfinished packet. */
  ghost predicate BetweenWords(m: Machine, inC: seq<Byte>, outC: seq<Byte>) {
    && m.LShift? && Ok(m) && m.offset > 0 && !m.remainder
    && if m.first then inC == [] && outC == []
       else outC + m.prev.data[m.w - m.offset..] == Zeros(m.offset) + inC && forall i | 0 <= i < m.w :: m.prev.keep[i]
  }

  /** The effect on a stream: well formed and complete, and the packets with `offset` zero bytes in front. */
  ghost predicate LShifts(m: Machine, inC: seq<Byte>, outC: seq<Byte>, input: seq<Word>)
    requires m.LShift? && AllWellFormed(input, m.w)
  {
    && Fits(m, input) && AllWellFormed(Flush(m, input), m.w) && Complete(Flush(m, input))
    && (input != [] ==> Flush(m, input) != [])
    && Carries(outC, Flush(m, input), m.w) == Prepended(m.offset, Carries(inC, input, m.w))
  }

  /** A word that does not end its packet, or that overflows into a remainder: the written word is full. */
  lemma LFullWord(m: Machine, inC: seq<Byte>, outC: seq<Byte>, x: Word)
    requires BetweenWords(m, inC, outC) && m.offset <= 32 && WellFormed(x, m.w)
    requires m.w - m.offset < Count(x.keep)
    ensures var (m', outs) := LShiftStep(m, x);
      && |outs| == 1 && WellFormed(outs[0], m.w) && !outs[0].last && m'.prev == x && m'.first == x.last
           && m'.remainder == x.last
      && outC + Kept(outs[0]) + x.data[m.w - m.offset..] == Zeros(m.offset) + inC + x.data
  {
    var cut := m.w - m.offset;
    KeepFacts(x, m.w);
    AnyKeptIs(x, m.w, cut);
    var send := LShiftStep(m, x).1[0];
    forall i | 0 <= i < m.w ensures send.keep[i] {
      if i < m.offset {
        if !m.first { assert send.keep[i] == m.prev.keep[cut + i]; }
      } else {
        assert send.keep[i] == x.keep[i - m.offset];
      }
    }
    IsWellFormed(send, m.w, m.w);
    var head := if m.first then Zeros(m.offset) else m.prev.data[cut..];
    assert Kept(send) == head + x.data[..cut];
    FullBytes(outC, head, Zeros(m.offset) + inC, x.data, cut);
  }

  lemma LastBytes(outC: seq<Byte>, head: seq<Byte>, zeros: seq<Byte>, inC: seq<Byte>, kept: seq<Byte>)
    requires outC + head == zeros + inC
    ensures outC + (head + kept) == zeros + (inC + kept)
  {
    assert outC + (head + kept) == (outC + head) + kept;
  }

  lemma FullBytes(outC: seq<Byte>, head: seq<Byte>, before: seq<Byte>, data: seq<Byte>, cut: nat)
    requires outC + head == before && cut <= |data|
    ensures outC + (head + data[..cut]) + data[cut..] == before + data
  {
    assert outC + (head + data[..cut]) + data[cut..] == (outC + head) + (data[..cut] + data[cut..]);
    assert data[..cut] + data[cut..] == data;
  }

  /** The packet ends within this word. */
  lemma LLastWord(m: Machine, inC: seq<Byte>, outC: seq<Byte>, x: Word)
    requires BetweenWords(m, inC, outC) && m.offset <= 32 && WellFormed(x, m.w)
    requires Count(x.keep) <= m.w - m.offset
    ensures x.last
    ensures var (m', outs) := LShiftStep(m, x);
      && |outs| == 1 && WellFormed(outs[0], m.w) && outs[0].last && BetweenWords(m', [], [])
      && outC + Kept(outs[0]) == Zeros(m.offset) + (inC + Kept(x))
  {
    var cut, k := m.w - m.offset, Count(x.keep);
    KeepFacts(x, m.w);
    AnyKeptIs(x, m.w, cut);
    var send := LShiftStep(m, x).1[0];
    forall i | 0 <= i < m.w ensures send.keep[i] <==> i < m.offset + k {
      if i < m.offset {
        if !m.first { assert send.keep[i] == m.prev.keep[cut + i]; }
      } else {
        assert send.keep[i] == x.keep[i - m.offset];
      }
    }
    IsWellFormed(send, m.w, m.offset + k);
    var head := if m.first then Zeros(m.offset) else m.prev.data[cut..];
    assert Kept(send) == head + x.data[..k];
    LastBytes(outC, head, Zeros(m.offset), inC, x.data[..k]);
  }

  lemma LRemainderWord(m: Machine, x: Word)
    requires m.LShift? && Ok(m) && m.offset > 0 && m.remainder && m.first && m.prev == x && WellFormed(x, m.w)
    requires m.w - m.offset < Count(x.keep)
    ensures var (m', outs) := LShiftRemainder(m);
      && |outs| == 1 && WellFormed(outs[0], m.w) && outs[0].last && BetweenWords(m', [], [])
      && x.data[..m.w - m.offset] + Kept(outs[0]) == Kept(x)
  {
    var cut, k := m.w - m.offset, Count(x.keep);
    KeepFacts(x, m.w);
    var send := LShiftRemainder(m).1[0];
    forall i | 0 <= i < m.w ensures send.keep[i] <==> i < k - cut {
      if i < m.offset { assert send.keep[i] == x.keep[cut + i]; }
    }
    IsWellFormed(send, m.w, k - cut);
    assert x.data[..cut] + x.data[cut..k] == x.data[..k];
    assert send.data[..k - cut] == x.data[cut..k];
  }

  lemma LStepIs(m: Machine, x: Word, rest: seq<Word>)
    requires m.LShift? && Ok(m) && !m.remainder && AllWellFormed([x] + rest, m.w)
    ensures Fits(m, [x] + rest) && HasWidth(x, m.w)
    ensures var (m', outs) := LShiftStep(m, x); Fits(m', rest) && Flush(m, [x] + rest) == outs + Flush(m', rest)
  {
    AllWellFormedIsSound([x] + rest, m.w);
    assert ([x] + rest)[0] == x && ([x] + rest)[1..] == rest;
    FlushUnfold(m, [x] + rest);
  }

  lemma LRemainderIs(m: Machine, rest: seq<Word>)
    requires m.LShift? && Ok(m) && m.remainder && AllWellFormed(rest, m.w)
    ensures Fits(m, rest)
    ensures var (m', outs) := LShiftRemainder(m); Fits(m', rest) && Flush(m, rest) == outs + Flush(m', rest)
  {
    AllWellFormedIsSound(rest, m.w);
    FlushUnfold(m, rest);
  }

  lemma CompleteCons(outs: seq<Word>, more: seq<Word>)
    requires Complete(more) && outs != [] && (more == [] ==> outs[|outs| - 1].last)
    ensures Complete(outs + more)
  {
  }

  lemma LCaseLast(m: Machine, inC: seq<Byte>, outC: seq<Byte>, x: Word, rest: seq<Word>)
    requires BetweenWords(m, inC, outC) && m.offset <= 32 && AllWellFormed([x] + rest, m.w) && WellFormed(x, m.w)
        && AllWellFormed(rest, m.w)
    requires Count(x.keep) <= m.w - m.offset
    requires LShifts(LShiftStep(m, x).0, [], [], rest)
    ensures LShifts(m, inC, outC, [x] + rest)
  {
    LLastWord(m, inC, outC, x);
    LStepIs(m, x, rest);
    var (m', outs) := LShiftStep(m, x);
    var more := Flush(m', rest);
    hide Flush, LShiftStep, WellFormed, Fits, BetweenWords, Kept;
    assert outs == [outs[0]];
    CarriesOne(outC, outs[0], more, m.w);
    CarriesOne(inC, x, rest, m.w);
    CompleteCons(outs, more);
  }

  lemma LCaseMiddle(m: Machine, inC: seq<Byte>, outC: seq<Byte>, x: Word, rest: seq<Word>)
    requires BetweenWords(m, inC, outC) && m.offset <= 32 && AllWellFormed([x] + rest, m.w) && WellFormed(x, m.w)
        && AllWellFormed(rest, m.w)
    requires !x.last && rest != []
    requires LShifts(LShiftStep(m, x).0, inC + Kept(x), outC + Kept(LShiftStep(m, x).1[0]), rest)
    ensures LShifts(m, inC, outC, [x] + rest)
  {
    LFullWord(m, inC, outC, x);
    LStepIs(m, x, rest);
    var (m', outs) := LShiftStep(m, x);
    var more := Flush(m', rest);
    hide Flush, LShiftStep, WellFormed, Fits, BetweenWords, Kept;
    assert outs == [outs[0]];
    CarriesOne(outC, outs[0], more, m.w);
    CarriesOne(inC, x, rest, m.w);
    CompleteCons(outs, more);
  }

  /** A left-shifting machine that is not about to write a remainder. */
  ghost predicate LReady(m: Machine, offset: nat, w: nat) {
    m.LShift? && Ok(m) && !m.remainder && m.offset == offset && m.w == w
  }

  lemma LMiddleState(m: Machine, inC: seq<Byte>, outC: seq<Byte>, x: Word)
    requires m.LShift? && BetweenWords(m, inC, outC) && m.offset <= 32 && WellFormed(x, m.w) && !x.last
    ensures LReady(LShiftStep(m, x).0, m.offset, m.w)
    ensures BetweenWords(LShiftStep(m, x).0, inC + Kept(x), outC + Kept(LShiftStep(m, x).1[0]))
  {
    LFullWord(m, inC, outC, x);
    KeepFacts(x, m.w);
    assert Kept(x) == x.data;
    assert Zeros(m.offset) + inC + x.data == Zeros(m.offset) + (inC + x.data);
  }

  lemma LCaseOverflow(m: Machine, m': Machine, inC: seq<Byte>, outC: seq<Byte>, x: Word, rest: seq<Word>)
    requires BetweenWords(m, inC, outC) && m.offset <= 32 && AllWellFormed([x] + rest, m.w) && WellFormed(x, m.w)
        && AllWellFormed(rest, m.w)
    requires x.last && m.w - m.offset < Count(x.keep)
    requires m' == LShiftStep(m, x).0 && m'.LShift? && Ok(m') && m'.remainder
        && LShifts(LShiftRemainder(m').0, [], [], rest)
    ensures LShifts(m, inC, outC, [x] + rest)
  {
    LFullWord(m, inC, outC, x);
    LStepIs(m, x, rest);
    var outs := LShiftStep(m, x).1;
    LRemainderWord(m', x);
    LRemainderIs(m', rest);
    var (m'', rems) := LShiftRemainder(m');
    var more := Flush(m'', rest);
    OverflowBytes(m, inC, outC, x, outs[0], rems[0]);
    hide Flush, LShiftStep, LShiftRemainder, WellFormed, Fits, BetweenWords, Kept;
    assert outs == [outs[0]] && rems == [rems[0]];
    CarriesOne(outC + Kept(outs[0]), rems[0], more, m.w);
    CarriesOne(outC, outs[0], [rems[0]] + more, m.w);
    CarriesOne(inC, x, rest, m.w);
    CompleteCons(rems, more);
    CompleteCons(outs, rems + more);
  }

  lemma OverflowBytes(m: Machine, inC: seq<Byte>, outC: seq<Byte>, x: Word, full: Word, last: Word)
    requires m.LShift? && m.offset < m.w && HasWidth(x, m.w) && HasWidth(full, m.w) && HasWidth(last, m.w)
    requires outC + Kept(full) + x.data[m.w - m.offset..] == Zeros(m.offset) + inC + x.data
    requires x.data[..m.w - m.offset] + Kept(last) == Kept(x)
    ensures outC + Kept(full) + Kept(last) == Zeros(m.offset) + (inC + Kept(x))
  {
    var cut := m.w - m.offset;
    var a := outC + Kept(full);
    assert x.data == x.data[..cut] + x.data[cut..];
    assert Zeros(m.offset) + inC + x.data == (Zeros(m.offset) + inC + x.data[..cut]) + x.data[cut..];
    assert |a| == |Zeros(m.offset) + inC + x.data[..cut]|;
    assert a == (a + x.data[cut..])[..|a|];
    assert Zeros(m.offset) + inC + x.data[..cut] == ((Zeros(m.offset) + inC + x.data[..cut]) + x.data[cut..])[..|a|];
    assert a + Kept(last) == Zeros(m.offset) + (inC + (x.data[..cut] + Kept(last)));
  }

  /** Every packet of a well-formed stream comes out with `offset` zero bytes in front, ending with its own last
      word. */
  lemma {:induction false} LShiftPrepends(m: Machine, inC: seq<Byte>, outC: seq<Byte>, input: seq<Word>)
    requires m.LShift? && BetweenWords(m, inC, outC) && m.offset <= 32 && AllWellFormed(input, m.w) && Complete(input)
    ensures LShifts(m, inC, outC, input)
    decreases |input|, 0
  {
    if input != [] {
      var x, rest := input[0], input[1..];
      assert input == [x] + rest && WellFormed(x, m.w) && AllWellFormed(rest, m.w);
      RestIsComplete([], x, rest);
      assert [] + input == input;
      assert LReady(m, m.offset, m.w);
      CompleteEmpty(rest);
      assert [] + rest == rest;
      hide *;
      if !x.last {
        LGoOn(m, inC, outC, x, rest);
      } else {
        LWrapUp(m, inC, outC, x, rest);
      }
    }
  }

  lemma {:induction false} LGoOn(m: Machine, inC: seq<Byte>, outC: seq<Byte>, x: Word, rest: seq<Word>)
    requires m.LShift? && BetweenWords(m, inC, outC) && m.offset <= 32
    requires AllWellFormed([x] + rest, m.w) && WellFormed(x, m.w) && AllWellFormed(rest, m.w) && Complete(rest)
        && rest != [] && !x.last
    ensures LShifts(m, inC, outC, [x] + rest)
    decreases |rest|, 1
  {
    LMiddleState(m, inC, outC, x);
    hide Flush, LShifts, Kept, BetweenWords;
    LShiftPrepends(LShiftStep(m, x).0, inC + Kept(x), outC + Kept(LShiftStep(m, x).1[0]), rest);
    LCaseMiddle(m, inC, outC, x, rest);
  }

  lemma {:induction false} LWrapUp(m: Machine, inC: seq<Byte>, outC: seq<Byte>, x: Word, rest: seq<Word>)
    requires m.LShift? && BetweenWords(m, inC, outC) && m.offset <= 32
    requires AllWellFormed([x] + rest, m.w) && WellFormed(x, m.w) && AllWellFormed(rest, m.w) && Complete(rest)
        && x.last
    ensures LShifts(m, inC, outC, [x] + rest)
    decreases |rest|, 1
  {
    hide Flush, LShifts, Kept, Count;
    if Count(x.keep) <= m.w - m.offset {
      LLastWord(m, inC, outC, x);
      LShiftPrepends(LShiftStep(m, x).0, [], [], rest);
      LCaseLast(m, inC, outC, x, rest);
    } else {
      LFullWord(m, inC, outC, x);
      LRemainderWord(LShiftStep(m, x).0, x);
      LShiftPrepends(LShiftRemainder(LShiftStep(m, x).0).0, [], [], rest);
      LCaseOverflow(m, LShiftStep(m, x).0, inC, outC, x, rest);
    }
  }

  /** The keep bits of the padding come from a 32-bit constant: the output is well formed exactly for offsets up to
      32. */
  lemma LShiftNeedsOffset32(m: Machine, input: seq<Word>)
    requires m.LShift? && BetweenWords(m, [], []) && m.first && AllWellFormed(input, m.w) && Complete(input)
        && input != []
    ensures Fits(m, input) && (AllWellFormed(Flush(m, input), m.w) <==> m.offset <= 32)
  {
    if m.offset <= 32 {
      LShiftPrepends(m, [], [], input);
    } else {
      var x, rest := input[0], input[1..];
      assert input == [x] + rest && WellFormed(x, m.w);
      LStepIs(m, x, rest);
      KeepFacts(x, m.w);
      var send := LShiftStep(m, x).1[0];
      assert Flush(m, input)[0] == send;
      assert send.keep[m.offset] == x.keep[0] && !send.keep[32];
      if WellFormed(send, m.w) {
        KeepFacts(send, m.w);
      }
    }
  }

  // ---------- Right shift ----------

  function Trim(offset: nat, p: seq<Byte>): seq<Byte> {
    if offset <= |p| then p[offset..] else []
  }

  ghost function Trimmed(offset: nat, ps: seq<seq<Byte>>): seq<seq<Byte>> {
    if ps == [] then [] else [Trim(offset, ps[0])] + Trimmed(offset, ps[1..])
  }

  ghost predicate LongerThan(offset: nat, ps: seq<seq<Byte>>) {
    ps == [] || (offset < |ps[0]| && LongerThan(offset, ps[1..]))
  }

  /** Between words: nothing carried over, or a full word of an unfinished packet whose first `offset` bytes are not to
      be written. */
  ghost predicate RBetweenWords(m: Machine, inC: seq<Byte>, outC: seq<Byte>) {
    && m.RShift? && Ok(m) && m.offset > 0 && !m.remainder
    && if m.first then inC == [] && outC == []
       else
         && |inC| > m.offset && outC + m.prev.data[m.offset..] == Trim(m.offset, inC)
         && forall i | 0 <= i < m.w :: m.prev.keep[i]
  }

  /** The output is well formed exactly if every packet is longer than the offset, and then each has lost its first
      `offset` bytes. */
  ghost predicate RShifts(m: Machine, inC: seq<Byte>, outC: seq<Byte>, input: seq<Word>)
    requires m.RShift? && AllWellFormed(input, m.w)
  {
    && Fits(m, input)
    && (AllWellFormed(Flush(m, input), m.w) <==> LongerThan(m.offset, Carries(inC, input, m.w)))
    && (AllWellFormed(Flush(m, input), m.w) ==>
          && Complete(Flush(m, input)) && (input != [] ==> Flush(m, input) != [])
          && Carries(outC, Flush(m, input), m.w) == Trimmed(m.offset, Carries(inC, input, m.w)))
  }

  ghost predicate RReady(m: Machine, offset: nat, w: nat) {
    m.RShift? && Ok(m) && !m.remainder && m.offset == offset && m.w == w
  }

  /** prev's top bytes followed by x's first ones: a full word unless the packet ends inside it. */
  lemma RSendWord(m: Machine, inC: seq<Byte>, outC: seq<Byte>, x: Word)
    requires m.RShift? && RBetweenWords(m, inC, outC) && !m.first && WellFormed(x, m.w)
    ensures var send := Word(m.prev.data[m.offset..] + x.data[..m.offset], m.prev.keep[m.offset..] + x.keep[..m.offset],
                             !AnyKept(x.keep[m.offset..]));
      && WellFormed(send, m.w) && (send.last <==> Count(x.keep) <= m.offset)
      && (if send.last then outC + Kept(send) == Trim(m.offset, inC + Kept(x))
          else outC + Kept(send) + x.data[m.offset..] == Trim(m.offset, inC + x.data))
  {
    var k := Count(x.keep);
    var send := Word(m.prev.data[m.offset..] + x.data[..m.offset], m.prev.keep[m.offset..] + x.keep[..m.offset],
                     !AnyKept(x.keep[m.offset..]));
    KeepFacts(x, m.w);
    AnyKeptIs(x, m.w, m.offset);
    var n := if k <= m.offset then m.w - m.offset + k else m.w;
    forall i | 0 <= i < m.w ensures send.keep[i] <==> i < n {
      if i < m.w - m.offset {
        assert send.keep[i] == m.prev.keep[m.offset + i];
      } else {
        assert send.keep[i] == x.keep[i - (m.w - m.offset)];
      }
    }
    IsWellFormed(send, m.w, n);
    var head := m.prev.data[m.offset..];
    if send.last {
      assert Kept(send) == head + x.data[..k];
      TrimAppend(outC, head, inC, x.data[..k], m.offset);
    } else {
      assert Kept(send) == head + x.data[..m.offset];
      TrimAppend(outC, head, inC, x.data, m.offset);
      assert outC + (head + x.data[..m.offset]) + x.data[m.offset..]
          == outC + (head + (x.data[..m.offset] + x.data[m.offset..]));
      assert x.data[..m.offset] + x.data[m.offset..] == x.data;
    }
  }

  lemma TrimAppend(outC: seq<Byte>, head: seq<Byte>, inC: seq<Byte>, more: seq<Byte>, offset: nat)
    requires outC + head == Trim(offset, inC) && |inC| > offset
    ensures outC + (head + more) == Trim(offset, inC + more)
  {
    assert outC + (head + more) == (outC + head) + more;
    assert (inC + more)[offset..] == inC[offset..] + more;
  }

  lemma RStepIs(m: Machine, x: Word, rest: seq<Word>)
    requires m.RShift? && Ok(m) && !m.remainder && AllWellFormed([x] + rest, m.w)
    ensures Fits(m, [x] + rest) && HasWidth(x, m.w)
    ensures var (m', outs) := RShiftStep(m, x); Fits(m', rest) && Flush(m, [x] + rest) == outs + Flush(m', rest)
  {
    AllWellFormedIsSound([x] + rest, m.w);
    assert ([x] + rest)[0] == x && ([x] + rest)[1..] == rest;
    FlushUnfold(m, [x] + rest);
  }

  lemma RRemainderIs(m: Machine, rest: seq<Word>)
    requires m.RShift? && Ok(m) && m.remainder && AllWellFormed(rest, m.w)
    ensures Fits(m, rest)
    ensures var (m', outs) := RShiftRemainder(m); Fits(m', rest) && Flush(m, rest) == outs + Flush(m', rest)
  {
    AllWellFormedIsSound(rest, m.w);
    FlushUnfold(m, rest);
  }

  // The packet goes on.

  ghost function WrittenBytes(outs: seq<Word>): seq<Byte>
    requires Sound(outs) && |outs| <= 1
  {
    if outs == [] then [] else Kept(outs[0])
  }

  lemma RMiddleState(m: Machine, inC: seq<Byte>, outC: seq<Byte>, x: Word)
    requires m.RShift? && RBetweenWords(m, inC, outC) && WellFormed(x, m.w) && !x.last
    ensures var (m', outs) := RShiftStep(m, x);
      && RReady(m', m.offset, m.w) && |outs| <= 1 && AllWellFormed(outs, m.w)
           && (forall i | 0 <= i < |outs| :: !outs[i].last)
      && Sound(outs) && RBetweenWords(m', inC + Kept(x), outC + WrittenBytes(outs)) && !m'.first
  {
    KeepFacts(x, m.w);
    assert Kept(x) == x.data;
    var outs := RShiftStep(m, x).1;
    if m.first {
      assert inC + x.data == x.data;
      assert outC + WrittenBytes(outs) + x.data[m.offset..] == x.data[m.offset..];
    } else {
      RSendWord(m, inC, outC, x);
      assert outs == [outs[0]];
    }
  }

  lemma CarriesFull(c: seq<Byte>, outs: seq<Word>, more: seq<Word>, w: nat)
    requires |outs| <= 1 && AllWellFormed(outs, w)
        && (forall i | 0 <= i < |outs| :: !outs[i].last) && Sound(outs) && AllWellFormed(more, w)
    ensures AllWellFormed(outs + more, w) && Carries(c, outs + more, w) == Carries(c + WrittenBytes(outs), more, w)
  {
    if outs == [] {
      assert outs + more == more && c + WrittenBytes(outs) == c;
    } else {
      assert outs == [outs[0]];
      CarriesOne(c, outs[0], more, w);
    }
  }

  lemma WellFormedParts(a: seq<Word>, b: seq<Word>, w: nat)
    ensures AllWellFormed(a + b, w) <==> AllWellFormed(a, w) && AllWellFormed(b, w)
  {
    if AllWellFormed(a + b, w) {
      forall i | 0 <= i < |a| ensures WellFormed(a[i], w) { assert (a + b)[i] == a[i]; }
      forall i | 0 <= i < |b| ensures WellFormed(b[i], w) { assert (a + b)[|a| + i] == b[i]; }
    }
  }

  lemma RCaseMiddle(m: Machine, inC: seq<Byte>, outC: seq<Byte>, x: Word, rest: seq<Word>)
    requires m.RShift? && RBetweenWords(m, inC, outC) && AllWellFormed([x] + rest, m.w) && WellFormed(x, m.w)
        && AllWellFormed(rest, m.w)
    requires !x.last && rest != []
    requires var (m', outs) := RShiftStep(m, x);
      RReady(m', m.offset, m.w) && Sound(outs) && |outs| <= 1
          && RShifts(m', inC + Kept(x), outC + WrittenBytes(outs), rest)
    ensures RShifts(m, inC, outC, [x] + rest)
  {
    RMiddleState(m, inC, outC, x);
    RStepIs(m, x, rest);
    var (m', outs) := RShiftStep(m, x);
    var more := Flush(m', rest);
    hide Flush, RShiftStep, WellFormed, Fits, RBetweenWords, Kept, WrittenBytes, Trimmed, LongerThan;
    WellFormedParts(outs, more, m.w);
    CarriesOne(inC, x, rest, m.w);
    if AllWellFormed(more, m.w) {
      CarriesFull(outC, outs, more, m.w);
      CompleteAppend(outs, more);
    }
  }

  lemma CompleteAppend(outs: seq<Word>, more: seq<Word>)
    requires Complete(more) && more != []
    ensures Complete(outs + more) && outs + more != []
  {
  }

  // The packet ends inside the word that x completes.

  lemma RCaseLast(m: Machine, inC: seq<Byte>, outC: seq<Byte>, x: Word, rest: seq<Word>)
    requires m.RShift? && RBetweenWords(m, inC, outC) && AllWellFormed([x] + rest, m.w) && WellFormed(x, m.w)
        && AllWellFormed(rest, m.w)
    requires x.last && !m.first && Count(x.keep) <= m.offset
    requires RReady(RShiftStep(m, x).0, m.offset, m.w) && RShifts(RShiftStep(m, x).0, [], [], rest)
    ensures RShifts(m, inC, outC, [x] + rest)
  {
    RSendWord(m, inC, outC, x);
    RStepIs(m, x, rest);
    var (m', outs) := RShiftStep(m, x);
    var more := Flush(m', rest);
    LastLonger(m.offset, inC, Kept(x), Carries([], rest, m.w));
    hide Flush, RShiftStep, WellFormed, Fits, RBetweenWords, Kept, Trimmed, LongerThan;
    assert outs == [outs[0]];
    WellFormedParts(outs, more, m.w);
    CarriesOne(inC, x, rest, m.w);
    if AllWellFormed(more, m.w) {
      CarriesOne(outC, outs[0], more, m.w);
      CompleteCons(outs, more);
    }
  }

  lemma LastLonger(offset: nat, inC: seq<Byte>, kept: seq<Byte>, later: seq<seq<Byte>>)
    ensures LongerThan(offset, [inC + kept] + later) <==> offset < |inC + kept| && LongerThan(offset, later)
    ensures Trimmed(offset, [inC + kept] + later) == [Trim(offset, inC + kept)] + Trimmed(offset, later)
  {
    assert ([inC + kept] + later)[1..] == later;
  }

  // A remainder follows.

  lemma RRemainderWord(m: Machine, x: Word)
    requires m.RShift? && Ok(m) && m.offset > 0 && m.remainder && m.first && m.prev == x && WellFormed(x, m.w)
    ensures var (m', outs) := RShiftRemainder(m);
      && |outs| == 1 && outs[0].last && RReady(m', m.offset, m.w) && RBetweenWords(m', [], [])
      && (WellFormed(outs[0], m.w) <==> m.offset < Count(x.keep))
      && (m.offset < Count(x.keep) ==> Kept(outs[0]) == x.data[m.offset..Count(x.keep)])
  {
    var k := Count(x.keep);
    var n := if m.offset < k then k - m.offset else 0;
    KeepFacts(x, m.w);
    var send := RShiftRemainder(m).1[0];
    forall i | 0 <= i < m.w ensures send.keep[i] <==> i < n {
      if i < m.w - m.offset { assert send.keep[i] == x.keep[m.offset + i]; }
    }
    IsWellFormed(send, m.w, n);
  }

  /** What is written before the remainder, and the packet's bytes when the remainder is added. */
  lemma RBeforeRemainder(m: Machine, inC: seq<Byte>, outC: seq<Byte>, x: Word)
    requires m.RShift? && RBetweenWords(m, inC, outC) && WellFormed(x, m.w) && x.last
        && (m.first || m.offset < Count(x.keep))
    ensures var (m', outs) := RShiftStep(m, x);
      && m'.RShift? && Ok(m') && m'.offset == m.offset && m'.w == m.w && m'.remainder && m'.first && m'.prev == x
      && |outs| <= 1 && AllWellFormed(outs, m.w) && (forall i | 0 <= i < |outs| :: !outs[i].last) && Sound(outs)
      && (m.offset < |inC + Kept(x)| <==> m.offset < Count(x.keep))
      && (m.offset < Count(x.keep) ==>
          outC + WrittenBytes(outs) + x.data[m.offset..Count(x.keep)] == Trim(m.offset, inC + Kept(x)))
  {
    KeepFacts(x, m.w);
    var k := Count(x.keep);
    var outs := RShiftStep(m, x).1;
    if m.first {
      assert inC + Kept(x) == x.data[..k];
    } else {
      RSendWord(m, inC, outC, x);
      assert outs == [outs[0]];
      TrimPrefix(outC + Kept(outs[0]), inC, x.data, m.offset, k);
    }
  }

  lemma TrimPrefix(a: seq<Byte>, inC: seq<Byte>, data: seq<Byte>, offset: nat, k: nat)
    requires offset < k <= |data| && offset < |inC| && a + data[offset..] == Trim(offset, inC + data)
    ensures a + data[offset..k] == Trim(offset, inC + data[..k])
  {
    assert |a| == |inC|;
    var left, right := a + data[offset..k], Trim(offset, inC + data[..k]);
    assert |left| == |right|;
    forall i | 0 <= i < |left| ensures left[i] == right[i] {
      assert left[i] == (a + data[offset..])[i] == (inC + data)[offset + i] == right[i];
    }
  }

  lemma RCaseRemainder(m: Machine, m': Machine, inC: seq<Byte>, outC: seq<Byte>, x: Word, rest: seq<Word>)
    requires m.RShift? && RBetweenWords(m, inC, outC) && AllWellFormed([x] + rest, m.w) && WellFormed(x, m.w)
        && AllWellFormed(rest, m.w)
    requires x.last && (m.first || m.offset < Count(x.keep))
    requires m' == RShiftStep(m, x).0 && m'.RShift? && Ok(m') && m'.remainder
    requires RReady(RShiftRemainder(m').0, m.offset, m.w) && RShifts(RShiftRemainder(m').0, [], [], rest)
    ensures RShifts(m, inC, outC, [x] + rest)
  {
    RBeforeRemainder(m, inC, outC, x);
    RStepIs(m, x, rest);
    RRemainderWord(m', x);
    RRemainderIs(m', rest);
    var outs := RShiftStep(m, x).1;
    var (m'', rems) := RShiftRemainder(m');
    var more := Flush(m'', rest);
    LastLonger(m.offset, inC, Kept(x), Carries([], rest, m.w));
    hide Flush, RShiftStep, RShiftRemainder, WellFormed, Fits, RBetweenWords, Kept, Trimmed, LongerThan, WrittenBytes;
    assert rems == [rems[0]];
    WellFormedParts(rems, more, m.w);
    WellFormedParts(outs, rems + more, m.w);
    CarriesOne(inC, x, rest, m.w);
    if AllWellFormed(rems + more, m.w) {
      assert WellFormed(rems[0], m.w);
      CarriesFull(outC, outs, rems + more, m.w);
      CarriesOne(outC + WrittenBytes(outs), rems[0], more, m.w);
      CompleteCons(rems, more);
      CompleteAppend(outs, rems + more);
    }
  }

  /** Every packet longer than the offset loses exactly its first `offset` bytes; a shorter one makes the output
      malformed. */
  lemma {:induction false} RShiftTrims(m: Machine, inC: seq<Byte>, outC: seq<Byte>, input: seq<Word>)
    requires m.RShift? && RBetweenWords(m, inC, outC) && AllWellFormed(input, m.w) && Complete(input)
    ensures RShifts(m, inC, outC, input)
    decreases |input|, 0
  {
    if input != [] {
      var x, rest := input[0], input[1..];
      assert input == [x] + rest && WellFormed(x, m.w) && AllWellFormed(rest, m.w);
      RestIsComplete([], x, rest);
      assert [] + input == input;
      CompleteEmpty(rest);
      assert [] + rest == rest;
      hide *;
      if !x.last {
        RGoOn(m, inC, outC, x, rest);
      } else {
        RWrapUp(m, inC, outC, x, rest);
      }
    }
  }

  lemma {:induction false} RGoOn(m: Machine, inC: seq<Byte>, outC: seq<Byte>, x: Word, rest: seq<Word>)
    requires m.RShift? && RBetweenWords(m, inC, outC)
    requires AllWellFormed([x] + rest, m.w) && WellFormed(x, m.w) && AllWellFormed(rest, m.w) && Complete(rest)
        && rest != [] && !x.last
    ensures RShifts(m, inC, outC, [x] + rest)
    decreases |rest|, 1
  {
    RMiddleState(m, inC, outC, x);
    hide Flush, RShifts, Kept, RBetweenWords, WrittenBytes;
    var (m', outs) := RShiftStep(m, x);
    RShiftTrims(m', inC + Kept(x), outC + WrittenBytes(outs), rest);
    RCaseMiddle(m, inC, outC, x, rest);
  }

  lemma {:induction false} RWrapUp(m: Machine, inC: seq<Byte>, outC: seq<Byte>, x: Word, rest: seq<Word>)
    requires m.RShift? && RBetweenWords(m, inC, outC)
    requires AllWellFormed([x] + rest, m.w) && WellFormed(x, m.w) && AllWellFormed(rest, m.w) && Complete(rest)
        && x.last
    ensures RShifts(m, inC, outC, [x] + rest)
    decreases |rest|, 1
  {
    if !m.first && Count(x.keep) <= m.offset {
      RSendWord(m, inC, outC, x);
      hide Flush, RShifts, Kept, Count;
      assert RReady(RShiftStep(m, x).0, m.offset, m.w) && RBetweenWords(RShiftStep(m, x).0, [], []);
      RShiftTrims(RShiftStep(m, x).0, [], [], rest);
      RCaseLast(m, inC, outC, x, rest);
    } else {
      RBeforeRemainder(m, inC, outC, x);
      RRemainderWord(RShiftStep(m, x).0, x);
      hide Flush, RShifts, Kept, Count;
      RShiftTrims(RShiftRemainder(RShiftStep(m, x).0).0, [], [], rest);
      RCaseRemainder(m, RShiftStep(m, x).0, inC, outC, x, rest);
    }
  }

  // ---------- Left, then right ----------

  ghost predicate NoneEmpty(ps: seq<seq<Byte>>) {
    ps == [] || (ps[0] != [] && NoneEmpty(ps[1..]))
  }

  lemma {:induction false} PacketsNotEmpty(c: seq<Byte>, input: seq<Word>, w: nat)
    requires AllWellFormed(input, w)
    ensures NoneEmpty(Carries(c, input, w))
    decreases |input|
  {
    if input != [] {
      var x, rest := input[0], input[1..];
      assert input == [x] + rest && WellFormed(x, w);
      assert AllWellFormed(rest, w);
      CarriesOne(c, x, rest, w);
      if x.last {
        PacketsNotEmpty([], rest, w);
        var later := Carries([], rest, w);
        assert ([c + Kept(x)] + later)[1..] == later;
      } else {
        PacketsNotEmpty(c + Kept(x), rest, w);
      }
    }
  }

  lemma {:induction false} TrimUndoesPrepend(offset: nat, ps: seq<seq<Byte>>)
    requires NoneEmpty(ps)
    ensures LongerThan(offset, Prepended(offset, ps)) && Trimmed(offset, Prepended(offset, ps)) == ps
    decreases |ps|
  {
    if ps != [] {
      TrimUndoesPrepend(offset, ps[1..]);
      var out := Prepended(offset, ps);
      assert out[1..] == Prepended(offset, ps[1..]) && Trim(offset, out[0]) == ps[0];
    }
  }

  /** Shifting left and then right by the same amount gives back the packets; nothing leaks from one packet into the
      next. */
  lemma RShiftUndoesLShift(l: Machine, r: Machine, input: seq<Word>)
    requires l.LShift? && BetweenWords(l, [], []) && l.offset <= 32
    requires r.RShift? && RBetweenWords(r, [], []) && r.offset == l.offset && r.w == l.w
    requires AllWellFormed(input, l.w) && Complete(input)
    ensures Fits(l, input) && Fits(r, Flush(l, input))
    ensures var out := Flush(r, Flush(l, input));
      AllWellFormed(out, l.w) && Complete(out) && Carries([], out, l.w) == Carries([], input, l.w)
  {
    LShiftPrepends(l, [], [], input);
    var middle := Flush(l, input);
    PacketsNotEmpty([], input, l.w);
    TrimUndoesPrepend(l.offset, Carries([], input, l.w));
    RShiftTrims(r, [], [], middle);
  }

  /** The same two machines as stages of a pipeline, under any schedule. */
  lemma ShiftRoundTrip(l: Machine, r: Machine, input: seq<Word>, schedule: seq<Event>)
    requires l.LShift? && BetweenWords(l, [], []) && l.offset <= 32
    requires r.RShift? && RBetweenWords(r, [], []) && r.offset == l.offset && r.w == l.w
    requires AllWellFormed(input, l.w) && Complete(input)
    ensures var s := System(input, Stage([], l, Stage([], r, End([]))));
      && SystemOk(s, l.w)
      && (Drained(Run(s, l.w, schedule), l.w) ==>
            var out := Written(Run(s, l.w, schedule).line);
            AllWellFormed(out, l.w) && Complete(out) && Carries([], out, l.w) == Carries([], input, l.w))
  {
    ShiftTotal(l, r, input);
    hide *;
    AnySchedule(System(input, Stage([], l, Stage([], r, End([])))), l.w, schedule);
  }

  lemma ShiftTotal(l: Machine, r: Machine, input: seq<Word>)
    requires l.LShift? && BetweenWords(l, [], []) && l.offset <= 32
    requires r.RShift? && RBetweenWords(r, [], []) && r.offset == l.offset && r.w == l.w
    requires AllWellFormed(input, l.w) && Complete(input)
    ensures SystemOk(System(input, Stage([], l, Stage([], r, End([])))), l.w)
    ensures var out := Total(Stage([], l, Stage([], r, End([]))), l.w, input);
      AllWellFormed(out, l.w) && Complete(out) && Carries([], out, l.w) == Carries([], input, l.w)
  {
    RShiftUndoesLShift(l, r, input);
    AllWellFormedIsSound(input, l.w);
    assert LineOk(End([]), OutWidth(r)) && LineOk(Stage([], r, End([])), OutWidth(l));
    assert [] + input == input;
    var middle := Flush(l, input);
    assert [] + middle == middle;
    FlushFits(l, input);
    hide Flush, Carries, AllWellFormed, Complete;
    var out := Flush(r, middle);
    assert [] + out == out;
    assert Total(Stage([], r, End([])), OutWidth(l), middle) == out;
  }

  /** With offset 0 both machines pass the words through. */
  lemma {:induction false} OffsetZeroIsIdentity(m: Machine, input: seq<Word>)
    requires (m.LShift? || m.RShift?) && Fits(m, input) && m.offset == 0 && (m.RShift? ==> !m.first)
    ensures Flush(m, input) == input
    decreases |input|
  {
    if input != [] {
      StepFacts(m, input);
      FlushUnfold(m, input);
      OffsetZeroIsIdentity(Step(m, input).0, input[1..]);
      assert [input[0]] + input[1..] == input;
    }
  }
}
