/** increaseStreamWidth and reduceStreamWidth of fpga-network-stack/hls/axi_utils.hpp are inverse and keep the
    packets. */
module AxiWidth {
  import opened Bytes
  import opened Arith
  import opened AxiWords
  import opened AxiMachines

  /** The j-th lane of w positions. */
  function Lane<T>(x: seq<T>, d: nat, w: nat, j: nat): (r: seq<T>)
    requires |x| == w * d && j < d
    ensures |r| == w
  {
    LaneFits(d, w, j);
    x[w * j..w * j + w]
  }

  /** The lowest lanes of the wide word t are `words`; above them nothing is kept. */
  ghost predicate Holds(t: Word, d: nat, w: nat, words: seq<Word>) {
    && HasWidth(t, w * d) && |words| <= d
    && (forall j | 0 <= j < |words| :: Lane(t.data, d, w, j) == words[j].data && Lane(t.keep, d, w, j) == words[j].keep)
    && (forall i | w * |words| <= i < w * d :: !t.keep[i])
  }

  /** Words that may share a wide word: only the final one may end a packet. */
  ghost predicate Group(words: seq<Word>, w: nat) {
    && (forall j | 0 <= j < |words| :: WellFormed(words[j], w))
    && (forall j | 0 <= j < |words| - 1 :: !words[j].last)
  }

  lemma LanesInOrder(d: nat, w: nat, j: nat, k: nat)
    requires j < k <= d
    ensures 0 <= w * j && w * j + w <= w * k && w * k <= w * d
  {
    BlocksInOrder(j, k, w);
    MulMonotone(k, d, w);
    assert w * j == j * w && w * k == k * w && w * d == d * w;
  }

  lemma HoldsMore(t: Word, d: nat, w: nat, words: seq<Word>, x: Word)
    requires Holds(t, d, w, words) && |words| < d && HasWidth(x, w)
    ensures 0 <= w * |words| && w * |words| + w <= w * d
    ensures Holds(Word(Splice(t.data, w * |words|, x.data), Splice(t.keep, w * |words|, x.keep), x.last), d, w,
                  words + [x])
  {
    LanesInOrder(d, w, |words|, d);
    LanesInOrder(d, w, |words|, |words| + 1);
    var t' := Word(Splice(t.data, w * |words|, x.data), Splice(t.keep, w * |words|, x.keep), x.last);
    forall j | 0 <= j < |words| + 1
      ensures Lane(t'.data, d, w, j) == (words + [x])[j].data && Lane(t'.keep, d, w, j) == (words + [x])[j].keep
    {
      LaneFits(d, w, j);
      if j < |words| {
        LanesInOrder(d, w, j, |words|);
        assert Lane(t.data, d, w, j) == words[j].data && Lane(t.keep, d, w, j) == words[j].keep;
        assert Lane(t'.data, d, w, j) == Lane(t.data, d, w, j);
        assert Lane(t'.keep, d, w, j) == Lane(t.keep, d, w, j);
      }
    }
    MulStep(|words|, w);
    assert w * (|words| + 1) == w * |words| + w;
  }

  lemma LaneShift<T>(x: seq<T>, y: seq<T>, d: nat, w: nat, j: nat)
    requires |x| == |y| == w * d && j + 1 < d && w <= w * d
    requires y[..w * d - w] == x[w..]
    ensures Lane(y, d, w, j) == Lane(x, d, w, j + 1)
  {
    LanesInOrder(d, w, j, j + 1);
    LaneFits(d, w, j + 1);
    MulStep(j, w);
    assert w * (j + 1) == w * j + w;
    forall i | 0 <= i < w ensures Lane(y, d, w, j)[i] == Lane(x, d, w, j + 1)[i] {
      assert y[w * j + i] == y[..w * d - w][w * j + i] == x[w..][w * j + i];
    }
  }

  /** Dropping the lowest lane. */
  lemma HoldsFewer(t: Word, d: nat, w: nat, words: seq<Word>)
    requires Holds(t, d, w, words) && words != []
    ensures Holds(ShiftDown(t, d, w), d, w, words[1..])
  {
    LaneFits(d, w, 0);
    var t' := ShiftDown(t, d, w);
    assert t'.data[..w * d - w] == t.data[w..] && t'.keep[..w * d - w] == t.keep[w..];
    forall j | 0 <= j < |words| - 1
      ensures Lane(t'.data, d, w, j) == words[1..][j].data && Lane(t'.keep, d, w, j) == words[1..][j].keep
    {
      LaneShift(t.data, t'.data, d, w, j);
      LaneShift(t.keep, t'.keep, d, w, j);
      assert Lane(t.data, d, w, j + 1) == words[j + 1].data;
    }
    MulStep(|words| - 1, w);
    assert w * (|words| - 1) == w * |words| - w;
    forall i | w * |words[1..]| <= i < w * d ensures !t'.keep[i] {
      if i < w * d - w {
        assert t'.keep[i] == t.keep[w..][i] == t.keep[w + i];
      }
    }
  }

  /** The lowest word, and whether there is another one above it. */
  lemma LowestWord(t: Word, d: nat, w: nat, words: seq<Word>)
    requires Holds(t, d, w, words) && Group(words, w) && words != [] && w > 0 && d >= 2
    ensures w < w * d
    ensures t.data[..w] == words[0].data && t.keep[..w] == words[0].keep
    ensures t.keep[w] <==> |words| > 1
  {
    LaneFits(d, w, 1);
    LaneFits(d, w, 0);
    assert w * 0 == 0 && w * 1 == w;
    assert Lane(t.data, d, w, 0) == words[0].data && Lane(t.keep, d, w, 0) == words[0].keep;
    if |words| > 1 {
      assert Lane(t.keep, d, w, 1) == words[1].keep;
      assert WellFormed(words[1], w) && words[1].keep[0];
      assert Lane(t.keep, d, w, 1)[0] == t.keep[w];
    }
  }

  // ---------- Narrowing one wide word ----------

  /** A machine that has `words` left in its register and has already written `m.count` of the wide word. */
  ghost predicate Emitting(m: Machine, words: seq<Word>) {
    && m.Narrow? && Ok(m) && m.second
    && Holds(m.cur, m.d, m.w, words) && Group(words, m.w) && words != []
    && m.count + |words| <= m.d
    && (m.count + |words| < m.d ==> words[|words| - 1].last)
    && m.cur.last == words[|words| - 1].last
  }

  ghost predicate Idle(m: Machine, d: nat, w: nat) {
    m.Narrow? && Ok(m) && !m.second && m.d == d && m.w == w
  }

  lemma EmitsOne(m: Machine, words: seq<Word>, rest: seq<Word>)
    requires Emitting(m, words) && AllWidth(rest, m.w * m.d)
    ensures Fits(m, rest) && !Stalled(m, rest)
    ensures var (m', rest', outs) := Step(m, rest);
      && rest' == rest && outs == [words[0]] && m'.Narrow? && m'.d == m.d && m'.w == m.w
      && if |words| > 1 then Emitting(m', words[1..]) else Idle(m', m.d, m.w)
  {
    LowestWord(m.cur, m.d, m.w, words);
    HoldsFewer(m.cur, m.d, m.w, words);
    StepFacts(m, rest);
  }

  /** With `rest` still to come, m writes `words` and then behaves like m'. */
  ghost predicate Emits(m: Machine, m': Machine, words: seq<Word>, input: seq<Word>, rest: seq<Word>) {
    Fits(m, input) && Fits(m', rest) && Flush(m, input) == words + Flush(m', rest)
  }

  lemma EmitsThen(m: Machine, m': Machine, m'': Machine, words: seq<Word>, input: seq<Word>, rest: seq<Word>)
    requires words != [] && Emits(m, m', [words[0]], input, rest) && Emits(m', m'', words[1..], rest, rest)
    ensures Emits(m, m'', words, input, rest)
  {
    hide Flush;
    assert [words[0]] + (words[1..] + Flush(m'', rest)) == words + Flush(m'', rest);
  }

  lemma {:induction false} EmitsRest(m: Machine, words: seq<Word>, rest: seq<Word>) returns (m': Machine)
    requires Emitting(m, words) && words != [] && AllWidth(rest, m.w * m.d)
    ensures Idle(m', m.d, m.w) && Emits(m, m', words, rest, rest)
    decreases |words|
  {
    EmitsOne(m, words, rest);
    hide *;
    FlushUnfold(m, rest);
    var next := Step(m, rest).0;
    OneEmitted(m, next, words[0], rest, rest);
    if |words| > 1 {
      m' := EmitsRest(next, words[1..], rest);
      EmitsThen(m, next, m', words, rest, rest);
    } else {
      m' := next;
      assert words == [words[0]];
    }
  }

  lemma OneEmitted(m: Machine, m': Machine, x: Word, input: seq<Word>, rest: seq<Word>)
    requires Fits(m, input) && Fits(m', rest) && Flush(m, input) == [x] + Flush(m', rest)
    ensures Emits(m, m', [x], input, rest)
  {
  }

  lemma EmitsFirst(m: Machine, t: Word, words: seq<Word>, rest: seq<Word>)
    requires m.Narrow? && Idle(m, m.d, m.w) && AllWidth(rest, m.w * m.d)
    requires Holds(t, m.d, m.w, words) && Group(words, m.w) && words != []
    requires |words| < m.d ==> words[|words| - 1].last
    requires t.last == words[|words| - 1].last
    ensures Fits(m, [t] + rest) && !Stalled(m, [t] + rest)
    ensures var (m', rest', outs) := Step(m, [t] + rest);
      && rest' == rest && outs == [words[0]] && m'.Narrow? && m'.d == m.d && m'.w == m.w
      && if |words| > 1 then Emitting(m', words[1..]) else Idle(m', m.d, m.w)
  {
    LowestWord(t, m.d, m.w, words);
    HoldsFewer(t, m.d, m.w, words);
    var input := [t] + rest;
    assert input[0] == t && input[1..] == rest;
    StepFacts(m, input);
  }

  /** A wide word that holds a group is cut back into exactly that group. */
  lemma EmitsGroup(m: Machine, t: Word, words: seq<Word>, rest: seq<Word>) returns (m': Machine)
    requires m.Narrow? && Idle(m, m.d, m.w) && AllWidth(rest, m.w * m.d)
    requires Holds(t, m.d, m.w, words) && Group(words, m.w) && words != []
    requires |words| < m.d ==> words[|words| - 1].last
    requires t.last == words[|words| - 1].last
    ensures Idle(m', m.d, m.w) && Emits(m, m', words, [t] + rest, rest)
  {
    hide *;
    EmitsFirst(m, t, words, rest);
    FlushUnfold(m, [t] + rest);
    var next := Step(m, [t] + rest).0;
    OneEmitted(m, next, words[0], [t] + rest, rest);
    if |words| > 1 {
      m' := EmitsRest(next, words[1..], rest);
      EmitsThen(m, next, m', words, [t] + rest, rest);
    } else {
      m' := next;
      assert words == [words[0]];
    }
  }

  // ---------- Widening, then narrowing ----------

  /** `held` has been read since the last wide word was written. */
  ghost predicate Filling(m: Machine, held: seq<Word>) {
    && m.Widen? && Ok(m) && m.count == |held| && Holds(m.temp, m.d, m.w, held)
    && Group(held, m.w) && (held != [] ==> !held[|held| - 1].last)
  }

  lemma StartsEmpty(d: nat, w: nat, clear: bool, data: seq<Byte>, last: bool)
    requires d > 0 && w > 0 && |data| == w * d
    ensures Filling(Widen(d, w, clear, 0, Word(data, NoKeep(w * d), last)), [])
  {
    assert w * 0 == 0;
  }

  ghost predicate AllWellFormed(s: seq<Word>, w: nat) {
    forall i | 0 <= i < |s| :: WellFormed(s[i], w)
  }

  lemma FillsOrWrites(m: Machine, held: seq<Word>, x: Word, rest: seq<Word>)
    requires Filling(m, held) && AllWellFormed([x] + rest, m.w)
    ensures Fits(m, [x] + rest) && !Stalled(m, [x] + rest) && AllWellFormed(rest, m.w)
    ensures var (m', input', outs) := Step(m, [x] + rest);
      && input' == rest && m'.Widen? && m'.d == m.d && m'.w == m.w && m'.clear == m.clear && Fits(m', rest)
      && Group(held + [x], m.w)
      && if x.last || |held| + 1 == m.d
         then Filling(m', []) && |outs| == 1 && outs[0].last == x.last && Holds(outs[0], m.d, m.w, held + [x])
         else Filling(m', held + [x]) && outs == []
  {
    assert ([x] + rest)[0] == x && ([x] + rest)[1..] == rest;
    forall i | 0 <= i < |rest| ensures WellFormed(rest[i], m.w) {
      assert rest[i] == ([x] + rest)[i + 1];
    }
    HoldsMore(m.temp, m.d, m.w, held, x);
    LaneFits(m.d, m.w, 0);
    StepFacts(m, [x] + rest);
    var words := held + [x];
    forall j | 0 <= j < |words| - 1 ensures !words[j].last {
      assert words[j] == held[j];
    }
    if x.last || |held| + 1 == m.d {
      var m' := Step(m, [x] + rest).0;
      StartsEmpty(m.d, m.w, m.clear, m'.temp.data, m'.temp.last);
    }
  }

  lemma NothingToWiden(wide: Machine, narrow: Machine, held: seq<Word>)
    requires Filling(wide, held) && Idle(narrow, wide.d, wide.w) && Complete(held)
    ensures held == [] && Fits(wide, []) && Flush(wide, []) == [] && Fits(narrow, []) && Flush(narrow, []) == []
  {
  }

  /** After a group has been written, what follows it is still complete. */
  lemma RestIsComplete(held: seq<Word>, x: Word, rest: seq<Word>)
    requires Complete(held + ([x] + rest))
    ensures rest != [] ==> Complete(rest)
    ensures rest == [] ==> x.last
  {
    var all := held + ([x] + rest);
    if rest != [] {
      assert rest[|rest| - 1] == all[|all| - 1];
    } else {
      assert all[|all| - 1] == x;
    }
  }

  /** Widening `input` and then narrowing the result writes `all`. */
  ghost predicate RoundTrips(wide: Machine, narrow: Machine, input: seq<Word>, all: seq<Word>) {
    Fits(wide, input) && Fits(narrow, Flush(wide, input)) && Flush(narrow, Flush(wide, input)) == all
  }

  /** One word more into the register. */
  lemma FillCase(wide: Machine, narrow: Machine, held: seq<Word>, x: Word, rest: seq<Word>) returns (wide': Machine)
    requires Filling(wide, held) && Idle(narrow, wide.d, wide.w) && AllWellFormed([x] + rest, wide.w)
    requires !x.last && |held| + 1 != wide.d
    ensures Filling(wide', held + [x]) && Idle(narrow, wide'.d, wide'.w) && AllWellFormed(rest, wide'.w)
    ensures forall all | RoundTrips(wide', narrow, rest, all) :: RoundTrips(wide, narrow, [x] + rest, all)
  {
    hide Flush, Step, Idle, Holds, Group, WellFormed;
    FillsOrWrites(wide, held, x, rest);
    FlushUnfold(wide, [x] + rest);
    wide' := Step(wide, [x] + rest).0;
    assert Flush(wide, [x] + rest) == Flush(wide', rest);
  }

  /** A group is written, and the narrowing machine turns it back into its words. */
  lemma WriteCase(wide: Machine, narrow: Machine, held: seq<Word>, x: Word, rest: seq<Word>)
    returns (wide': Machine, narrow': Machine)
    requires Filling(wide, held) && Idle(narrow, wide.d, wide.w) && AllWellFormed([x] + rest, wide.w)
    requires x.last || |held| + 1 == wide.d
    ensures Filling(wide', []) && Idle(narrow', wide'.d, wide'.w) && AllWellFormed(rest, wide'.w)
    ensures forall all | RoundTrips(wide', narrow', rest, all) :: RoundTrips(wide, narrow, [x] + rest, held + [x] + all)
  {
    FillingIsWiden(wide, held);
    hide Flush, Step, Fits, Filling, Idle, Holds, Group, WellFormed, AllWellFormed, AllWidth;
    FillsOrWrites(wide, held, x, rest);
    FlushUnfold(wide, [x] + rest);
    wide' := Step(wide, [x] + rest).0;
    var outs := Step(wide, [x] + rest).2;
    GroupWritten(wide', narrow, outs[0], held + [x], rest);
    assert outs == [outs[0]];
    narrow' := EmitsGroup(narrow, outs[0], held + [x], Flush(wide', rest));
  }

  /** Reducing by d after increasing by d gives back the identical words: data, keep and last, whatever the packet
      lengths. */
  lemma {:induction false} WidenThenNarrow(wide: Machine, narrow: Machine, held: seq<Word>, input: seq<Word>)
    requires Filling(wide, held) && Idle(narrow, wide.d, wide.w)
    requires AllWellFormed(input, wide.w) && Complete(held + input)
    ensures RoundTrips(wide, narrow, input, held + input)
    decreases |input|
  {
    FillingIsWiden(wide, held);
    if input == [] {
      assert held + input == held;
      NothingToWiden(wide, narrow, held);
    } else {
      hide *;
      var x, rest := input[0], input[1..];
      assert input == [x] + rest;
      RestIsComplete(held, x, rest);
      if x.last || |held| + 1 == wide.d {
        var wide', narrow' := WriteCase(wide, narrow, held, x, rest);
        CompleteEmpty(rest);
        WidenThenNarrow(wide', narrow', [], rest);
        assert held + [x] + ([] + rest) == held + input;
      } else {
        var wide' := FillCase(wide, narrow, held, x, rest);
        assert held + [x] + rest == held + input;
        WidenThenNarrow(wide', narrow, held + [x], rest);
      }
    }
  }

  lemma CompleteEmpty(rest: seq<Word>)
    requires rest != [] ==> Complete(rest)
    ensures Complete([] + rest)
  {
    assert [] + rest == rest;
  }

  lemma FillingIsWiden(m: Machine, held: seq<Word>)
    requires Filling(m, held)
    ensures m.Widen? && |held| < m.d
  {
  }

  lemma GroupWritten(wide': Machine, narrow: Machine, t: Word, words: seq<Word>, rest: seq<Word>)
    requires wide'.Widen? && Fits(wide', rest) && Idle(narrow, wide'.d, wide'.w)
    ensures narrow.Narrow? && narrow.d == wide'.d && narrow.w == wide'.w
    ensures AllWidth(Flush(wide', rest), narrow.w * narrow.d)
  {
    FlushFits(wide', rest);
  }
}
