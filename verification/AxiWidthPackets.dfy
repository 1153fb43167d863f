/** Both width converters of fpga-network-stack/hls/axi_utils.hpp keep the bytes and the packet boundaries, under any
    schedule. */
module AxiWidthPackets {
  import opened Bytes
  import opened Arith
  import opened AxiWords
  import opened AxiMachines
  import opened AxiWidth

  function AllKept(words: seq<Word>): seq<Byte>
    requires forall i | 0 <= i < |words| :: |words[i].data| == |words[i].keep|
  {
    if words == [] then [] else Kept(words[0]) + AllKept(words[1..])
  }

  ghost predicate Sound(s: seq<Word>) {
    forall i | 0 <= i < |s| :: |s[i].data| == |s[i].keep|
  }

  lemma SoundMembers(s: seq<Word>)
    requires Sound(s)
    ensures forall x | x in s :: |x.data| == |x.keep|
  {
  }

  // ---------- What a wide word carries ----------

  /** The wide word above the lowest lane. */
  function Above(t: Word, d: nat, w: nat): Word
    requires d >= 1 && HasWidth(t, w * d)
  {
    LaneFits(d, w, 0);
    Word(t.data[w..], t.keep[w..], t.last)
  }

  lemma AboveWidth(d: nat, w: nat)
    requires d >= 1
    ensures w * d == w + w * (d - 1)
  {
    MulStep(d - 1, w);
    assert w * d == d * w && w * (d - 1) == (d - 1) * w;
  }

  lemma LaneAbove<T>(x: seq<T>, d: nat, w: nat, j: nat)
    requires |x| == w * d && j + 1 < d
    ensures w <= |x| && |x[w..]| == w * (d - 1) && Lane(x[w..], d - 1, w, j) == Lane(x, d, w, j + 1)
  {
    AboveWidth(d, w);
    LanesInOrder(d, w, j, j + 1);
    LaneFits(d, w, j + 1);
    LaneFits(d - 1, w, j);
    MulStep(j, w);
    assert w * (j + 1) == w * j + w;
  }

  lemma HoldsAbove(t: Word, d: nat, w: nat, words: seq<Word>)
    requires Holds(t, d, w, words) && 1 < |words|
    ensures w <= w * d && HasWidth(Above(t, d, w), w * (d - 1))
    ensures t.data[..w] == words[0].data && t.keep[..w] == words[0].keep
    ensures Holds(Above(t, d, w), d - 1, w, words[1..])
  {
    AboveWidth(d, w);
    LaneFits(d, w, 0);
    assert w * 0 == 0;
    assert Lane(t.data, d, w, 0) == t.data[..w] && Lane(t.keep, d, w, 0) == t.keep[..w];
    var u := Above(t, d, w);
    forall j | 0 <= j < |words| - 1
      ensures Lane(u.data, d - 1, w, j) == words[1..][j].data && Lane(u.keep, d - 1, w, j) == words[1..][j].keep
    {
      LaneAbove(t.data, d, w, j);
      LaneAbove(t.keep, d, w, j);
      assert words[1..][j] == words[j + 1];
    }
    AboveWidth(|words|, w);
    forall i | w * |words[1..]| <= i < w * (d - 1) ensures !u.keep[i] {
      assert u.keep[i] == t.keep[i + w];
    }
  }

  lemma LanesCons(t: Word, d: nat, w: nat, x: Word, rest: seq<Word>, j: nat)
    requires HasWidth(t, w * d) && 1 <= |rest| < d && w <= w * d && HasWidth(Above(t, d, w), w * (d - 1)) && j <= |rest|
    requires t.data[..w] == x.data && t.keep[..w] == x.keep && Holds(Above(t, d, w), d - 1, w, rest)
    ensures Lane(t.data, d, w, j) == ([x] + rest)[j].data && Lane(t.keep, d, w, j) == ([x] + rest)[j].keep
  {
    if j == 0 {
      LaneFits(d, w, 0);
      assert w * 0 == 0;
    } else {
      LaneAbove(t.data, d, w, j - 1);
      LaneAbove(t.keep, d, w, j - 1);
      assert Lane(Above(t, d, w).data, d - 1, w, j - 1) == rest[j - 1].data;
      assert Lane(Above(t, d, w).keep, d - 1, w, j - 1) == rest[j - 1].keep;
    }
  }

  lemma HoldsCons(t: Word, d: nat, w: nat, x: Word, rest: seq<Word>)
    requires HasWidth(t, w * d) && 1 <= |rest| < d && w <= w * d && HasWidth(Above(t, d, w), w * (d - 1))
    requires t.data[..w] == x.data && t.keep[..w] == x.keep && Holds(Above(t, d, w), d - 1, w, rest)
    ensures Holds(t, d, w, [x] + rest)
  {
    var words, u := [x] + rest, Above(t, d, w);
    AboveWidth(|words|, w);
    forall i | w * |words| <= i < w * d ensures !t.keep[i] {
      assert w * |rest| <= i - w && t.keep[i] == u.keep[i - w];
    }
    hide Lane;
    forall j | 0 <= j < |words|
      ensures Lane(t.data, d, w, j) == words[j].data && Lane(t.keep, d, w, j) == words[j].keep {
      LanesCons(t, d, w, x, rest, j);
    }
  }

  lemma HoldsSingle(t: Word, d: nat, w: nat, x: Word)
    requires HasWidth(t, w * d) && d >= 1
    ensures w <= w * d
    ensures Holds(t, d, w, [x]) <==>
      t.data[..w] == x.data && t.keep[..w] == x.keep && forall i | w <= i < w * d :: !t.keep[i]
  {
    LaneFits(d, w, 0);
    assert w * 0 == 0 && w * |[x]| == w;
    assert Lane(t.data, d, w, 0) == t.data[..w] && Lane(t.keep, d, w, 0) == t.keep[..w];
  }

  lemma CountAbove(t: Word, d: nat, w: nat)
    requires d > 1 && HasWidth(t, w * d) && w > 0
    requires w <= w * d && Count(t.keep[..w]) == w
    ensures Kept(t) == t.data[..w] + Kept(Above(t, d, w)) && Count(t.keep) == w + Count(Above(t, d, w).keep)
  {
    var u := Above(t, d, w);
    var k := Count(u.keep);
    CountFacts(t.keep[..w]);
    CountFacts(u.keep);
    forall i | 0 <= i < w + k ensures t.keep[i] {
      assert i < w ==> t.keep[i] == t.keep[..w][i];
      assert i >= w ==> t.keep[i] == u.keep[i - w];
    }
    if w + k < |t.keep| {
      assert t.keep[w + k] == u.keep[k];
    }
    CountIs(t.keep, w + k);
  }

  lemma {:induction false} CountFacts(keep: seq<bool>)
    ensures forall i | 0 <= i < Count(keep) :: keep[i]
    ensures Count(keep) < |keep| ==> !keep[Count(keep)]
    decreases |keep|
  {
    if keep != [] && keep[0] {
      CountFacts(keep[1..]);
      forall i | 0 <= i < Count(keep) ensures keep[i] {
        if i > 0 { assert keep[i] == keep[1..][i - 1]; }
      }
    }
  }

  lemma SingleBytes(t: Word, d: nat, w: nat, x: Word)
    requires Holds(t, d, w, [x]) && WellFormed(x, w) && t.last == x.last && d >= 1 && (d > 1 ==> t.last)
    ensures Kept(t) == Kept(x) && WellFormed(t, w * d)
  {
    HoldsSingle(t, d, w, x);
    var k := Count(x.keep);
    CountFacts(x.keep);
    forall i | 0 <= i < k ensures t.keep[i] {
      assert t.keep[i] == t.keep[..w][i];
    }
    if k < w {
      assert t.keep[k] == t.keep[..w][k];
    }
    CountIs(t.keep, k);
    forall i | k <= i < w * d ensures !t.keep[i] {
      if i < w { assert t.keep[i] == t.keep[..w][i] == KeepOf(k, w)[i]; }
    }
    assert t.keep == KeepOf(k, w * d);
    assert d == 1 ==> w * d == w;
  }

  /** The wide word is well formed and carries exactly the bytes of the words it holds. */
  lemma {:induction false} GroupBytes(t: Word, d: nat, w: nat, words: seq<Word>)
    requires w > 0 && Holds(t, d, w, words) && Group(words, w) && words != []
    requires t.last == words[|words| - 1].last && (|words| < d ==> t.last)
    ensures Sound(words) && Kept(t) == AllKept(words) && WellFormed(t, w * d)
    decreases |words|
  {
    var x := words[0];
    if |words| == 1 {
      assert words == [x] && AllKept([]) == [];
      SingleBytes(t, d, w, x);
    } else {
      GroupAbove(t, d, w, words);
      hide Holds, Group, Kept;
      GroupBytes(Above(t, d, w), d - 1, w, words[1..]);
      CountAbove(t, d, w);
      KeepAbove(t, d, w);
    }
  }

  lemma GroupAbove(t: Word, d: nat, w: nat, words: seq<Word>)
    requires w > 0 && Holds(t, d, w, words) && Group(words, w) && |words| > 1
    ensures d > 1 && w <= w * d && HasWidth(Above(t, d, w), w * (d - 1))
    ensures Holds(Above(t, d, w), d - 1, w, words[1..]) && Group(words[1..], w)
    ensures t.keep[..w] == KeepOf(w, w) && Count(t.keep[..w]) == w && Sound(words)
    ensures Kept(words[0]) == t.data[..w]
  {
    HoldsAbove(t, d, w, words);
    AboveWidth(d, w);
    assert !words[0].last;
    forall j | 0 <= j < |words| - 2 ensures !words[1..][j].last { assert words[1..][j] == words[j + 1]; }
  }

  lemma KeepAbove(t: Word, d: nat, w: nat)
    requires d > 1 && w > 0 && HasWidth(t, w * d) && w <= w * d
    requires t.keep[..w] == KeepOf(w, w) && HasWidth(Above(t, d, w), w * (d - 1))
        && WellFormed(Above(t, d, w), w * (d - 1))
    requires Count(t.keep) == w + Count(Above(t, d, w).keep)
    ensures WellFormed(t, w * d)
  {
    AboveWidth(d, w);
    var u := Above(t, d, w);
    forall i | 0 <= i < w * d ensures t.keep[i] == (i < Count(t.keep)) {
      if i < w {
        assert t.keep[i] == t.keep[..w][i];
      } else {
        assert t.keep[i] == u.keep[i - w];
      }
    }
    assert t.keep == KeepOf(Count(t.keep), w * d);
  }

  lemma KeepSlices(c: nat, n: nat, w: nat)
    requires c <= n && w <= n
    ensures KeepOf(c, n)[..w] == KeepOf(if c < w then c else w, w)
    ensures KeepOf(c, n)[w..] == KeepOf(if c < w then 0 else c - w, n - w)
  {
  }

  lemma KeepIsWellFormed(x: Word, k: nat, w: nat)
    requires HasWidth(x, w) && 0 < k <= w && x.keep == KeepOf(k, w) && (!x.last ==> k == w)
    ensures WellFormed(x, w) && Count(x.keep) == k
  {
    CountIs(x.keep, k);
  }

  /** The lowest lane of a word that reaches beyond it is full, and what is above is well formed. */
  lemma LowestLane(t: Word, d: nat, w: nat)
    requires WellFormed(t, w * d) && w > 0 && d > 0 && Count(t.keep) > w
    ensures w <= w * d && d > 1 && WellFormed(Word(t.data[..w], t.keep[..w], false), w)
    ensures HasWidth(Above(t, d, w), w * (d - 1)) && WellFormed(Above(t, d, w), w * (d - 1))
  {
    AboveWidth(d, w);
    LaneFits(d, w, 0);
    var c, n := Count(t.keep), w * d;
    assert d == 1 ==> n == w;
    KeepSlices(c, n, w);
    hide Count, KeepOf;
    KeepIsWellFormed(Word(t.data[..w], t.keep[..w], false), w, w);
    KeepIsWellFormed(Above(t, d, w), c - w, w * (d - 1));
  }

  /** A word that does not reach beyond its lowest lane holds just that lane. */
  lemma OnlyLane(t: Word, d: nat, w: nat) returns (x: Word)
    requires WellFormed(t, w * d) && w > 0 && d > 0 && Count(t.keep) <= w
    ensures Holds(t, d, w, [x]) && WellFormed(x, w) && x.last == t.last && (1 < d ==> t.last)
  {
    AboveWidth(d, w);
    LaneFits(d, w, 0);
    var c, n := Count(t.keep), w * d;
    x := Word(t.data[..w], t.keep[..w], t.last);
    if !t.last {
      OneLane(d, w);
    }
    KeepSlices(c, n, w);
    assert forall i | w <= i < n :: !t.keep[i] by {
      assert forall i | w <= i < n :: t.keep[i] == t.keep[w..][i - w];
    }
    hide Count, KeepOf, Holds;
    KeepIsWellFormed(x, c, w);
    HoldsSingle(t, d, w, x);
  }

  /** Every well-formed wide word holds a group. */
  lemma {:induction false} SplitWord(t: Word, d: nat, w: nat) returns (words: seq<Word>)
    requires WellFormed(t, w * d) && w > 0 && d > 0
    ensures Holds(t, d, w, words) && Group(words, w) && words != []
    ensures |words| < d ==> t.last
    ensures t.last == words[|words| - 1].last
    decreases d
  {
    if Count(t.keep) <= w {
      var x := OnlyLane(t, d, w);
      words := [x];
    } else {
      LowestLane(t, d, w);
      hide Holds, Count, KeepOf, WellFormed;
      var rest := SplitWord(Above(t, d, w), d - 1, w);
      words := [Word(t.data[..w], t.keep[..w], false)] + rest;
      HoldsCons(t, d, w, Word(t.data[..w], t.keep[..w], false), rest);
    }
  }

  lemma OneLane(d: nat, w: nat)
    requires w * d == w && w > 0
    ensures d == 1
  {
    if d > 1 {
      AboveWidth(d, w);
      LaneFits(d - 1, w, 0);
    }
  }

  // ---------- Packets ----------

  lemma PacketsStep(c: seq<Byte>, x: Word, rest: seq<Word>)
    requires |x.data| == |x.keep| && Sound(rest)
    ensures Sound([x] + rest)
    ensures forall y | y in [x] + rest :: |y.data| == |y.keep|
    ensures forall y | y in rest :: |y.data| == |y.keep|
    ensures Packets(c, [x] + rest) == if x.last then [c + Kept(x)] + Packets([], rest) else Packets(c + Kept(x), rest)
  {
    SoundMembers(rest);
    assert ([x] + rest)[1..] == rest;
  }

  lemma GroupTail(words: seq<Word>, w: nat)
    requires Group(words, w) && words != []
    ensures Sound(words) && Group(words[1..], w) && (|words| > 1 ==> !words[0].last)
  {
    forall j | 0 <= j < |words| - 2 ensures !words[1..][j].last {
      assert words[1..][j] == words[j + 1];
    }
  }

  lemma {:induction false} PacketsOfGroup(c: seq<Byte>, words: seq<Word>, rest: seq<Word>, w: nat)
    requires Group(words, w) && words != [] && Sound(rest)
    ensures Sound(words) && Sound(words + rest)
    ensures forall x | x in words + rest :: |x.data| == |x.keep|
    ensures forall x | x in rest :: |x.data| == |x.keep|
    ensures Packets(c, words + rest) == if words[|words| - 1].last then [c + AllKept(words)] + Packets([], rest)
        else Packets(c + AllKept(words), rest)
    decreases |words|
  {
    var x, more := words[0], words[1..];
    assert words == [x] + more;
    GroupTail(words, w);
    SoundMembers(rest);
    SoundMembers(words + rest);
    assert words + rest == [x] + (more + rest) && AllKept(words) == Kept(x) + AllKept(more);
    assert c + AllKept(words) == c + Kept(x) + AllKept(more);
    if |words| == 1 {
      assert more == [] && more + rest == rest && AllKept(more) == [];
      hide Packets, Kept, Group, WellFormed, AllKept;
      PacketsStep(c, x, rest);
      assert c + Kept(x) + [] == c + Kept(x);
    } else {
      hide Packets, Kept, Group, WellFormed, AllKept, Sound;
      PacketsOfGroup(c + Kept(x), more, rest, w);
      PacketsStep(c, x, more + rest);
    }
  }

  // ---------- Both directions keep the packets ----------

  lemma AllWellFormedIsSound(s: seq<Word>, w: nat)
    requires AllWellFormed(s, w)
    ensures Sound(s) && AllWidth(s, w)
  {
  }

  /** What a stream carries, with `carried` bytes of its first packet already gone by. */
  ghost function Carries(carried: seq<Byte>, s: seq<Word>, w: nat): seq<seq<Byte>>
    requires AllWellFormed(s, w)
  {
    AllWellFormedIsSound(s, w);
    SoundMembers(s);
    Packets(carried, s)
  }

  lemma CarriesGroup(c: seq<Byte>, words: seq<Word>, rest: seq<Word>, w: nat)
    requires Group(words, w) && words != [] && AllWellFormed(rest, w)
    ensures Sound(words) && AllWellFormed(words + rest, w)
    ensures Carries(c, words + rest, w)
         == if words[|words| - 1].last then [c + AllKept(words)] + Carries([], rest, w)
             else Carries(c + AllKept(words), rest, w)
  {
    AllWellFormedIsSound(rest, w);
    PacketsOfGroup(c, words, rest, w);
  }

  lemma CarriesOne(c: seq<Byte>, t: Word, rest: seq<Word>, w: nat)
    requires WellFormed(t, w) && AllWellFormed(rest, w)
    ensures AllWellFormed([t] + rest, w)
    ensures Carries(c, [t] + rest, w) == if t.last then [c + Kept(t)] + Carries([], rest, w)
        else Carries(c + Kept(t), rest, w)
  {
    assert ([t] + rest)[1..] == rest;
  }

  /** The narrowed stream is well formed and carries the same packets. */
  ghost predicate Narrows(m: Machine, c: seq<Byte>, input: seq<Word>)
    requires m.Narrow? && AllWellFormed(input, m.w * m.d)
  {
    && Fits(m, input) && AllWellFormed(Flush(m, input), m.w)
    && Carries(c, Flush(m, input), m.w) == Carries(c, input, m.w * m.d)
  }

  lemma {:induction false} NarrowKeepsPackets(m: Machine, c: seq<Byte>, input: seq<Word>)
    requires m.Narrow? && Idle(m, m.d, m.w) && AllWellFormed(input, m.w * m.d)
    ensures Narrows(m, c, input)
    decreases |input|
  {
    if input == [] {
      NothingToNarrow(m, c);
    } else {
      var t, rest := input[0], input[1..];
      assert input == [t] + rest;
      assert WellFormed(t, m.w * m.d) && AllWellFormed(rest, m.w * m.d);
      AllWellFormedIsSound(rest, m.w * m.d);
      var words := SplitWord(t, m.d, m.w);
      GroupBytes(t, m.d, m.w, words);
      var m' := EmitsGroup(m, t, words, rest);
      NarrowKeepsPackets(m', if t.last then [] else c + Kept(t), rest);
      NarrowedGroup(m, m', c, t, words, rest);
    }
  }

  lemma NothingToNarrow(m: Machine, c: seq<Byte>)
    requires m.Narrow? && Idle(m, m.d, m.w)
    ensures Narrows(m, c, [])
  {
  }

  lemma NarrowedGroup(m: Machine, m': Machine, c: seq<Byte>, t: Word, words: seq<Word>, rest: seq<Word>)
    requires m.Narrow? && m'.Narrow? && m'.d == m.d && m'.w == m.w
    requires Emits(m, m', words, [t] + rest, rest)
    requires WellFormed(t, m.w * m.d) && AllWellFormed(rest, m.w * m.d)
    requires Group(words, m.w) && words != [] && t.last == words[|words| - 1].last
    requires Sound(words) && AllKept(words) == Kept(t)
    requires Narrows(m', if t.last then [] else c + Kept(t), rest)
    ensures AllWellFormed([t] + rest, m.w * m.d) && Narrows(m, c, [t] + rest)
  {
    hide Flush, Group, WellFormed, Kept, AllKept, Fits, Carries;
    CarriesOne(c, t, rest, m.w * m.d);
    CarriesGroup(c, words, Flush(m', rest), m.w);
  }

  /** The widened stream is well formed and carries the same packets as what the register held and what came after
      it. */
  ghost predicate Widens(m: Machine, c: seq<Byte>, input: seq<Word>, all: seq<Word>)
    requires m.Widen? && AllWellFormed(all, m.w)
  {
    && Fits(m, input) && AllWellFormed(Flush(m, input), m.w * m.d)
    && Carries(c, Flush(m, input), m.w * m.d) == Carries(c, all, m.w)
  }

  lemma WidenFill(m: Machine, held: seq<Word>, x: Word, rest: seq<Word>, c: seq<Byte>) returns (m': Machine)
    requires m.Widen? && Filling(m, held) && AllWellFormed([x] + rest, m.w)
    requires !x.last && |held| + 1 != m.d
    ensures m'.Widen? && m'.d == m.d && m'.w == m.w && Filling(m', held + [x]) && AllWellFormed(rest, m'.w)
    ensures AllWellFormed(held + [x] + rest, m.w)
    ensures Widens(m', c, rest, held + [x] + rest) ==> Widens(m, c, [x] + rest, held + [x] + rest)
  {
    FillsOrWrites(m, held, x, rest);
    FlushUnfold(m, [x] + rest);
    m' := Step(m, [x] + rest).0;
    hide Flush, Step, Filling, Fits, WellFormed, Carries;
    GroupThenRest(held + [x], rest, m.w);
    if Widens(m', c, rest, held + [x] + rest) {
      WidenedNothing(m, m', c, [x] + rest, rest, held + [x] + rest);
    }
  }

  lemma WidenWrite(m: Machine, held: seq<Word>, x: Word, rest: seq<Word>, c: seq<Byte>)
    returns (m': Machine, c': seq<Byte>)
    requires m.Widen? && Filling(m, held) && AllWellFormed([x] + rest, m.w)
    requires x.last || |held| + 1 == m.d
    ensures m'.Widen? && m'.d == m.d && m'.w == m.w && Filling(m', []) && AllWellFormed(rest, m'.w)
    ensures AllWellFormed(held + [x] + rest, m.w)
    ensures Widens(m', c', rest, rest) ==> Widens(m, c, [x] + rest, held + [x] + rest)
  {
    FillsOrWrites(m, held, x, rest);
    FlushUnfold(m, [x] + rest);
    m' := Step(m, [x] + rest).0;
    var outs := Step(m, [x] + rest).2;
    c' := if x.last then [] else c + KeptOf(outs[0]);
    assert m.w > 0;
    hide Flush, Step, Filling, Fits, WellFormed, Carries, Holds, Group;
    GroupThenRest(held + [x], rest, m.w);
    if Widens(m', c', rest, rest) {
      assert outs == [outs[0]];
      WidenedGroup(m, m', c, held + [x], outs[0], [x] + rest, rest);
    }
  }

  lemma GroupThenRest(words: seq<Word>, rest: seq<Word>, w: nat)
    requires Group(words, w) && AllWellFormed(rest, w)
    ensures AllWellFormed(words + rest, w)
  {
  }

  lemma {:induction false} WidenKeepsPackets(m: Machine, c: seq<Byte>, held: seq<Word>, input: seq<Word>)
    requires m.Widen? && Filling(m, held) && AllWellFormed(input, m.w) && Complete(held + input)
    ensures AllWellFormed(held + input, m.w) && Widens(m, c, input, held + input)
    decreases |input|
  {
    hide *;
    if input == [] {
      assert held + input == held;
      NothingWidened(m, c, held);
    } else {
      var x, rest := input[0], input[1..];
      assert input == [x] + rest;
      RestIsComplete(held, x, rest);
      assert held + [x] + rest == held + input;
      if x.last || |held| + 1 == m.d {
        CompleteEmpty(rest);
        assert [] + rest == rest;
        var m', c' := WidenWrite(m, held, x, rest, c);
        WidenKeepsPackets(m', c', [], rest);
      } else {
        var m' := WidenFill(m, held, x, rest, c);
        WidenKeepsPackets(m', c, held + [x], rest);
      }
    }
  }

  function KeptOf(t: Word): seq<Byte> {
    if |t.data| == |t.keep| then Kept(t) else []
  }

  lemma NothingWidened(m: Machine, c: seq<Byte>, held: seq<Word>)
    requires m.Widen? && Filling(m, held) && Complete(held)
    ensures AllWellFormed(held, m.w) && Widens(m, c, [], held)
  {
  }

  lemma WidenedNothing(m: Machine, m': Machine, c: seq<Byte>, input: seq<Word>, rest: seq<Word>, all: seq<Word>)
    requires m.Widen? && m'.Widen? && m'.d == m.d && m'.w == m.w && AllWellFormed(all, m.w)
    requires Fits(m, input) && Fits(m', rest) && Flush(m, input) == [] + Flush(m', rest)
    requires Widens(m', c, rest, all)
    ensures Widens(m, c, input, all)
  {
    hide Flush, Fits, Carries, AllWellFormed;
    assert [] + Flush(m', rest) == Flush(m', rest);
  }

  lemma WidenedGroup(m: Machine, m': Machine, c: seq<Byte>, words: seq<Word>, t: Word, input: seq<Word>,
                     rest: seq<Word>)
    requires m.Widen? && m'.Widen? && m'.d == m.d && m'.w == m.w && m.w > 0 && AllWellFormed(rest, m.w)
    requires Fits(m, input) && Fits(m', rest) && Flush(m, input) == [t] + Flush(m', rest)
    requires Holds(t, m.d, m.w, words) && Group(words, m.w) && words != []
    requires t.last == words[|words| - 1].last && (|words| < m.d ==> t.last)
    requires Widens(m', if t.last then [] else c + KeptOf(t), rest, rest)
    ensures AllWellFormed(words + rest, m.w) && Widens(m, c, input, words + rest)
  {
    GroupBytes(t, m.d, m.w, words);
    hide Flush, Group, WellFormed, Kept, AllKept, Fits, Carries, Holds;
    CarriesGroup(c, words, rest, m.w);
    CarriesOne(c, t, Flush(m', rest), m.w * m.d);
  }

  // ---------- Under any schedule ----------

  lemma WidthTotal(wide: Machine, narrow: Machine, input: seq<Word>)
    requires Filling(wide, []) && Idle(narrow, wide.d, wide.w)
    requires AllWellFormed(input, wide.w) && Complete(input)
    ensures SystemOk(System(input, Stage([], wide, Stage([], narrow, End([])))), wide.w)
    ensures Total(Stage([], wide, Stage([], narrow, End([]))), wide.w, input) == input
  {
    AllWellFormedIsSound(input, wide.w);
    assert LineOk(End([]), OutWidth(narrow)) && LineOk(Stage([], narrow, End([])), OutWidth(wide));
    assert [] + input == input;
    WidenThenNarrow(wide, narrow, [], input);
    var middle := Flush(wide, input);
    assert [] + middle == middle;
    FlushFits(wide, input);
    hide Flush;
    assert Total(Stage([], narrow, End([])), OutWidth(wide), middle) == input;
  }

  /** Words through a widening and a narrowing stage: whatever the stalls, only a prefix of the input has come out, and
      once the pipeline has drained, exactly the input. */
  lemma WidthRoundTrip(wide: Machine, narrow: Machine, input: seq<Word>, schedule: seq<Event>)
    requires Filling(wide, []) && Idle(narrow, wide.d, wide.w)
    requires AllWellFormed(input, wide.w) && Complete(input)
    ensures var s := System(input, Stage([], wide, Stage([], narrow, End([]))));
      && SystemOk(s, wide.w)
      && Written(Run(s, wide.w, schedule).line) <= input
      && (Drained(Run(s, wide.w, schedule), wide.w) ==> Written(Run(s, wide.w, schedule).line) == input)
  {
    WidthTotal(wide, narrow, input);
    FillingIsWiden(wide, []);
    hide *;
    AnySchedule(System(input, Stage([], wide, Stage([], narrow, End([])))), wide.w, schedule);
  }
}
