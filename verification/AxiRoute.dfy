/** stream_pkg_splitter, stream_pkg_merger and pass_valid_pkg of fpga-network-stack/hls/axi_utils.hpp: routing whole
    packets. */
module AxiRoute {
  import opened AxiWords

  /** IDLE, FWD0 (dest == false) and FWD1 (dest == true). */
  datatype Mode = Idle | Fwd(dest: bool)

  function After(dest: bool, x: Word): Mode {
    if x.last then Idle else Fwd(dest)
  }

  // ---------- The splitter ----------

  datatype Splitter = Splitter(mode: Mode, destIn: seq<bool>, input: seq<Word>)

  /** One call: the machine and its input FIFOs afterwards, and what went to each output. */
  function SplitCall(s: Splitter): (Splitter, seq<Word>, seq<Word>) {
    match s.mode
    case Idle =>
      if s.destIn == [] then (s, [], [])
      else
        var dest := s.destIn[0];
        if s.input == [] then (Splitter(Fwd(dest), s.destIn[1..], []), [], [])
        else (Splitter(After(dest, s.input[0]), s.destIn[1..], s.input[1..]),
              if dest then [] else [s.input[0]], if dest then [s.input[0]] else [])
    case Fwd(dest) =>
      if s.input == [] then (s, [], [])
      else (s.(mode := After(dest, s.input[0]), input := s.input[1..]),
            if dest then [] else [s.input[0]], if dest then [s.input[0]] else [])
  }

  /** Everything the splitter writes to one output when it is called until it stalls. */
  function SplitAll(mode: Mode, bits: seq<bool>, words: seq<Word>, side: bool): seq<Word>
    decreases |words|, |bits|
  {
    if words == [] then []
    else
      match mode
      case Idle => if bits == [] then [] else SplitAll(Fwd(bits[0]), bits[1..], words, side)
      case Fwd(dest) =>
        (if dest == side then [words[0]] else []) + SplitAll(After(dest, words[0]), bits, words[1..], side)
  }

  lemma SplitCallKeeps(s: Splitter, moreBits: seq<bool>, moreWords: seq<Word>, side: bool)
    ensures var (s', out0, out1) := SplitCall(s);
      SplitAll(s.mode, s.destIn + moreBits, s.input + moreWords, side)
      == (if side then out1 else out0) + SplitAll(s'.mode, s'.destIn + moreBits, s'.input + moreWords, side)
  {
    var (s', out0, out1) := SplitCall(s);
    var bits, words := s.destIn + moreBits, s.input + moreWords;
    if s.destIn != [] {
      assert bits[0] == s.destIn[0] && bits[1..] == s.destIn[1..] + moreBits;
    }
    if s.input != [] {
      assert words[0] == s.input[0] && words[1..] == s.input[1..] + moreWords;
    }
    if s.mode.Idle? && s.destIn != [] && s.input != [] {
      assert SplitAll(Idle, bits, words, side) == SplitAll(Fwd(bits[0]), bits[1..], words, side);
    }
  }

  // ---------- The merger ----------

  datatype Merger = Merger(mode: Mode, originIn: seq<bool>, input0: seq<Word>, input1: seq<Word>)

  function Side(m: Merger, side: bool): seq<Word> {
    if side then m.input1 else m.input0
  }

  function Take(m: Merger, side: bool, mode: Mode): Merger
    requires Side(m, side) != []
  {
    if side then m.(mode := mode, input1 := m.input1[1..]) else m.(mode := mode, input0 := m.input0[1..])
  }

  function MergeCall(m: Merger): (Merger, seq<Word>) {
    match m.mode
    case Idle =>
      if m.originIn == [] then (m, [])
      else
        var origin := m.originIn[0];
        var m' := m.(originIn := m.originIn[1..]);
        if Side(m', origin) == [] then (m'.(mode := Fwd(origin)), [])
        else (Take(m', origin, After(origin, Side(m', origin)[0])), [Side(m', origin)[0]])
    case Fwd(origin) =>
      if Side(m, origin) == [] then (m, [])
      else (Take(m, origin, After(origin, Side(m, origin)[0])), [Side(m, origin)[0]])
  }

  function MergeAll(mode: Mode, bits: seq<bool>, in0: seq<Word>, in1: seq<Word>): seq<Word>
    decreases |in0| + |in1|, |bits|
  {
    match mode
    case Idle => if bits == [] then [] else MergeAll(Fwd(bits[0]), bits[1..], in0, in1)
    case Fwd(origin) =>
      if origin then (if in1 == [] then [] else [in1[0]] + MergeAll(After(origin, in1[0]), bits, in0, in1[1..]))
      else (if in0 == [] then [] else [in0[0]] + MergeAll(After(origin, in0[0]), bits, in0[1..], in1))
  }

  lemma MergeCallKeeps(m: Merger, moreBits: seq<bool>, more0: seq<Word>, more1: seq<Word>)
    ensures var (m', outs) := MergeCall(m);
      MergeAll(m.mode, m.originIn + moreBits, m.input0 + more0, m.input1 + more1)
      == outs + MergeAll(m'.mode, m'.originIn + moreBits, m'.input0 + more0, m'.input1 + more1)
  {
    var bits, in0, in1 := m.originIn + moreBits, m.input0 + more0, m.input1 + more1;
    if m.originIn != [] {
      assert bits[0] == m.originIn[0] && bits[1..] == m.originIn[1..] + moreBits;
    }
    if m.input0 != [] {
      assert in0[0] == m.input0[0] && in0[1..] == m.input0[1..] + more0;
    }
    if m.input1 != [] {
      assert in1[0] == m.input1[0] && in1[1..] == m.input1[1..] + more1;
    }
    if m.mode.Idle? && m.originIn != [] {
      assert MergeAll(Idle, bits, in0, in1) == MergeAll(Fwd(bits[0]), bits[1..], in0, in1);
    }
  }

  // ---------- Splitting, then merging ----------

  /** How many packets begin in `words`: one control bit is needed for each. */
  function Starts(idle: bool, words: seq<Word>): nat
    decreases |words|
  {
    if words == [] then 0 else (if idle then 1 else 0) + Starts(words[0].last, words[1..])
  }

  /** A merger fed with the splitter's outputs and the same control bits restores the stream. */
  lemma {:induction false} MergeUndoesSplit(mode: Mode, bits: seq<bool>, words: seq<Word>)
    requires Starts(mode.Idle?, words) <= |bits|
    ensures MergeAll(mode, bits, SplitAll(mode, bits, words, false), SplitAll(mode, bits, words, true)) == words
    decreases |words|, |bits|
  {
    if words == [] {
      NothingToMerge(mode, bits);
    } else if mode.Idle? {
      assert Starts(false, words) == Starts(true, words) - 1;
      MergeUndoesSplit(Fwd(bits[0]), bits[1..], words);
    } else {
      MergeUndoesSplit(After(mode.dest, words[0]), bits, words[1..]);
      var out0, out1 := SplitAll(mode, bits, words, false), SplitAll(mode, bits, words, true);
      var next := After(mode.dest, words[0]);
      var rest0, rest1 := SplitAll(next, bits, words[1..], false), SplitAll(next, bits, words[1..], true);
      if mode.dest {
        assert out0 == rest0 && out1 == [words[0]] + rest1 && out1[1..] == rest1;
      } else {
        assert out1 == rest1 && out0 == [words[0]] + rest0 && out0[1..] == rest0;
      }
      assert [words[0]] + words[1..] == words;
    }
  }

  lemma {:induction false} NothingToMerge(mode: Mode, bits: seq<bool>)
    ensures MergeAll(mode, bits, [], []) == []
  {
  }

  // ---------- The two machines under any schedule ----------

  /** What has not arrived yet, the two machines with their FIFOs, and what has come out. */
  datatype Router = Router(dests: seq<bool>, origins: seq<bool>, words: seq<Word>, s: Splitter, m: Merger,
                           out: seq<Word>)

  datatype Event = DestArrives | OriginArrives | WordArrives | CallSplitter | CallMerger

  function Act(r: Router, e: Event): Router {
    match e
    case DestArrives =>
      if r.dests == [] then r else r.(dests := r.dests[1..], s := r.s.(destIn := r.s.destIn + [r.dests[0]]))
    case OriginArrives =>
      if r.origins == [] then r else r.(origins := r.origins[1..], m := r.m.(originIn := r.m.originIn + [r.origins[0]]))
    case WordArrives =>
      if r.words == [] then r else r.(words := r.words[1..], s := r.s.(input := r.s.input + [r.words[0]]))
    case CallSplitter =>
      var (s', out0, out1) := SplitCall(r.s);
      r.(s := s', m := r.m.(input0 := r.m.input0 + out0, input1 := r.m.input1 + out1))
    case CallMerger => var (m', outs) := MergeCall(r.m); r.(m := m', out := r.out + outs)
  }

  function Total(r: Router): seq<Word> {
    r.out + MergeAll(r.m.mode, r.m.originIn + r.origins,
                     r.m.input0 + SplitAll(r.s.mode, r.s.destIn + r.dests, r.s.input + r.words, false),
                     r.m.input1 + SplitAll(r.s.mode, r.s.destIn + r.dests, r.s.input + r.words, true))
  }

  lemma ActKeeps(r: Router, e: Event)
    ensures Total(Act(r, e)) == Total(r)
  {
    match e
    case DestArrives =>
      if r.dests != [] { assert (r.s.destIn + [r.dests[0]]) + r.dests[1..] == r.s.destIn + r.dests; }
    case OriginArrives =>
      if r.origins != [] { assert (r.m.originIn + [r.origins[0]]) + r.origins[1..] == r.m.originIn + r.origins; }
    case WordArrives =>
      if r.words != [] { assert (r.s.input + [r.words[0]]) + r.words[1..] == r.s.input + r.words; }
    case CallSplitter =>
      var (s', out0, out1) := SplitCall(r.s);
      SplitCallKeeps(r.s, r.dests, r.words, false);
      SplitCallKeeps(r.s, r.dests, r.words, true);
      var rest0 := SplitAll(s'.mode, s'.destIn + r.dests, s'.input + r.words, false);
      var rest1 := SplitAll(s'.mode, s'.destIn + r.dests, s'.input + r.words, true);
      assert r.m.input0 + (out0 + rest0) == (r.m.input0 + out0) + rest0;
      assert r.m.input1 + (out1 + rest1) == (r.m.input1 + out1) + rest1;
    case CallMerger =>
      var all0 := SplitAll(r.s.mode, r.s.destIn + r.dests, r.s.input + r.words, false);
      var all1 := SplitAll(r.s.mode, r.s.destIn + r.dests, r.s.input + r.words, true);
      MergeCallKeeps(r.m, r.origins, all0, all1);
      var (m', outs) := MergeCall(r.m);
      var rest := MergeAll(m'.mode, m'.originIn + r.origins, m'.input0 + all0, m'.input1 + all1);
      assert r.out + (outs + rest) == (r.out + outs) + rest;
  }

  function Run(r: Router, schedule: seq<Event>): Router
    decreases |schedule|
  {
    if schedule == [] then r else Run(Act(r, schedule[0]), schedule[1..])
  }

  lemma {:induction false} RunKeeps(r: Router, schedule: seq<Event>)
    ensures Total(Run(r, schedule)) == Total(r)
    decreases |schedule|
  {
    if schedule != [] {
      ActKeeps(r, schedule[0]);
      RunKeeps(Act(r, schedule[0]), schedule[1..]);
    }
  }

  /** Everything has arrived and neither machine can do anything more. */
  predicate Drained(r: Router) {
    && r.dests == [] && r.origins == [] && r.words == []
    && SplitCall(r.s) == (r.s, [], []) && MergeCall(r.m) == (r.m, [])
  }

  function Start(bits: seq<bool>, words: seq<Word>): Router {
    Router(bits, bits, words, Splitter(Idle, [], []), Merger(Idle, [], [], []), [])
  }

  lemma StalledMergerIsDone(m: Merger)
    requires MergeCall(m) == (m, [])
    ensures MergeAll(m.mode, m.originIn, m.input0, m.input1) == []
  {
    OriginsShrink(m);
  }

  lemma OriginsShrink(m: Merger)
    ensures m.mode.Idle? && m.originIn != [] ==> |MergeCall(m).0.originIn| < |m.originIn|
  {
  }

  lemma DestsShrink(s: Splitter)
    ensures s.mode.Idle? && s.destIn != [] ==> |SplitCall(s).0.destIn| < |s.destIn|
  {
  }

  lemma StalledSplitterIsDone(s: Splitter, side: bool)
    requires SplitCall(s) == (s, [], [])
    ensures SplitAll(s.mode, s.destIn, s.input, side) == []
  {
    DestsShrink(s);
  }

  /** For every order of arrivals and calls, the merged stream is a prefix of the original, and all of it in the end;
      so no packet is ever interleaved with another. */
  lemma SplitMergeIsIdentity(bits: seq<bool>, words: seq<Word>, schedule: seq<Event>)
    requires Starts(true, words) <= |bits|
    ensures Run(Start(bits, words), schedule).out <= words
    ensures Drained(Run(Start(bits, words), schedule)) ==> Run(Start(bits, words), schedule).out == words
  {
    var r := Start(bits, words);
    RunKeeps(r, schedule);
    MergeUndoesSplit(Idle, bits, words);
    assert Total(r) == words by {
      assert [] + bits == bits && [] + words == words;
      assert forall side :: [] + SplitAll(Idle, bits, words, side) == SplitAll(Idle, bits, words, side);
    }
    var end := Run(r, schedule);
    if Drained(end) {
      assert end.s.destIn + [] == end.s.destIn && end.s.input + [] == end.s.input
          && end.m.originIn + [] == end.m.originIn;
      StalledSplitterIsDone(end.s, false);
      StalledSplitterIsDone(end.s, true);
      assert end.m.input0 + [] == end.m.input0 && end.m.input1 + [] == end.m.input1;
      StalledMergerIsDone(end.m);
    }
  }

  // ---------- Whole packets ----------

  /** Non-empty, and only the final word is marked last. */
  ghost predicate IsPacket(p: seq<Word>) {
    p != [] && p[|p| - 1].last && forall i | 0 <= i < |p| - 1 :: !p[i].last
  }

  function Concat(ps: seq<seq<Word>>): seq<Word> {
    if ps == [] then [] else ps[0] + Concat(ps[1..])
  }

  /** The packets whose control bit is `side`. */
  function Chosen(ps: seq<seq<Word>>, bits: seq<bool>, side: bool): seq<seq<Word>>
    requires |bits| == |ps|
  {
    if ps == [] then []
    else (if bits[0] == side then [ps[0]] else []) + Chosen(ps[1..], bits[1..], side)
  }

  lemma SplitWord(dest: bool, bits: seq<bool>, x: Word, rest: seq<Word>, side: bool)
    ensures SplitAll(Fwd(dest), bits, [x] + rest, side)
         == (if dest == side then [x] else []) + SplitAll(After(dest, x), bits, rest, side)
  {
    assert ([x] + rest)[0] == x && ([x] + rest)[1..] == rest;
  }

  lemma {:induction false} SplitPacket(dest: bool, bits: seq<bool>, p: seq<Word>, rest: seq<Word>, side: bool)
    requires IsPacket(p)
    ensures SplitAll(Fwd(dest), bits, p + rest, side)
        == (if dest == side then p else []) + SplitAll(Idle, bits, rest, side)
    decreases |p|
  {
    hide SplitAll;
    SplitWord(dest, bits, p[0], p[1..] + rest, side);
    assert [p[0]] + (p[1..] + rest) == p + rest;
    if |p| == 1 {
      assert p[1..] + rest == rest && p == [p[0]];
    } else {
      assert IsPacket(p[1..]);
      SplitPacket(dest, bits, p[1..], rest, side);
      assert p == [p[0]] + p[1..];
    }
  }

  /** Each output of the splitter receives exactly the packets addressed to it, whole and in order. */
  lemma {:induction false} SplitProjects(bits: seq<bool>, ps: seq<seq<Word>>, side: bool)
    requires |bits| == |ps| && forall i | 0 <= i < |ps| :: IsPacket(ps[i])
    ensures SplitAll(Idle, bits, Concat(ps), side) == Concat(Chosen(ps, bits, side))
    decreases |ps|
  {
    if ps != [] {
      var rest := Concat(ps[1..]);
      assert IsPacket(ps[0]) && ps[0] + rest != [];
      assert SplitAll(Idle, bits, ps[0] + rest, side) == SplitAll(Fwd(bits[0]), bits[1..], ps[0] + rest, side);
      SplitPacket(bits[0], bits[1..], ps[0], rest, side);
      SplitProjects(bits[1..], ps[1..], side);
      var chosen := Chosen(ps, bits, side);
      if bits[0] == side {
        assert chosen[0] == ps[0] && chosen[1..] == Chosen(ps[1..], bits[1..], side);
      } else {
        assert chosen == Chosen(ps[1..], bits[1..], side);
      }
    }
  }

  lemma {:induction false} MergePacket(origin: bool, bits: seq<bool>, p: seq<Word>, in0: seq<Word>, in1: seq<Word>)
    requires IsPacket(p)
    ensures MergeAll(Fwd(origin), bits, if origin then in0 else p + in0, if origin then p + in1 else in1)
         == p + MergeAll(Idle, bits, in0, in1)
    decreases |p|
  {
    assert (p + in0)[0] == p[0] && (p + in0)[1..] == p[1..] + in0;
    assert (p + in1)[0] == p[0] && (p + in1)[1..] == p[1..] + in1;
    if |p| == 1 {
      assert p[1..] + in0 == in0 && p[1..] + in1 == in1 && p == [p[0]];
    } else {
      assert IsPacket(p[1..]);
      MergePacket(origin, bits, p[1..], in0, in1);
      assert p == [p[0]] + p[1..];
    }
  }

  /** The control bits never ask for a packet that is not there. */
  predicate Supplied(bits: seq<bool>, n0: nat, n1: nat) {
    bits == [] || (if bits[0] then n1 > 0 && Supplied(bits[1..], n0, n1 - 1)
                   else n0 > 0 && Supplied(bits[1..], n0 - 1, n1))
  }

  function Interleaved(bits: seq<bool>, ps0: seq<seq<Word>>, ps1: seq<seq<Word>>): seq<seq<Word>>
    requires Supplied(bits, |ps0|, |ps1|)
  {
    if bits == [] then []
    else if bits[0] then [ps1[0]] + Interleaved(bits[1..], ps0, ps1[1..])
    else [ps0[0]] + Interleaved(bits[1..], ps0[1..], ps1)
  }

  /** The merger takes whole packets, in the order the control bits ask for. */
  lemma {:induction false} MergeInterleaves(bits: seq<bool>, ps0: seq<seq<Word>>, ps1: seq<seq<Word>>)
    requires Supplied(bits, |ps0|, |ps1|)
    requires forall i | 0 <= i < |ps0| :: IsPacket(ps0[i])
    requires forall i | 0 <= i < |ps1| :: IsPacket(ps1[i])
    ensures MergeAll(Idle, bits, Concat(ps0), Concat(ps1)) == Concat(Interleaved(bits, ps0, ps1))
    decreases |bits|
  {
    if bits != [] {
      var result := Interleaved(bits, ps0, ps1);
      if bits[0] {
        MergePacket(true, bits[1..], ps1[0], Concat(ps0), Concat(ps1[1..]));
        MergeInterleaves(bits[1..], ps0, ps1[1..]);
        assert result[1..] == Interleaved(bits[1..], ps0, ps1[1..]);
      } else {
        MergePacket(false, bits[1..], ps0[0], Concat(ps0[1..]), Concat(ps1));
        MergeInterleaves(bits[1..], ps0[1..], ps1);
        assert result[1..] == Interleaved(bits[1..], ps0[1..], ps1);
      }
    }
  }

  // ---------- pass_valid_pkg ----------

  /** VALID, FWD, DROP. */
  datatype PassMode = Valid | Pass | Drop

  datatype Passer = Passer(mode: PassMode, valids: seq<bool>, input: seq<Word>)

  function PassCall(p: Passer): (Passer, seq<Word>) {
    match p.mode
    case Valid =>
      if p.valids == [] || p.input == [] then (p, [])
      else
        var x, rest, valids := p.input[0], p.input[1..], p.valids[1..];
        if p.valids[0] then (Passer(if x.last then Valid else Pass, valids, rest), [x])
        else (Passer(if x.last then Valid else Drop, valids, rest), [])
    case Pass =>
      if p.input == [] then (p, [])
      else (p.(mode := if p.input[0].last then Valid else Pass, input := p.input[1..]), [p.input[0]])
    case Drop =>
      if p.input == [] then (p, [])
      else (p.(mode := if p.input[0].last then Valid else Drop, input := p.input[1..]), [])
  }

  function PassAll(p: Passer): seq<Word>
    decreases |p.input|
  {
    var (p', outs) := PassCall(p);
    if |p'.input| < |p.input| then outs + PassAll(p') else []
  }

  lemma {:induction false} PassPacket(valid: bool, valids: seq<bool>, p: seq<Word>, rest: seq<Word>)
    requires IsPacket(p)
    ensures PassAll(Passer(if valid then Pass else Drop, valids, p + rest))
        == (if valid then p else []) + PassAll(Passer(Valid, valids, rest))
    decreases |p|
  {
    assert (p + rest)[0] == p[0] && (p + rest)[1..] == p[1..] + rest;
    if |p| == 1 {
      assert p[1..] + rest == rest && p == [p[0]];
    } else {
      assert IsPacket(p[1..]);
      PassPacket(valid, valids, p[1..], rest);
      assert p == [p[0]] + p[1..];
    }
  }

  /** Exactly the packets marked valid pass, whole and in order. */
  lemma {:induction false} PassesValidPackets(valids: seq<bool>, ps: seq<seq<Word>>)
    requires |valids| == |ps| && forall i | 0 <= i < |ps| :: IsPacket(ps[i])
    ensures PassAll(Passer(Valid, valids, Concat(ps))) == Concat(Chosen(ps, valids, true))
    decreases |ps|
  {
    if ps != [] {
      var rest := Concat(ps[1..]);
      var p := ps[0];
      PassFirst(valids, p, rest);
      PassesValidPackets(valids[1..], ps[1..]);
      var chosen := Chosen(ps, valids, true);
      if valids[0] {
        assert chosen[0] == p && chosen[1..] == Chosen(ps[1..], valids[1..], true);
      } else {
        assert chosen == Chosen(ps[1..], valids[1..], true);
      }
    }
  }

  lemma PassFirst(valids: seq<bool>, p: seq<Word>, rest: seq<Word>)
    requires IsPacket(p) && valids != []
    ensures PassAll(Passer(Valid, valids, p + rest))
        == (if valids[0] then p else []) + PassAll(Passer(Valid, valids[1..], rest))
  {
    assert (p + rest)[0] == p[0] && (p + rest)[1..] == p[1..] + rest;
    if |p| == 1 {
      assert p[1..] + rest == rest && p == [p[0]];
    } else {
      assert IsPacket(p[1..]);
      PassPacket(valids[0], valids[1..], p[1..], rest);
      assert p == [p[0]] + p[1..];
    }
  }
}
