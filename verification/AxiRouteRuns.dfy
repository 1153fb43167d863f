/** stream_pkg_splitter, stream_pkg_merger and pass_valid_pkg of fpga-network-stack/hls/axi_utils.hpp, each on its own
    under every schedule of arrivals and calls. */
module AxiRouteRuns {
  import opened AxiWords
  import opened AxiRoute

  /** One of the three machines with its input FIFOs. */
  datatype Node = Split(s: Splitter) | Merge(m: Merger) | Filter(p: Passer)

  /** More control bits and more words arrive; only the merger has a second input. */
  function Feed(n: Node, bits: seq<bool>, words0: seq<Word>, words1: seq<Word>): Node {
    match n
    case Split(s) => Split(s.(destIn := s.destIn + bits, input := s.input + words0))
    case Merge(m) => Merge(m.(originIn := m.originIn + bits, input0 := m.input0 + words0, input1 := m.input1 + words1))
    case Filter(p) => Filter(p.(valids := p.valids + bits, input := p.input + words0))
  }

  /** One call: the machine afterwards, and what went to each output; only the splitter has a second output. */
  function Call(n: Node): (Node, seq<Word>, seq<Word>) {
    match n
    case Split(s) => var (s', out0, out1) := SplitCall(s); (Split(s'), out0, out1)
    case Merge(m) => var (m', out) := MergeCall(m); (Merge(m'), out, [])
    case Filter(p) => var (p', out) := PassCall(p); (Filter(p'), out, [])
  }

  /** Everything written to one output if nothing more arrives and the machine is called until it stalls. */
  function All(n: Node, side: bool): seq<Word> {
    match n
    case Split(s) => SplitAll(s.mode, s.destIn, s.input, side)
    case Merge(m) => if side then [] else MergeAll(m.mode, m.originIn, m.input0, m.input1)
    case Filter(p) => if side then [] else PassAll(p)
  }

  lemma PassCallKeeps(p: Passer, bits: seq<bool>, words: seq<Word>)
    ensures var (p', out) := PassCall(p);
      PassAll(Passer(p.mode, p.valids + bits, p.input + words))
          == out + PassAll(Passer(p'.mode, p'.valids + bits, p'.input + words))
  {
    if p.input != [] {
      assert (p.input + words)[0] == p.input[0] && (p.input + words)[1..] == p.input[1..] + words;
    }
    if p.valids != [] {
      assert (p.valids + bits)[0] == p.valids[0] && (p.valids + bits)[1..] == p.valids[1..] + bits;
    }
    var (p', out) := PassCall(p);
    if p' == p {
      assert [] + PassAll(Passer(p.mode, p.valids + bits, p.input + words))
          == PassAll(Passer(p.mode, p.valids + bits, p.input + words));
    }
  }

  lemma CallKeeps(n: Node, bits: seq<bool>, words0: seq<Word>, words1: seq<Word>, side: bool)
    ensures var (n', out0, out1) := Call(n);
      All(Feed(n, bits, words0, words1), side)
          == (if side then out1 else out0) + All(Feed(n', bits, words0, words1), side)
  {
    hide SplitAll, MergeAll, PassAll, SplitCall, MergeCall, PassCall;
    match n
    case Split(s) => SplitCallKeeps(s, bits, words0, side);
    case Merge(m) => MergeCallKeeps(m, bits, words0, words1);
    case Filter(p) => PassCallKeeps(p, bits, words0);
  }

  // ---------- A machine on the bench ----------

  /** What has not arrived yet, the machine, and what has left it. */
  datatype Bench = Bench(bits: seq<bool>, words0: seq<Word>, words1: seq<Word>, node: Node, out0: seq<Word>,
                         out1: seq<Word>)

  datatype Event = BitArrives | WordArrives(side: bool) | CallNode

  function Act(b: Bench, e: Event): Bench {
    match e
    case BitArrives => if b.bits == [] then b else b.(bits := b.bits[1..], node := Feed(b.node, [b.bits[0]], [], []))
    case WordArrives(side) =>
      if side then
          (if b.words1 == [] then b else b.(words1 := b.words1[1..], node := Feed(b.node, [], [], [b.words1[0]])))
      else (if b.words0 == [] then b else b.(words0 := b.words0[1..], node := Feed(b.node, [], [b.words0[0]], [])))
    case CallNode => var (n, out0, out1) := Call(b.node); b.(node := n, out0 := b.out0 + out0, out1 := b.out1 + out1)
  }

  function Run(b: Bench, schedule: seq<Event>): Bench
    decreases |schedule|
  {
    if schedule == [] then b else Run(Act(b, schedule[0]), schedule[1..])
  }

  function Out(b: Bench, side: bool): seq<Word> { if side then b.out1 else b.out0 }

  /** All that will have left by one output once everything has arrived and has been dealt with. */
  function Total(b: Bench, side: bool): seq<Word> {
    Out(b, side) + All(Feed(b.node, b.bits, b.words0, b.words1), side)
  }

  lemma FeedTwice(n: Node, bits: seq<bool>, bits': seq<bool>, words0: seq<Word>, words0': seq<Word>, words1: seq<Word>,
                  words1': seq<Word>)
    ensures Feed(Feed(n, bits, words0, words1), bits', words0', words1')
        == Feed(n, bits + bits', words0 + words0', words1 + words1')
  {
    match n
    case Split(s) =>
      assert (s.destIn + bits) + bits' == s.destIn + (bits + bits')
          && (s.input + words0) + words0' == s.input + (words0 + words0');
    case Merge(m) =>
      assert (m.originIn + bits) + bits' == m.originIn + (bits + bits')
          && (m.input0 + words0) + words0' == m.input0 + (words0 + words0')
        && (m.input1 + words1) + words1' == m.input1 + (words1 + words1');
    case Filter(p) =>
      assert (p.valids + bits) + bits' == p.valids + (bits + bits')
          && (p.input + words0) + words0' == p.input + (words0 + words0');
  }

  lemma ActKeeps(b: Bench, e: Event, side: bool)
    ensures Total(Act(b, e), side) == Total(b, side)
  {
    hide Feed, All, Call;
    match e
    case BitArrives =>
      if b.bits != [] {
        FeedTwice(b.node, [b.bits[0]], b.bits[1..], [], b.words0, [], b.words1);
        assert [b.bits[0]] + b.bits[1..] == b.bits && [] + b.words0 == b.words0 && [] + b.words1 == b.words1;
      }
    case WordArrives(s) =>
      if s && b.words1 != [] {
        FeedTwice(b.node, [], b.bits, [], b.words0, [b.words1[0]], b.words1[1..]);
        assert [b.words1[0]] + b.words1[1..] == b.words1 && [] + b.words0 == b.words0 && [] + b.bits == b.bits;
      } else if !s && b.words0 != [] {
        FeedTwice(b.node, [], b.bits, [b.words0[0]], b.words0[1..], [], b.words1);
        assert [b.words0[0]] + b.words0[1..] == b.words0 && [] + b.words1 == b.words1 && [] + b.bits == b.bits;
      }
    case CallNode =>
      CallKeeps(b.node, b.bits, b.words0, b.words1, side);
      var (n, out0, out1) := Call(b.node);
      var rest := All(Feed(n, b.bits, b.words0, b.words1), side);
      assert (Out(b, side) + (if side then out1 else out0)) + rest
          == Out(b, side) + ((if side then out1 else out0) + rest);
  }

  /** Everything has arrived and a call does nothing. */
  predicate Drained(b: Bench) {
    b.bits == [] && b.words0 == [] && b.words1 == [] && Call(b.node) == (b.node, [], [])
  }

  lemma DrainedIsDone(b: Bench, side: bool)
    requires Drained(b)
    ensures Total(b, side) == Out(b, side)
  {
    match b.node
    case Split(s) =>
      StalledSplitterIsDone(s, side);
      assert s.destIn + [] == s.destIn && s.input + [] == s.input;
    case Merge(m) =>
      StalledMergerIsDone(m);
      assert m.originIn + [] == m.originIn && m.input0 + [] == m.input0 && m.input1 + [] == m.input1;
    case Filter(p) =>
      assert p.valids + [] == p.valids && p.input + [] == p.input;
  }

  /** Whatever the schedule, what has left is a prefix of what an unstalled run writes, and all of it once drained. */
  lemma {:induction false} AnySchedule(b: Bench, schedule: seq<Event>, side: bool)
    ensures Out(Run(b, schedule), side) <= Total(b, side)
    ensures Drained(Run(b, schedule)) ==> Out(Run(b, schedule), side) == Total(b, side)
    decreases |schedule|
  {
    hide Act, Drained;
    if schedule == [] {
      if Drained(b) {
        DrainedIsDone(b, side);
      }
    } else {
      ActKeeps(b, schedule[0], side);
      AnySchedule(Act(b, schedule[0]), schedule[1..], side);
    }
  }

  /** The words and bits a machine still holds. */
  function Held(n: Node): nat {
    match n
    case Split(s) => |s.destIn| + |s.input|
    case Merge(m) => |m.originIn| + |m.input0| + |m.input1|
    case Filter(p) => |p.valids| + |p.input|
  }

  lemma CallUses(n: Node)
    ensures Call(n) == (n, [], []) || Held(Call(n).0) < Held(n)
  {
  }

  /** From every state some schedule drains the machine. */
  lemma {:induction false} CanDrain(b: Bench) returns (schedule: seq<Event>)
    ensures Drained(Run(b, schedule))
    decreases |b.bits| + |b.words0| + |b.words1|, Held(b.node)
  {
    if Drained(b) {
      return [];
    }
    CallUses(b.node);
    var e := if b.bits != [] then BitArrives else if b.words0 != [] then Event.WordArrives(false)
             else if b.words1 != [] then Event.WordArrives(true) else CallNode;
    var rest := CanDrain(Act(b, e));
    schedule := [e] + rest;
    assert schedule[1..] == rest;
  }

  // ---------- What the three machines do to packets ----------

  function OnBench(n: Node, bits: seq<bool>, words0: seq<Word>, words1: seq<Word>): Bench {
    Bench(bits, words0, words1, n, [], [])
  }

  lemma NothingHeld(bits: seq<bool>, words0: seq<Word>, words1: seq<Word>)
    ensures Feed(Split(Splitter(Idle, [], [])), bits, words0, words1) == Split(Splitter(Idle, bits, words0))
    ensures Feed(Merge(Merger(Idle, [], [], [])), bits, words0, words1) == Merge(Merger(Idle, bits, words0, words1))
    ensures Feed(Filter(Passer(Valid, [], [])), bits, words0, words1) == Filter(Passer(Valid, bits, words0))
  {
    assert [] + bits == bits && [] + words0 == words0 && [] + words1 == words1;
  }

  /** For every schedule, each output of the splitter receives the packets addressed to it, whole and in order: a prefix
      of them at any time, and all of them once drained. */
  lemma SplitterProjects(bits: seq<bool>, ps: seq<seq<Word>>, schedule: seq<Event>, side: bool)
    requires |bits| == |ps| && forall i | 0 <= i < |ps| :: IsPacket(ps[i])
    ensures var b := Run(OnBench(Split(Splitter(Idle, [], [])), bits, Concat(ps), []), schedule);
      Out(b, side) <= Concat(Chosen(ps, bits, side)) && (Drained(b) ==> Out(b, side) == Concat(Chosen(ps, bits, side)))
  {
    var b := OnBench(Split(Splitter(Idle, [], [])), bits, Concat(ps), []);
    AnySchedule(b, schedule, side);
    NothingHeld(bits, Concat(ps), []);
    SplitProjects(bits, ps, side);
    assert [] + All(Split(Splitter(Idle, bits, Concat(ps))), side) == Concat(Chosen(ps, bits, side));
  }

  /** For every schedule, the merger takes whole packets in the order the control bits ask for. */
  lemma MergerInterleaves(bits: seq<bool>, ps0: seq<seq<Word>>, ps1: seq<seq<Word>>, schedule: seq<Event>)
    requires Supplied(bits, |ps0|, |ps1|)
    requires forall i | 0 <= i < |ps0| :: IsPacket(ps0[i])
    requires forall i | 0 <= i < |ps1| :: IsPacket(ps1[i])
    ensures var b := Run(OnBench(Merge(Merger(Idle, [], [], [])), bits, Concat(ps0), Concat(ps1)), schedule);
      && b.out0 <= Concat(Interleaved(bits, ps0, ps1)) && (Drained(b) ==> b.out0 == Concat(Interleaved(bits, ps0, ps1)))
  {
    var b := OnBench(Merge(Merger(Idle, [], [], [])), bits, Concat(ps0), Concat(ps1));
    AnySchedule(b, schedule, false);
    NothingHeld(bits, Concat(ps0), Concat(ps1));
    MergeInterleaves(bits, ps0, ps1);
    assert [] + All(Merge(Merger(Idle, bits, Concat(ps0), Concat(ps1))), false) == Concat(Interleaved(bits, ps0, ps1));
  }

  /** For every schedule, exactly the packets marked valid pass, whole and in order. */
  lemma ValidPacketsPass(valids: seq<bool>, ps: seq<seq<Word>>, schedule: seq<Event>)
    requires |valids| == |ps| && forall i | 0 <= i < |ps| :: IsPacket(ps[i])
    ensures var b := Run(OnBench(Filter(Passer(Valid, [], [])), valids, Concat(ps), []), schedule);
      b.out0 <= Concat(Chosen(ps, valids, true)) && (Drained(b) ==> b.out0 == Concat(Chosen(ps, valids, true)))
  {
    var b := OnBench(Filter(Passer(Valid, [], [])), valids, Concat(ps), []);
    AnySchedule(b, schedule, false);
    NothingHeld(valids, Concat(ps), []);
    PassesValidPackets(valids, ps);
    assert [] + All(Filter(Passer(Valid, valids, Concat(ps))), false) == Concat(Chosen(ps, valids, true));
  }

  // ---------- The splitter and the merger together ----------

  lemma RouterCallUses(r: Router)
    ensures SplitCall(r.s) == (r.s, [], []) || Held(Split(AxiRoute.Act(r, CallSplitter).s)) < Held(Split(r.s))
    ensures MergeCall(r.m) == (r.m, []) || Held(Merge(AxiRoute.Act(r, CallMerger).m)) < Held(Merge(r.m))
  {
    CallUses(Split(r.s));
    CallUses(Merge(r.m));
  }

  /** From every state some schedule drains splitter and merger. */
  lemma {:induction false} RouterCanDrain(r: Router) returns (schedule: seq<AxiRoute.Event>)
    ensures AxiRoute.Drained(AxiRoute.Run(r, schedule))
    decreases |r.dests| + |r.origins| + |r.words|, Held(Split(r.s)), Held(Merge(r.m))
  {
    if AxiRoute.Drained(r) {
      return [];
    }
    RouterCallUses(r);
    var e := if r.dests != [] then DestArrives else if r.origins != [] then OriginArrives
        else if r.words != [] then AxiRoute.Event.WordArrives
             else if SplitCall(r.s) != (r.s, [], []) then CallSplitter else CallMerger;
    var rest := RouterCanDrain(AxiRoute.Act(r, e));
    schedule := [e] + rest;
    assert schedule[1..] == rest;
  }
}
