/** The one-word-per-call state machines of fpga-network-stack/hls/axi_utils.hpp, and pipelines of them under any
    schedule. */
module AxiMachines {
  import opened Bytes
  import opened Arith
  import opened AxiWords

  /** The static variables of one instance.
      Widen: increaseStreamWidth from w to w * d bytes; `clear` is whether temp.data is zeroed, as it is outside
      synthesis.
      Narrow: reduceStreamWidth from w * d to w bytes.
      LShift, RShift: lshiftWordByOctet and rshiftWordByOctet on words of w bytes. */
  datatype Machine =
    | Widen(d: nat, w: nat, clear: bool, count: nat, temp: Word)
    | Narrow(d: nat, w: nat, second: bool, count: nat, cur: Word)
    | LShift(offset: nat, w: nat, first: bool, remainder: bool, prev: Word)
    | RShift(offset: nat, w: nat, first: bool, remainder: bool, prev: Word)

  function InWidth(m: Machine): nat {
    match m
    case Widen(d, w, _, _, _) => w
    case Narrow(d, w, _, _, _) => w * d
    case LShift(_, w, _, _, _) => w
    case RShift(_, w, _, _, _) => w
  }

  function OutWidth(m: Machine): nat {
    match m
    case Widen(d, w, _, _, _) => w * d
    case Narrow(d, w, _, _, _) => w
    case LShift(_, w, _, _, _) => w
    case RShift(_, w, _, _, _) => w
  }

  /** The template parameters and offsets make sense, and the registers have the right width. */
  predicate Ok(m: Machine) {
    match m
    case Widen(d, w, _, count, temp) => w > 0 && count < d && HasWidth(temp, w * d)
    case Narrow(d, w, second, count, cur) => w > 0 && d >= 2 && HasWidth(cur, w * d) && (second ==> 0 < count < d)
    case LShift(offset, w, _, remainder, prev) => offset < w && HasWidth(prev, w) && (remainder ==> offset > 0)
    case RShift(offset, w, first, remainder, prev) =>
      offset < w && HasWidth(prev, w) && (remainder ==> offset > 0) && (offset == 0 ==> !first)
  }

  /** The number of calls that will write without reading. */
  function Busy(m: Machine): nat
    requires Ok(m)
  {
    match m
    case Widen(_, _, _, _, _) => 0
    case Narrow(d, _, second, count, _) => if second then d - count else 0
    case LShift(_, _, _, remainder, _) => if remainder then 1 else 0
    case RShift(_, _, _, remainder, _) => if remainder then 1 else 0
  }

  /** x with the bits from position `at` on replaced by `part`: the range assignment data(hi, lo) = part. */
  function Splice<T>(x: seq<T>, at: nat, part: seq<T>): (r: seq<T>)
    requires at + |part| <= |x|
    ensures |r| == |x|
  {
    x[..at] + part + x[at + |part|..]
  }

  function Zeros(n: nat): (r: seq<Byte>)
    ensures |r| == n && forall i | 0 <= i < n :: r[i] == 0
  {
    seq(n, _ => 0)
  }

  function NoKeep(n: nat): (r: seq<bool>)
    ensures |r| == n && forall i | 0 <= i < n :: !r[i]
  {
    seq(n, _ => false)
  }

  function AnyKept(keep: seq<bool>): bool { exists i :: 0 <= i < |keep| && keep[i] }

  lemma LaneFits(d: nat, w: nat, count: nat)
    requires count < d
    ensures w * count + w <= w * d && 0 <= w * count
  {
    BlocksInOrder(count, d, w);
    assert w * count == count * w && w * d == d * w;
  }

  // ---------- One call ----------

  function WidenStep(m: Machine, x: Word): (Machine, seq<Word>)
    requires m.Widen? && Ok(m) && HasWidth(x, m.w)
  {
    LaneFits(m.d, m.w, m.count);
    var temp := Word(Splice(m.temp.data, m.w * m.count, x.data), Splice(m.temp.keep, m.w * m.count, x.keep), x.last);
    if x.last || m.count + 1 == m.d then
      (m.(count := 0, temp := Word(if m.clear then Zeros(m.w * m.d) else temp.data, NoKeep(m.w * m.d), temp.last)),
       [temp])
    else
      (m.(count := m.count + 1, temp := temp), [])
  }

  /** Drops the lowest w bytes; the top lane keeps its data but is no longer marked. */
  function ShiftDown(x: Word, d: nat, w: nat): Word
    requires d >= 1 && HasWidth(x, w * d)
  {
    LaneFits(d, w, 0);
    Word(Splice(x.data, 0, x.data[w..]), x.keep[w..] + NoKeep(w), x.last)
  }

  function NarrowStep(m: Machine, x: Word): (Machine, seq<Word>)
    requires m.Narrow? && Ok(m) && HasWidth(x, m.w * m.d) && (m.second ==> x == m.cur)
  {
    LaneFits(m.d, m.w, 1);
    var low := Word(x.data[..m.w], x.keep[..m.w], !x.keep[m.w]);
    if !m.second then
      (m.(second := x.keep[m.w], count := if x.keep[m.w] then 1 else m.count, cur := ShiftDown(x, m.d, m.w)), [low])
    else
      var out := if m.count < m.d - 1 then low else low.(last := x.last);
      (m.(second := !(m.count + 1 == m.d || out.last), count := m.count + 1, cur := ShiftDown(x, m.d, m.w)), [out])
  }

  /** keep(offset-1, 0) = 0xFFFFFFFF: a 32-bit constant, so at most 32 ones. */
  function Ones32(offset: nat): seq<bool> { seq(offset, i => i < 32) }

  function LShiftStep(m: Machine, x: Word): (Machine, seq<Word>)
    requires m.LShift? && Ok(m) && !m.remainder && HasWidth(x, m.w)
  {
    if m.offset == 0 then (m, [x])
    else
      var cut := m.w - m.offset;
      var send := Word((if m.first then Zeros(m.offset) else m.prev.data[cut..]) + x.data[..cut],
                       (if m.first then Ones32(m.offset) else m.prev.keep[cut..]) + x.keep[..cut],
                       !AnyKept(x.keep[cut..]));
      (LShift(m.offset, m.w, x.last, x.last && !send.last, x), [send])
  }

  function LShiftRemainder(m: Machine): (Machine, seq<Word>)
    requires m.LShift? && Ok(m) && m.remainder
  {
    var cut := m.w - m.offset;
    (LShift(m.offset, m.w, m.first, false, m.prev),
     [Word(m.prev.data[cut..] + Zeros(cut), m.prev.keep[cut..] + NoKeep(cut), true)])
  }

  function RShiftStep(m: Machine, x: Word): (Machine, seq<Word>)
    requires m.RShift? && Ok(m) && !m.remainder && HasWidth(x, m.w)
  {
    var send := if m.offset == 0 then x
                else Word(m.prev.data[m.offset..] + x.data[..m.offset], m.prev.keep[m.offset..] + x.keep[..m.offset],
                          !AnyKept(x.keep[m.offset..]));
    var sendLast := !m.first && send.last;  // sendWord.last is 0 when nothing is assigned to it
    (RShift(m.offset, m.w, x.last && m.offset != 0, x.last && !sendLast, x), if m.first then [] else [send])
  }

  function RShiftRemainder(m: Machine): (Machine, seq<Word>)
    requires m.RShift? && Ok(m) && m.remainder
  {
    (RShift(m.offset, m.w, m.first, false, m.prev),
     [Word(m.prev.data[m.offset..] + Zeros(m.offset), m.prev.keep[m.offset..] + NoKeep(m.offset), true)])
  }

  predicate AllWidth(s: seq<Word>, w: nat) {
    forall i | 0 <= i < |s| :: HasWidth(s[i], w)
  }

  predicate Fits(m: Machine, input: seq<Word>) {
    Ok(m) && AllWidth(input, InWidth(m))
  }

  /** The call does nothing: there is nothing to read and nothing left to write. */
  predicate Stalled(m: Machine, input: seq<Word>)
    requires Ok(m)
  {
    Busy(m) == 0 && input == []
  }

  /** One call: the registers afterwards, what is left in the input FIFO, and the words written. */
  function Step(m: Machine, input: seq<Word>): (r: (Machine, seq<Word>, seq<Word>))
    requires Fits(m, input)
  {
    if Stalled(m, input) then (m, input, [])
    else
      match m
      case Widen(_, _, _, _, _) => var (m', outs) := WidenStep(m, input[0]); (m', input[1..], outs)
      case Narrow(_, _, second, _, cur) =>
        if second then var (m', outs) := NarrowStep(m, cur); (m', input, outs)
        else var (m', outs) := NarrowStep(m, input[0]); (m', input[1..], outs)
      case LShift(_, _, _, remainder, _) =>
        if remainder then var (m', outs) := LShiftRemainder(m); (m', input, outs)
        else var (m', outs) := LShiftStep(m, input[0]); (m', input[1..], outs)
      case RShift(_, _, _, remainder, _) =>
        if remainder then var (m', outs) := RShiftRemainder(m); (m', input, outs)
        else var (m', outs) := RShiftStep(m, input[0]); (m', input[1..], outs)
  }

  ghost predicate GoodStep(m: Machine, input: seq<Word>)
    requires Fits(m, input)
  {
    var (m', input', outs) := Step(m, input);
    && Fits(m', input') && InWidth(m') == InWidth(m) && OutWidth(m') == OutWidth(m)
    && AllWidth(outs, OutWidth(m))
    && (!Stalled(m, input) ==> |input'| < |input| || (input' == input && Busy(m') < Busy(m)))
  }

  lemma WidenFacts(m: Machine, input: seq<Word>)
    requires Fits(m, input) && m.Widen?
    ensures GoodStep(m, input)
  {
    LaneFits(m.d, m.w, m.count);
  }

  lemma NarrowFacts(m: Machine, input: seq<Word>)
    requires Fits(m, input) && m.Narrow?
    ensures GoodStep(m, input)
  {
    LaneFits(m.d, m.w, 1);
  }

  lemma ShiftFacts(m: Machine, input: seq<Word>)
    requires Fits(m, input) && (m.LShift? || m.RShift?)
    ensures GoodStep(m, input)
  {
  }

  lemma StepFacts(m: Machine, input: seq<Word>)
    requires Fits(m, input)
    ensures var (m', input', outs) := Step(m, input);
      && Fits(m', input') && InWidth(m') == InWidth(m) && OutWidth(m') == OutWidth(m)
      && AllWidth(outs, OutWidth(m))
      && (!Stalled(m, input) ==> |input'| < |input| || (input' == input && Busy(m') < Busy(m)))
  {
    hide Step, Fits;
    match m
    case Widen(_, _, _, _, _) => WidenFacts(m, input);
    case Narrow(_, _, _, _, _) => NarrowFacts(m, input);
    case LShift(_, _, _, _, _) => ShiftFacts(m, input);
    case RShift(_, _, _, _, _) => ShiftFacts(m, input);
  }

  /** A call looks at no more than the head of the FIFO. */
  lemma StepIsLocal(m: Machine, input: seq<Word>, more: seq<Word>)
    requires Fits(m, input) && Fits(m, more) && !Stalled(m, input)
    ensures Fits(m, input + more) && !Stalled(m, input + more)
    ensures var (m', input', outs) := Step(m, input); Step(m, input + more) == (m', input' + more, outs)
  {
    if input == [] {
      assert input + more == more;
    } else {
      assert (input + more)[0] == input[0] && (input + more)[1..] == input[1..] + more;
    }
  }

  /** Everything the machine writes if it is called until it stalls. */
  function Flush(m: Machine, input: seq<Word>): seq<Word>
    requires Fits(m, input)
    decreases |input|, if Ok(m) then Busy(m) else 0
  {
    StepFacts(m, input);
    if Stalled(m, input) then []
    else var (m', input', outs) := Step(m, input); outs + Flush(m', input')
  }

  lemma FlushUnfold(m: Machine, input: seq<Word>)
    requires Fits(m, input) && !Stalled(m, input)
    ensures var (m', input', outs) := Step(m, input); Fits(m', input') && Flush(m, input) == outs + Flush(m', input')
  {
    StepFacts(m, input);
  }

  lemma {:induction false} FlushFits(m: Machine, input: seq<Word>)
    requires Fits(m, input)
    ensures AllWidth(Flush(m, input), OutWidth(m))
    decreases |input|, Busy(m)
  {
    StepFacts(m, input);
    if !Stalled(m, input) {
      FlushFits(Step(m, input).0, Step(m, input).1);
    }
  }

  lemma FlushStep(m: Machine, queue: seq<Word>, more: seq<Word>)
    requires Fits(m, queue) && AllWidth(more, InWidth(m))
    ensures var (m', queue', outs) := Step(m, queue);
      && Fits(m, queue + more) && Fits(m', queue' + more)
      && Flush(m, queue + more) == outs + Flush(m', queue' + more)
  {
    StepFacts(m, queue);
    if Stalled(m, queue) {
      assert [] + Flush(m, queue + more) == Flush(m, queue + more);
    } else {
      StepIsLocal(m, queue, more);
    }
  }

  // ---------- Pipelines ----------

  /** Machines connected by FIFOs; `out` is what has left the last one. */
  datatype Line = End(out: seq<Word>) | Stage(queue: seq<Word>, m: Machine, next: Line)

  /** Every stage reads words of the width the previous one writes; the first reads words of width w. */
  predicate LineOk(l: Line, w: nat) {
    match l
    case End(_) => true
    case Stage(queue, m, next) => Fits(m, queue) && InWidth(m) == w && LineOk(next, OutWidth(m))
  }

  function Written(l: Line): seq<Word> {
    match l
    case End(out) => out
    case Stage(_, _, next) => Written(next)
  }

  /** All that will have left the pipeline if `more` arrives and everybody is called until all stall. */
  function Total(l: Line, w: nat, more: seq<Word>): seq<Word>
    requires LineOk(l, w) && AllWidth(more, w)
  {
    match l
    case End(out) => out + more
    case Stage(queue, m, next) =>
      FlushFits(m, queue + more);
      Total(next, OutWidth(m), Flush(m, queue + more))
  }

  function Push(l: Line, words: seq<Word>): Line {
    match l
    case End(out) => End(out + words)
    case Stage(queue, m, next) => Stage(queue + words, m, next)
  }

  /** Calls stage i once. */
  function Call(l: Line, w: nat, i: nat): Line
    requires LineOk(l, w)
  {
    match l
    case End(_) => l
    case Stage(queue, m, next) =>
      if i == 0 then var (m', queue', outs) := Step(m, queue); Stage(queue', m', Push(next, outs))
      else Stage(queue, m, Call(next, OutWidth(m), i - 1))
  }

  /** Words already in the first queue and words still to come are the same thing. */
  lemma PushAbsorbs(l: Line, w: nat, words: seq<Word>, more: seq<Word>)
    requires LineOk(l, w) && AllWidth(words, w) && AllWidth(more, w)
    ensures LineOk(Push(l, words), w) && AllWidth(words + more, w)
    ensures Total(l, w, words + more) == Total(Push(l, words), w, more)
  {
    match l
    case End(out) =>
      assert out + (words + more) == (out + words) + more;
    case Stage(queue, m, next) =>
      assert queue + (words + more) == (queue + words) + more;
  }

  lemma {:induction false} CallKeeps(l: Line, w: nat, i: nat, more: seq<Word>)
    requires LineOk(l, w) && AllWidth(more, w)
    ensures LineOk(Call(l, w, i), w) && Total(Call(l, w, i), w, more) == Total(l, w, more)
    decreases l
  {
    match l
    case End(_) =>
    case Stage(queue, m, next) =>
      FlushFits(m, queue + more);
      if i == 0 {
        CallFirstKeeps(queue, m, next, w, more);
      } else {
        CallKeeps(next, OutWidth(m), i - 1, Flush(m, queue + more));
      }
  }

  lemma CallFirstKeeps(queue: seq<Word>, m: Machine, next: Line, w: nat, more: seq<Word>)
    requires LineOk(Stage(queue, m, next), w) && AllWidth(more, w)
    ensures var l := Stage(queue, m, next);
      LineOk(Call(l, w, 0), w) && Total(Call(l, w, 0), w, more) == Total(l, w, more)
  {
    StepFacts(m, queue);
    FlushStep(m, queue, more);
    var (m', queue', outs) := Step(m, queue);
    hide Step, Flush, Stalled, Busy, Ok;
    FlushFits(m', queue' + more);
    FlushFits(m, queue + more);
    PushAbsorbs(next, OutWidth(m), outs, Flush(m', queue' + more));
  }

  /** One turn of an arbitrary schedule: the next word arrives, or some stage is called, perhaps in vain. */
  datatype Event = Arrive | CallStage(i: nat)

  datatype System = System(upstream: seq<Word>, line: Line)

  predicate SystemOk(s: System, w: nat) {
    LineOk(s.line, w) && AllWidth(s.upstream, w)
  }

  function Act(s: System, w: nat, e: Event): System
    requires SystemOk(s, w)
  {
    match e
    case Arrive => if s.upstream == [] then s else System(s.upstream[1..], Push(s.line, [s.upstream[0]]))
    case CallStage(i) => System(s.upstream, Call(s.line, w, i))
  }

  lemma ActKeeps(s: System, w: nat, e: Event)
    requires SystemOk(s, w)
    ensures SystemOk(Act(s, w, e), w)
    ensures Total(Act(s, w, e).line, w, Act(s, w, e).upstream) == Total(s.line, w, s.upstream)
  {
    match e
    case Arrive =>
      if s.upstream != [] {
        assert [s.upstream[0]] + s.upstream[1..] == s.upstream;
        PushAbsorbs(s.line, w, [s.upstream[0]], s.upstream[1..]);
      }
    case CallStage(i) => CallKeeps(s.line, w, i, s.upstream);
  }

  function Run(s: System, w: nat, schedule: seq<Event>): (r: System)
    requires SystemOk(s, w)
    ensures SystemOk(r, w)
    decreases |schedule|
  {
    if schedule == [] then s
    else
      ActKeeps(s, w, schedule[0]);
      Run(Act(s, w, schedule[0]), w, schedule[1..])
  }

  /** Nothing is left to arrive, to read or to write. */
  predicate Drained(s: System, w: nat)
    requires SystemOk(s, w)
  {
    s.upstream == [] && Quiet(s.line, w)
  }

  predicate Quiet(l: Line, w: nat)
    requires LineOk(l, w)
  {
    match l
    case End(_) => true
    case Stage(queue, m, next) => Stalled(m, queue) && Quiet(next, OutWidth(m))
  }

  lemma {:induction false} WrittenIsPrefix(l: Line, w: nat, more: seq<Word>)
    requires LineOk(l, w) && AllWidth(more, w)
    ensures Written(l) <= Total(l, w, more)
    ensures Quiet(l, w) && more == [] ==> Written(l) == Total(l, w, more)
    decreases l
  {
    match l
    case End(_) =>
    case Stage(queue, m, next) =>
      FlushFits(m, queue + more);
      WrittenIsPrefix(next, OutWidth(m), Flush(m, queue + more));
      if Quiet(l, w) && more == [] {
        assert queue + more == [];
      }
  }

  /** Whatever the schedule, what has left the pipeline is a prefix of what an unstalled run writes, and all of it once
      drained. */
  lemma {:induction false} AnySchedule(s: System, w: nat, schedule: seq<Event>)
    requires SystemOk(s, w)
    ensures Written(Run(s, w, schedule).line) <= Total(s.line, w, s.upstream)
    ensures Drained(Run(s, w, schedule), w) ==> Written(Run(s, w, schedule).line) == Total(s.line, w, s.upstream)
    decreases |schedule|
  {
    if schedule == [] {
      WrittenIsPrefix(s.line, w, s.upstream);
    } else {
      ActKeeps(s, w, schedule[0]);
      AnySchedule(Act(s, w, schedule[0]), w, schedule[1..]);
    }
  }

  // ---------- Progress ----------

  /** The first stage that can do something, if any. */
  function ReadyStage(l: Line, w: nat): nat
    requires LineOk(l, w)
  {
    match l
    case End(_) => 0
    case Stage(queue, m, next) => if Stalled(m, queue) then 1 + ReadyStage(next, OutWidth(m)) else 0
  }

  /** The number of calls an unstalled run still makes. */
  function CallsLeft(m: Machine, input: seq<Word>): nat
    requires Fits(m, input)
    decreases |input|, if Ok(m) then Busy(m) else 0
  {
    StepFacts(m, input);
    if Stalled(m, input) then 0 else 1 + CallsLeft(Step(m, input).0, Step(m, input).1)
  }

  function Work(l: Line, w: nat, more: seq<Word>): nat
    requires LineOk(l, w) && AllWidth(more, w)
  {
    match l
    case End(_) => 0
    case Stage(queue, m, next) =>
      FlushFits(m, queue + more);
      CallsLeft(m, queue + more) + Work(next, OutWidth(m), Flush(m, queue + more))
  }

  lemma PushKeepsWork(l: Line, w: nat, words: seq<Word>, more: seq<Word>)
    requires LineOk(l, w) && AllWidth(words, w) && AllWidth(more, w)
    ensures LineOk(Push(l, words), w) && AllWidth(words + more, w)
    ensures Work(l, w, words + more) == Work(Push(l, words), w, more)
  {
    match l
    case End(_) =>
    case Stage(queue, m, next) =>
      assert queue + (words + more) == (queue + words) + more;
  }

  /** Calling a stage that can do something brings the pipeline one call closer to the end. */
  lemma {:induction false} ReadyCallWorks(l: Line, w: nat, more: seq<Word>)
    requires LineOk(l, w) && AllWidth(more, w) && !Quiet(l, w)
    ensures LineOk(Call(l, w, ReadyStage(l, w)), w)
    ensures Work(Call(l, w, ReadyStage(l, w)), w, more) == Work(l, w, more) - 1
    decreases l
  {
    match l
    case Stage(queue, m, next) =>
      FlushFits(m, queue + more);
      if Stalled(m, queue) {
        ReadyCallWorks(next, OutWidth(m), Flush(m, queue + more));
      } else {
        StepFacts(m, queue);
        FlushStep(m, queue, more);
        StepIsLocal(m, queue, more);
        var (m', queue', outs) := Step(m, queue);
        FlushFits(m', queue' + more);
        assert CallsLeft(m, queue + more) == 1 + CallsLeft(m', queue' + more);
        PushKeepsWork(next, OutWidth(m), outs, Flush(m', queue' + more));
      }
  }

  /** From every state some schedule drains the pipeline. */
  lemma {:induction false} CanDrain(s: System, w: nat) returns (schedule: seq<Event>)
    requires SystemOk(s, w)
    ensures Drained(Run(s, w, schedule), w)
    decreases |s.upstream|, Work(s.line, w, s.upstream)
  {
    if s.upstream != [] {
      ActKeeps(s, w, Arrive);
      var rest := CanDrain(Act(s, w, Arrive), w);
      schedule := [Arrive] + rest;
      assert schedule[1..] == rest;
    } else if !Quiet(s.line, w) {
      var e := CallStage(ReadyStage(s.line, w));
      ReadyCallWorks(s.line, w, []);
      ActKeeps(s, w, e);
      var rest := CanDrain(Act(s, w, e), w);
      schedule := [e] + rest;
      assert schedule[1..] == rest;
    } else {
      schedule := [];
    }
  }
}
