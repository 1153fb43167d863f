/** write_slot and read_slot of CPU_programs/ring_buffer.hpp as two threads really interleave them: no lock, so every
    load and store of head_, tail_ and full_ is a step of its own. The two semaphores around the calls are those of
    CPU_programs/CPU_cooridnator_for_GPU_FPGA.cpp. */
module RingRace {
  import opened Rings

  /** A slot that memcpy has begun to overwrite holds no element. */
  datatype Slot = Torn | Holds(x: int)

  datatype Writer = WaitFree | Copying | TestFull | FetchTail | StoreTail(t: nat) | FetchHead | StoreHead(h: nat)
    | CompareHead | CompareTail(h: nat) | StoreFull(value: bool) | PostAvailable

  /** `heads` in ProbeTail counts the head stores seen by the load of head_; it has no effect on the run. */
  datatype Reader = WaitAvailable | ProbeFull | ProbeHead | ProbeTail(h: nat, heads: nat) | CopyOut | ClearFull
    | LoadTail | AdvanceTail(t: nat) | Return

  datatype State = State(
    slots: seq<Slot>, head: nat, tail: nat, full: bool,
    free: nat, available: nat,
    writer: Writer, started: nat,
    reader: Reader, buf: int, outs: seq<int>, released: nat)

  /** The window slot of an element is given back some time after it has been read. */
  datatype Event = WriterRuns | ReaderRuns | SlotFreed

  predicate Shape(s: State) {
    && s.slots != [] && s.head < |s.slots| && s.tail < |s.slots|
    && (s.writer.StoreTail? ==> s.writer.t < |s.slots|) && (s.writer.StoreHead? ==> s.writer.h < |s.slots|)
    && (s.reader.AdvanceTail? ==> s.reader.t < |s.slots|)
  }

  /** A thread that waits for a semaphore stays where it is. */
  function WriterStep(s: State, input: seq<int>): State
    requires Shape(s)
  {
    var n := |s.slots|;
    match s.writer
    case WaitFree =>
      if s.free == 0 || s.started >= |input| then s
      else s.(free := s.free - 1, started := s.started + 1, writer := Copying, slots := s.slots[s.head := Torn])
    case Copying =>
      if 0 < s.started <= |input| then s.(slots := s.slots[s.head := Holds(input[s.started - 1])], writer := TestFull)
      else s
    case TestFull => s.(writer := if s.full then FetchTail else FetchHead)
    case FetchTail => s.(writer := StoreTail(s.tail))
    case StoreTail(t) => s.(tail := Next(t, n), writer := FetchHead)
    case FetchHead => s.(writer := StoreHead(s.head))
    case StoreHead(h) => s.(head := Next(h, n), writer := CompareHead)
    case CompareHead => s.(writer := CompareTail(s.head))
    case CompareTail(h) => s.(writer := StoreFull(h == s.tail))
    case StoreFull(value) => s.(full := value, writer := PostAvailable)
    case PostAvailable => s.(available := s.available + 1, writer := WaitFree)
  }

  /** The number of times head_ has been stored. */
  function Heads(s: State): int {
    if s.writer.WaitFree? || s.writer.CompareHead? || s.writer.CompareTail? || s.writer.StoreFull?
        || s.writer.PostAvailable?
    then s.started else s.started - 1
  }

  function ReaderStep(s: State): State
    requires Shape(s)
  {
    match s.reader
    case WaitAvailable => if s.available == 0 then s else s.(available := s.available - 1, reader := ProbeFull)
    case ProbeFull => s.(reader := if s.full then CopyOut else ProbeHead)
    case ProbeHead => s.(reader := ProbeTail(s.head, if Heads(s) >= 0 then Heads(s) else 0))
    case ProbeTail(h, _) => s.(reader := if h == s.tail then Return else CopyOut)
    case CopyOut => s.(buf := if s.slots[s.tail].Holds? then s.slots[s.tail].x else 0, reader := ClearFull)
    case ClearFull => s.(full := false, reader := LoadTail)
    case LoadTail => s.(reader := AdvanceTail(s.tail))
    case AdvanceTail(t) => s.(tail := Next(t, |s.slots|), reader := Return)
    case Return => s.(outs := s.outs + [s.buf], reader := WaitAvailable)
  }

  function Step(s: State, input: seq<int>, e: Event): (r: State)
    requires Shape(s)
    ensures Shape(r) && |r.slots| == |s.slots|
  {
    match e
    case WriterRuns => WriterStep(s, input)
    case ReaderRuns => ReaderStep(s)
    case SlotFreed => if s.released < |s.outs| then s.(released := s.released + 1, free := s.free + 1) else s
  }

  function Run(s: State, input: seq<int>, schedule: seq<Event>): (r: State)
    requires Shape(s)
    ensures Shape(r) && |r.slots| == |s.slots|
    decreases |schedule|
  {
    if schedule == [] then s else Run(Step(s, input, schedule[0]), input, schedule[1..])
  }

  function Start(slots: seq<Slot>, window: nat, buf: int): State {
    State(slots, 0, 0, false, window, 0, WaitFree, 0, WaitAvailable, buf, [], 0)
  }

  // ---------- A call that nobody disturbs ----------

  function Times(e: Event, count: nat): seq<Event> {
    if count == 0 then [] else [e] + Times(e, count - 1)
  }

  /** The state after `count` consecutive steps of one kind. */
  function Repeat(s: State, input: seq<int>, e: Event, count: nat): (r: State)
    requires Shape(s)
    ensures Shape(r) && |r.slots| == |s.slots|
    ensures r == Run(s, input, Times(e, count))
    decreases count
  {
    if count == 0 then s
    else
      assert Times(e, count)[1..] == Times(e, count - 1);
      Repeat(Step(s, input, e), input, e, count - 1)
  }

  lemma {:induction false} Forward(s: State, input: seq<int>, e: Event, states: seq<State>)
    requires states != [] && states[0] == s && forall i | 0 <= i < |states| :: Shape(states[i])
    requires forall i | 0 <= i < |states| - 1 :: states[i + 1] == Step(states[i], input, e)
    ensures Repeat(s, input, e, |states| - 1) == states[|states| - 1]
    decreases |states|
  {
    hide Step, Run, Shape, Times;
    if |states| > 1 {
      Forward(states[1], input, e, states[1..]);
    }
  }

  lemma {:induction false} RunAppend(s: State, input: seq<int>, first: seq<Event>, second: seq<Event>)
    requires Shape(s)
    ensures Run(s, input, first + second) == Run(Run(s, input, first), input, second)
    decreases |first|
  {
    if first == [] {
      assert first + second == second;
    } else {
      assert (first + second)[1..] == first[1..] + second;
      RunAppend(Step(s, input, first[0]), input, first[1..], second);
    }
  }

  /** First m steps of a thread, then n more. */
  lemma {:induction false} Together(s: State, input: seq<int>, e: Event, m: nat, n: nat)
    requires Shape(s)
    ensures Run(s, input, Times(e, m + n)) == Run(Run(s, input, Times(e, m)), input, Times(e, n))
    decreases m
  {
    hide Step, Shape;
    if m > 0 {
      assert Times(e, m + n)[1..] == Times(e, m + n - 1) && Times(e, m)[1..] == Times(e, m - 1);
      Together(Step(s, input, e), input, e, m - 1, n);
    }
  }

  ghost function RingOf(s: State): Ring<Slot> { Ring(s.slots, s.head, s.tail, s.full) }

  /** A write that runs from semaphore to semaphore without the reader is a write to the ring. */
  lemma WriteAlone(s: State, input: seq<int>)
    requires Shape(s) && s.writer.WaitFree? && s.free > 0 && s.started < |input| && Ok(RingOf(s))
    ensures var t := Run(s, input, Times(WriterRuns, if s.full then 11 else 9));
      && RingOf(t) == Written(RingOf(s), Holds(input[s.started]))
      && t == s.(slots := t.slots, head := t.head, tail := t.tail, full := t.full,
                 free := s.free - 1, available := s.available + 1, started := s.started + 1)
  {
    hide Run, Times, Step;
    Together(s, input, WriterRuns, if s.full then 5 else 3, 6);
    var freed := CopyIn(s, input);
    MoveHead(freed, input);
  }

  /** Copying the element in and, on a full buffer, giving up the oldest. */
  lemma CopyIn(s: State, input: seq<int>) returns (freed: State)
    requires Shape(s) && s.writer.WaitFree? && s.free > 0 && s.started < |input|
    ensures freed == Run(s, input, Times(WriterRuns, if s.full then 5 else 3))
    ensures freed == s.(slots := s.slots[s.head := Holds(input[s.started])],
                        tail := if s.full then Next(s.tail, |s.slots|) else s.tail,
                        free := s.free - 1, started := s.started + 1, writer := FetchHead)
  {
    hide Next;
    var torn := s.(free := s.free - 1, started := s.started + 1, writer := Copying, slots := s.slots[s.head := Torn]);
    var copied := torn.(slots := torn.slots[s.head := Holds(input[s.started])], writer := TestFull);
    assert copied.slots == s.slots[s.head := Holds(input[s.started])];
    if s.full {
      freed := copied.(tail := Next(s.tail, |s.slots|), writer := FetchHead);
      Forward(s, input, WriterRuns,
              [s, torn, copied, copied.(writer := FetchTail), copied.(writer := StoreTail(s.tail)), freed]);
    } else {
      freed := copied.(writer := FetchHead);
      Forward(s, input, WriterRuns, [s, torn, copied, freed]);
    }
  }

  /** Advancing head_, comparing it with tail_, and announcing the element. */
  lemma MoveHead(s: State, input: seq<int>)
    requires Shape(s) && s.writer.FetchHead?
    ensures var head := Next(s.head, |s.slots|);
      Run(s, input, Times(WriterRuns, 6))
      == s.(head := head, full := head == s.tail, available := s.available + 1, writer := WaitFree)
  {
    hide Next;
    var moved := s.(head := Next(s.head, |s.slots|), writer := CompareHead);
    var done := moved.(full := moved.head == s.tail, writer := PostAvailable);
    Forward(s, input, WriterRuns,
            [s, s.(writer := StoreHead(s.head)), moved, moved.(writer := CompareTail(moved.head)),
             moved.(writer := StoreFull(moved.head == s.tail)), done,
             done.(available := s.available + 1, writer := WaitFree)]);
  }

  /** A read that runs alone is a read of the ring: the oldest element, or on an empty ring what the buffer held. */
  lemma ReadAlone(s: State, input: seq<int>)
    requires Shape(s) && s.reader.WaitAvailable? && s.available > 0 && Ok(RingOf(s))
    requires Contents(RingOf(s)) != [] ==> s.slots[s.tail].Holds?
    ensures var empty := Contents(RingOf(s)) == [];
      var t := Run(s, input, Times(ReaderRuns, if empty then 5 else if s.full then 7 else 9));
      && RingOf(t) == Released(RingOf(s)) && t.buf == (if empty then s.buf else Contents(RingOf(s))[0].x)
      && t == s.(tail := t.tail, full := t.full, buf := t.buf, outs := s.outs + [t.buf], available := s.available - 1)
  {
    ReleaseTakesOldest(RingOf(s));
    var begun := s.(available := s.available - 1, reader := ProbeFull);
    if Contents(RingOf(s)) == [] {
      Forward(s, input, ReaderRuns,
              [s, begun, begun.(reader := ProbeHead), Probed(s, begun), begun.(reader := Return),
               begun.(outs := s.outs + [s.buf], reader := WaitAvailable)]);
    } else {
      ReadOldest(s, input, begun);
    }
  }

  /** The load of head_. */
  function Probed(s: State, begun: State): State {
    begun.(reader := ProbeTail(s.head, if Heads(s) >= 0 then Heads(s) else 0))
  }

  lemma ReadOldest(s: State, input: seq<int>, begun: State)
    requires Shape(s) && s.reader.WaitAvailable? && s.available > 0 && (s.full || s.head != s.tail)
    requires s.slots[s.tail].Holds? && begun == s.(available := s.available - 1, reader := ProbeFull)
    ensures Run(s, input, Times(ReaderRuns, if s.full then 7 else 9))
         == s.(tail := Next(s.tail, |s.slots|), full := false, buf := s.slots[s.tail].x,
               outs := s.outs + [s.slots[s.tail].x], available := s.available - 1)
  {
    hide Run, Times;
    var found := begun.(reader := CopyOut);
    if s.full {
      Forward(s, input, ReaderRuns, [s, begun, found]);
    } else {
      Forward(s, input, ReaderRuns, [s, begun, begun.(reader := ProbeHead), Probed(s, begun), found]);
    }
    CopyAndRelease(found, input);
    hide Step;
    Together(s, input, ReaderRuns, if s.full then 2 else 4, 5);
  }

  lemma CopyAndRelease(s: State, input: seq<int>)
    requires Shape(s) && s.reader.CopyOut? && s.slots[s.tail].Holds?
    ensures Run(s, input, Times(ReaderRuns, 5))
         == s.(tail := Next(s.tail, |s.slots|), full := false, buf := s.slots[s.tail].x,
               outs := s.outs + [s.slots[s.tail].x], reader := WaitAvailable)
  {
    hide Next;
    var copied := s.(buf := s.slots[s.tail].x, reader := ClearFull);
    var cleared := copied.(full := false, reader := LoadTail);
    var gone := cleared.(tail := Next(s.tail, |s.slots|), reader := Return);
    Forward(s, input, ReaderRuns,
            [s, copied, cleared, cleared.(reader := AdvanceTail(s.tail)), gone,
             gone.(outs := s.outs + [copied.buf], reader := WaitAvailable)]);
  }

  // ---------- Counting round the circle ----------

  /** k mod n, by taking away n while possible. */
  function Wrap(k: nat, n: nat): (r: nat)
    requires n > 0
    ensures r < n
    decreases k
  {
    if k < n then k else Wrap(k - n, n)
  }

  lemma {:induction false} WrapNext(k: nat, n: nat)
    requires n > 0
    ensures Wrap(k + 1, n) == Next(Wrap(k, n), n)
    decreases k
  {
    if k >= n {
      WrapNext(k - n, n);
    }
  }

  lemma {:induction false} WrapDiffers(a: nat, b: nat, n: nat)
    requires b < a < b + n
    ensures Wrap(a, n) != Wrap(b, n)
    decreases b
  {
    if b >= n {
      WrapDiffers(a - n, b - n, n);
    }
  }

  // ---------- The invariant for windows below the number of slots ----------

  /** Writes announced to the reader. */
  function Posted(s: State): int { if s.writer.WaitFree? then s.started else s.started - 1 }

  /** Writes whose element is in its slot. */
  function Copied(s: State): int { if s.writer.Copying? then s.started - 1 else s.started }

  function Taken(s: State): int { if s.reader.WaitAvailable? then |s.outs| else |s.outs| + 1 }

  function Tails(s: State): nat { if s.reader.Return? then |s.outs| + 1 else |s.outs| }

  ghost predicate Counts(s: State, window: nat) {
    && 0 <= Posted(s) && s.free + s.started == window + s.released && s.released <= |s.outs|
    && s.available + Taken(s) == Posted(s)
  }

  ghost predicate Registers(s: State)
    requires Shape(s)
  {
    var n := |s.slots|;
    && !s.full && Heads(s) >= 0 && s.head == Wrap(Heads(s), n) && s.tail == Wrap(Tails(s), n)
    && !s.writer.FetchTail? && !s.writer.StoreTail?
    && (s.writer.StoreHead? ==> s.writer.h == s.head) && (s.writer.CompareTail? ==> s.writer.h == s.head)
    && (s.writer.StoreFull? ==> !s.writer.value)
    && (s.reader.AdvanceTail? ==> s.reader.t == s.tail)
    && (s.reader.ProbeTail? ==> s.reader.h == Wrap(s.reader.heads, n) && |s.outs| < s.reader.heads < |s.outs| + n)
  }

  ghost predicate Elements(s: State, input: seq<int>)
    requires Shape(s)
  {
    && s.started <= |input| && |s.outs| <= |input| && s.outs == input[..|s.outs|]
    && (s.reader.ClearFull? || s.reader.LoadTail? || s.reader.AdvanceTail? || s.reader.Return?
        ==> |s.outs| < |input| && s.buf == input[|s.outs|])
    && forall j: nat | Tails(s) <= j < Copied(s) :: s.slots[Wrap(j, |s.slots|)] == Holds(input[j])
  }

  ghost predicate Inv(s: State, input: seq<int>, window: nat) {
    Shape(s) && Counts(s, window) && Registers(s) && Elements(s, input)
  }

  /** The window, or the whole run, is smaller than the buffer. */
  predicate Small(window: nat, total: nat, n: nat) {
    window < n || total < n
  }

  lemma CountsKept(s: State, input: seq<int>, window: nat, e: Event)
    requires Inv(s, input, window)
    ensures Counts(Step(s, input, e), window)
  {
    hide Elements, Registers;
  }

  lemma WriterRegisters(s: State, input: seq<int>, window: nat)
    requires Inv(s, input, window) && Small(window, |input|, |s.slots|)
    ensures Registers(WriterStep(s, input))
  {
    hide Wrap, Next;
    match s.writer
    case StoreHead(h) => WrapNext(s.started - 1, |s.slots|);
    case CompareTail(h) => WrapDiffers(s.started, Tails(s), |s.slots|);
    case _ =>
  }

  lemma ReaderRegisters(s: State, input: seq<int>, window: nat)
    requires Inv(s, input, window) && Small(window, |input|, |s.slots|)
    ensures Registers(ReaderStep(s))
  {
    hide Wrap, Next;
    match s.reader
    case AdvanceTail(t) => WrapNext(|s.outs|, |s.slots|);
    case ProbeTail(h, heads) => WrapDiffers(heads, |s.outs|, |s.slots|);
    case _ =>
  }

  lemma WriterElements(s: State, input: seq<int>, window: nat)
    requires Inv(s, input, window) && Small(window, |input|, |s.slots|)
    ensures Elements(WriterStep(s, input), input)
  {
    hide Wrap, Next;
    var n := |s.slots|;
    var t := WriterStep(s, input);
    forall j: nat | Tails(t) <= j < Copied(t)
      ensures t.slots[Wrap(j, n)] == Holds(input[j])
    {
      if s.writer.WaitFree? && t != s {
        WrapDiffers(s.started, j, n);
      } else if s.writer.Copying? && j < s.started - 1 {
        WrapDiffers(s.started - 1, j, n);
      }
    }
  }

  lemma ReaderElements(s: State, input: seq<int>, window: nat)
    requires Inv(s, input, window) && Small(window, |input|, |s.slots|)
    ensures Elements(ReaderStep(s), input)
  {
    hide Wrap, Next;
    match s.reader
    case ProbeTail(h, heads) => WrapDiffers(heads, |s.outs|, |s.slots|);
    case CopyOut => assert Tails(s) < Copied(s);
    case Return => assert input[..|s.outs|] + [input[|s.outs|]] == input[..|s.outs| + 1];
    case _ =>
  }

  lemma StepKeeps(s: State, input: seq<int>, window: nat, e: Event)
    requires Inv(s, input, window) && Small(window, |input|, |s.slots|)
    ensures Inv(Step(s, input, e), input, window)
  {
    CountsKept(s, input, window, e);
    match e
    case WriterRuns =>
      hide Elements, Registers, Counts, Small, WriterStep;
      WriterRegisters(s, input, window);
      WriterElements(s, input, window);
    case ReaderRuns =>
      hide Elements, Registers, Counts, Small, ReaderStep;
      ReaderRegisters(s, input, window);
      ReaderElements(s, input, window);
    case SlotFreed =>
  }

  lemma {:induction false} RunKeeps(s: State, input: seq<int>, window: nat, schedule: seq<Event>)
    requires Inv(s, input, window) && Small(window, |input|, |s.slots|)
    ensures Inv(Run(s, input, schedule), input, window)
    decreases |schedule|
  {
    if schedule != [] {
      hide Inv, Step, Small;
      StepKeeps(s, input, window, schedule[0]);
      assert Shape(s);
      RunKeeps(Step(s, input, schedule[0]), input, window, schedule[1..]);
    }
  }

  /** The writer is in the middle of overwriting the very slot the reader copies. */
  predicate SlotRace(s: State) {
    s.writer.Copying? && s.reader.CopyOut? && s.head == s.tail
  }

  /** With fewer outstanding elements than slots, the i-th read returns the i-th element although nothing is locked. */
  lemma SmallWindowIsSafe(slots: seq<Slot>, window: nat, buf: int, input: seq<int>, schedule: seq<Event>)
    requires Small(window, |input|, |slots|)
    ensures var s := Run(Start(slots, window, buf), input, schedule);
      s.outs <= input && !SlotRace(s) && !s.full
  {
    RunKeeps(Start(slots, window, buf), input, window, schedule);
    var s := Run(Start(slots, window, buf), input, schedule);
    if s.writer.Copying? && s.reader.CopyOut? {
      WrapDiffers(s.started - 1, |s.outs|, |slots|);
    }
  }

  // ---------- Larger windows ----------

  /** k elements have been written and none read; both threads are between calls. */
  predicate Loaded(s: State, k: nat, window: nat, buf: int) {
    && Shape(s) && k <= window && k < |s.slots|
    && s.head == k && s.tail == 0 && !s.full && s.free == window - k && s.available == k
    && s.writer == WaitFree && s.started == k && s.reader == WaitAvailable && s.buf == buf && s.outs == []
  }

  /** One undisturbed call of write_slot, up to the store of head_. */
  lemma WriteUpToHead(s: State, input: seq<int>, k: nat, window: nat, buf: int)
    requires Loaded(s, k, window, buf) && k < window && k < |input|
    ensures var t := Run(s, input, Times(WriterRuns, 5));
      && Shape(t) && |t.slots| == |s.slots|
           && t == s.(slots := t.slots, head := Next(k, |s.slots|), free := s.free - 1, started := k + 1,
                      writer := CompareHead)
  {
    var s1 := Step(s, input, WriterRuns);
    var s2 := Step(s1, input, WriterRuns);
    var s3 := Step(s2, input, WriterRuns);
    var s4 := Step(s3, input, WriterRuns);
    var s5 := Step(s4, input, WriterRuns);
    assert Repeat(s, input, WriterRuns, 5) == s5;
  }

  lemma FinishWrite(s: State, input: seq<int>, k: nat, window: nat, buf: int)
    requires Shape(s) && k < window && k + 1 < |s.slots| && s.writer == CompareHead
    requires Loaded(s.(writer := WaitFree, head := k, free := window - k, started := k), k, window, buf)
    requires s.head == k + 1 && s.free == window - k - 1 && s.started == k + 1
    ensures Loaded(Run(s, input, Times(WriterRuns, 4)), k + 1, window, buf)
    ensures |Run(s, input, Times(WriterRuns, 4)).slots| == |s.slots|
  {
    var s1 := Step(s, input, WriterRuns);
    var s2 := Step(s1, input, WriterRuns);
    var s3 := Step(s2, input, WriterRuns);
    var s4 := Step(s3, input, WriterRuns);
    assert Repeat(s, input, WriterRuns, 4) == s4;
  }

  lemma {:induction false} CanLoad(slots: seq<Slot>, window: nat, buf: int, input: seq<int>, k: nat)
    returns (schedule: seq<Event>)
    requires k < |slots| && k <= window && k <= |input|
    ensures var s := Run(Start(slots, window, buf), input, schedule); |s.slots| == |slots| && Loaded(s, k, window, buf)
    decreases k
  {
    if k == 0 {
      schedule := [];
    } else {
      var before := CanLoad(slots, window, buf, input, k - 1);
      var s := Run(Start(slots, window, buf), input, before);
      WriteUpToHead(s, input, k - 1, window, buf);
      var t := Run(s, input, Times(WriterRuns, 5));
      FinishWrite(t, input, k - 1, window, buf);
      RunAppend(s, input, Times(WriterRuns, 5), Times(WriterRuns, 4));
      RunAppend(Start(slots, window, buf), input, before, Times(WriterRuns, 5) + Times(WriterRuns, 4));
      schedule := before + (Times(WriterRuns, 5) + Times(WriterRuns, 4));
    }
  }

  /** The head has come round to the tail and full_ is not set yet: the reader takes the buffer for empty. */
  lemma ReaderSeesEmpty(s: State, input: seq<int>)
    requires Shape(s) && s.head == s.tail && !s.full && s.available > 0 && s.reader == WaitAvailable
    ensures Run(s, input, Times(ReaderRuns, 5)).outs == s.outs + [s.buf]
  {
    var s1 := Step(s, input, ReaderRuns);
    var s2 := Step(s1, input, ReaderRuns);
    var s3 := Step(s2, input, ReaderRuns);
    var s4 := Step(s3, input, ReaderRuns);
    var s5 := Step(s4, input, ReaderRuns);
    assert Repeat(s, input, ReaderRuns, 5) == s5;
  }

  /** With as many outstanding elements as slots, some run hands over the reader's old buffer instead of the first
      element. */
  lemma FullWindowRaces(slots: seq<Slot>, window: nat, buf: int, input: seq<int>) returns (schedule: seq<Event>)
    requires 2 <= |slots| <= window && |slots| <= |input|
    ensures Run(Start(slots, window, buf), input, schedule).outs == [buf]
  {
    var n := |slots|;
    var before := CanLoad(slots, window, buf, input, n - 1);
    var s := Run(Start(slots, window, buf), input, before);
    WriteUpToHead(s, input, n - 1, window, buf);
    var t := Run(s, input, Times(WriterRuns, 5));
    ReaderSeesEmpty(t, input);
    RunAppend(s, input, Times(WriterRuns, 5), Times(ReaderRuns, 5));
    RunAppend(Start(slots, window, buf), input, before, Times(WriterRuns, 5) + Times(ReaderRuns, 5));
    schedule := before + (Times(WriterRuns, 5) + Times(ReaderRuns, 5));
  }

  ghost predicate SafeUnlocked(n: nat, window: nat, total: nat) {
    forall slots: seq<Slot>, buf: int, input: seq<int>, schedule |
        |slots| == n > 0 && |input| == total ::
      Run(Start(slots, window, buf), input, schedule).outs <= input
  }

  /** Without a lock, the hand-off is lossless in every interleaving exactly when at most n - 1 elements can be
      outstanding. */
  lemma UnlockedIsSafeIffSmall(n: nat, window: nat, total: nat)
    requires n >= 2
    ensures SafeUnlocked(n, window, total) <==> window < n || total < n
  {
    if Small(window, total, n) {
      forall slots: seq<Slot>, buf: int, input: seq<int>, schedule | |slots| == n > 0 && |input| == total
        ensures Run(Start(slots, window, buf), input, schedule).outs <= input
      {
        SmallWindowIsSafe(slots, window, buf, input, schedule);
      }
    } else {
      var slots, input := seq(n, _ => Torn), seq(total, _ => 1);
      var schedule := FullWindowRaces(slots, window, 0, input);
      hide Run;
      assert [0][0] != input[0];
      assert !(Run(Start(slots, window, 0), input, schedule).outs <= input);
    }
  }
}
