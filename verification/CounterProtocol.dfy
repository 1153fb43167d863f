/** The spin-counter protocol of CPU_programs_old/ANN_socket_multithread.hpp: one index thread, a send and a receive
    thread per FPGA and a gather thread, which only share counters; started by CPU_programs_old/host_multi_FPGA.cpp. */
module CounterProtocol {
  import opened Arith

  /** A loop that spins until a counter is large enough simply waits for that. A pass over the counters of all FPGAs
      reads them one after the other. */
  datatype Index = Search(q: nat) | Await(q: nat, i: nat)

  /** One FPGA. toSend, toReceive: loop variables of the two threads; sent, received: finish_send_query_id and
      finish_recv_query_id; answered: queries the FPGA has returned. */
  datatype Channel = Channel(toSend: nat, sending: bool, sent: int, answered: nat, toReceive: nat, receiving: bool,
                             received: int)

  /** indexed: finish_hnsw_id. gather has stamped the queries before `stamping` and seen the counters before `seen`. */
  datatype State = State(index: Index, indexed: int, channels: seq<Channel>, stamping: nat, seen: nat)

  datatype Event = RunIndex | RunGather | StartSend(i: nat) | EndSend(i: nat) | Answer(i: nat) | StartReceive(i: nat)
      | EndReceive(i: nat)

  datatype Config = Config(total: nat, window: nat, fpgas: nat)

  predicate Enabled(c: Config, s: State, e: Event) {
    match e
    case RunIndex =>
      (match s.index
       case Search(q) => q < c.total
       case Await(q, i) => i >= |s.channels| || s.channels[i].received >= q - (c.window - 1))
    case RunGather => s.stamping < c.total && (s.seen >= |s.channels| || s.channels[s.seen].received >= s.stamping)
    case StartSend(i) =>
      i < |s.channels| && !s.channels[i].sending && s.channels[i].toSend < c.total && s.indexed >= s.channels[i].toSend
    case EndSend(i) => i < |s.channels| && s.channels[i].sending
    case Answer(i) => i < |s.channels| && s.channels[i].answered < s.channels[i].toSend
    case StartReceive(i) =>
      i < |s.channels| && !s.channels[i].receiving && s.channels[i].toReceive < c.total
          && s.channels[i].sent >= s.channels[i].toReceive
    case EndReceive(i) =>
      i < |s.channels| && s.channels[i].receiving && s.channels[i].answered > s.channels[i].toReceive
  }

  function ChannelStep(x: Channel, e: Event): Channel {
    match e
    case StartSend(_) => x.(sending := true)
    case EndSend(_) => x.(sending := false, sent := x.toSend, toSend := x.toSend + 1)
    case Answer(_) => x.(answered := x.answered + 1)
    case StartReceive(_) => x.(receiving := true)
    case EndReceive(_) => x.(receiving := false, received := x.toReceive, toReceive := x.toReceive + 1)
    case _ => x
  }

  function Step(c: Config, s: State, e: Event): State
    requires Enabled(c, s, e)
  {
    match e
    case RunIndex =>
      (match s.index
       case Search(q) => s.(indexed := q, index := Await(q, 0))
       case Await(q, i) => if i >= |s.channels| then s.(index := Search(q + 1)) else s.(index := Await(q, i + 1)))
    case RunGather =>
      if s.seen >= |s.channels| then s.(stamping := s.stamping + 1, seen := 0) else s.(seen := s.seen + 1)
    case _ => s.(channels := s.channels[e.i := ChannelStep(s.channels[e.i], e)])
  }

  /** All counters start at the values given for each FPGA. */
  function Start(initial: seq<int>): State {
    State(Search(0), -1,
          seq(|initial|, i requires 0 <= i < |initial| => Channel(0, false, initial[i], 0, 0, false, initial[i])), 0, 0)
  }

  function AllMinusOne(n: nat): seq<int> { seq(n, _ => -1) }

  /** int a[n] = { -1 }; sets the first element and clears the others. */
  function AsWritten(n: nat): seq<int> { seq(n, i => if i == 0 then -1 else 0) }

  predicate Final(c: Config, s: State) {
    s.index == Search(c.total) && s.stamping == c.total
        && forall i | 0 <= i < |s.channels| :: s.channels[i].toReceive == c.total
  }

  ghost predicate IsRun(c: Config, initial: seq<int>, states: seq<State>, trace: seq<Event>) {
    && |states| == |trace| + 1 && states[0] == Start(initial)
    && forall i | 0 <= i < |trace| :: Enabled(c, states[i], trace[i]) && states[i + 1] == Step(c, states[i], trace[i])
  }

  // ---------- The invariant, for initial values -1 or 0 ----------

  function Max(a: int, b: int): int { if a >= b then a else b }

  predicate InitialOk(initial: seq<int>) {
    forall i | 0 <= i < |initial| :: initial[i] == -1 || initial[i] == 0
  }

  /** What the counters mean, and how far each stage can be ahead of the next. */
  predicate ChannelOk(c: Config, x: Channel, start: int, indexed: int) {
    && x.sent == Max(start, x.toSend - 1) && x.received == Max(start, x.toReceive - 1)
    && x.toReceive <= x.answered <= x.toSend <= indexed + 1
    && (x.sending ==> x.toSend <= indexed) && (x.receiving ==> x.toReceive < c.total && x.sent >= x.toReceive)
    && indexed <= x.received + c.window
  }

  predicate IndexOk(c: Config, s: State) {
    match s.index
    case Search(q) =>
      q <= c.total && s.indexed == q - 1 && forall j | 0 <= j < |s.channels| :: q <= s.channels[j].received + c.window
    case Await(q, i) =>
      q < c.total && s.indexed == q && i <= |s.channels|
          && forall j | 0 <= j < i :: s.channels[j].received >= q - (c.window - 1)
  }

  predicate GatherOk(c: Config, s: State) {
    && s.stamping <= c.total && s.seen <= |s.channels| && (s.stamping == c.total ==> s.seen == 0)
    && (forall j | 0 <= j < |s.channels| :: s.channels[j].received >= s.stamping - 1)
    && forall j | 0 <= j < s.seen :: s.channels[j].received >= s.stamping
  }

  predicate Inv(c: Config, initial: seq<int>, s: State) {
    && |s.channels| == |initial| && IndexOk(c, s) && GatherOk(c, s)
    && forall i | 0 <= i < |s.channels| :: ChannelOk(c, s.channels[i], initial[i], s.indexed)
  }

  lemma StartOk(c: Config, initial: seq<int>)
    requires InitialOk(initial) && c.window > 0
    ensures Inv(c, initial, Start(initial))
  {
  }

  lemma ChannelKeeps(c: Config, s: State, x: Channel, start: int, e: Event)
    requires ChannelOk(c, x, start, s.indexed) && -1 <= start <= 0 && !e.RunIndex? && !e.RunGather?
    requires e.i < |s.channels| && s.channels[e.i] == x && Enabled(c, s, e) && s.indexed < c.total
    ensures ChannelOk(c, ChannelStep(x, e), start, s.indexed) && ChannelStep(x, e).received >= x.received
  {
  }

  lemma IndexKeeps(c: Config, initial: seq<int>, s: State)
    requires Inv(c, initial, s) && Enabled(c, s, RunIndex)
    ensures Inv(c, initial, Step(c, s, RunIndex))
  {
    GatherSame(c, s, Step(c, s, RunIndex));
    hide GatherOk;
  }

  lemma GatherKeeps(c: Config, initial: seq<int>, s: State)
    requires Inv(c, initial, s) && Enabled(c, s, RunGather)
    ensures Inv(c, initial, Step(c, s, RunGather))
  {
    hide ChannelOk;
  }

  lemma OneChannelKeeps(c: Config, initial: seq<int>, s: State, e: Event)
    requires InitialOk(initial) && Inv(c, initial, s) && Enabled(c, s, e) && !e.RunIndex? && !e.RunGather?
    ensures Inv(c, initial, Step(c, s, e))
  {
    var t := Step(c, s, e);
    ChannelKeeps(c, s, s.channels[e.i], initial[e.i], e);
    hide ChannelOk, Enabled, ChannelStep;
    assert forall j | 0 <= j < |s.channels| :: t.channels[j].received >= s.channels[j].received;
  }

  lemma StepKeeps(c: Config, initial: seq<int>, s: State, e: Event)
    requires InitialOk(initial) && Inv(c, initial, s) && Enabled(c, s, e)
    ensures Inv(c, initial, Step(c, s, e))
  {
    hide Inv, Enabled, Step, InitialOk;
    match e
    case RunIndex => IndexKeeps(c, initial, s);
    case RunGather => GatherKeeps(c, initial, s);
    case _ => OneChannelKeeps(c, initial, s, e);
  }

  lemma GatherSame(c: Config, s: State, t: State)
    requires GatherOk(c, s) && t.channels == s.channels && t.stamping == s.stamping && t.seen == s.seen
    ensures GatherOk(c, t)
  {
  }

  lemma {:induction false} ReachableOk(c: Config, initial: seq<int>, states: seq<State>, trace: seq<Event>, i: nat)
    requires InitialOk(initial) && c.window > 0 && IsRun(c, initial, states, trace) && i < |states|
    ensures Inv(c, initial, states[i])
    decreases i
  {
    hide Inv, InitialOk, Enabled, Step;
    if i == 0 {
      StartOk(c, initial);
    } else {
      ReachableOk(c, initial, states, trace, i - 1);
      StepKeeps(c, initial, states[i - 1], trace[i - 1]);
    }
  }

  // ---------- Safety ----------

  /** With every counter starting at -1: received <= sent <= indexed <= received + window for every FPGA, the counters
      say what has really happened, a query is stamped only when every FPGA has returned it and its answer has been
      read, no query is being sent before it is indexed, and none is being received before it is sent. */
  lemma CountersOrdered(c: Config, n: nat, states: seq<State>, trace: seq<Event>, i: nat, k: nat)
    requires c.window > 0 && IsRun(c, AllMinusOne(n), states, trace) && i < |states| && k < n
    ensures k < |states[i].channels|
    ensures var s := states[i]; var x := s.channels[k];
      && x.received <= x.sent <= s.indexed <= x.received + c.window
      && x.received == x.toReceive - 1 && x.sent == x.toSend - 1
      && s.stamping <= x.toReceive <= x.answered <= x.toSend
      && (x.sending ==> x.toSend <= s.indexed) && (x.receiving ==> x.toReceive <= x.sent)
  {
    ReachableOk(c, AllMinusOne(n), states, trace, i);
  }

  /** A send or receive thread has at most one way to go on. */
  lemma OneWayOn(c: Config, s: State, i: nat)
    ensures !(Enabled(c, s, StartSend(i)) && Enabled(c, s, EndSend(i)))
    ensures !(Enabled(c, s, StartReceive(i)) && Enabled(c, s, EndReceive(i)))
  {
  }

  /** As the counters are initialised in the program, stamps still mean that every FPGA has returned the query, and the
      index thread is at most the window ahead of what has been received, from query 1 on. */
  lemma AsWrittenFromQueryOne(c: Config, n: nat, states: seq<State>, trace: seq<Event>, i: nat)
    requires c.window > 0 && IsRun(c, AsWritten(n), states, trace) && i < |states|
    ensures |states[i].channels| == n
    ensures var s := states[i];
      forall k | 0 <= k < n ::
        && (s.stamping > 1 ==> s.stamping <= s.channels[k].toReceive)
        && (s.indexed > c.window ==> s.indexed <= s.channels[k].toReceive - 1 + c.window)
        && s.channels[k].toReceive <= s.channels[k].toSend <= s.indexed + 1
  {
    ReachableOk(c, AsWritten(n), states, trace, i);
  }

  ghost predicate IsTrace(c: Config, states: seq<State>, trace: seq<Event>) {
    && |states| == |trace| + 1
    && forall i | 0 <= i < |trace| :: Enabled(c, states[i], trace[i]) && states[i + 1] == Step(c, states[i], trace[i])
  }

  lemma Extend(c: Config, states: seq<State>, trace: seq<Event>, e: Event)
    returns (states': seq<State>, trace': seq<Event>)
    requires IsTrace(c, states, trace) && Enabled(c, states[|trace|], e)
    ensures IsTrace(c, states', trace') && states'[0] == states[0] && |trace'| == |trace| + 1
    ensures states'[|trace'|] == Step(c, states[|trace|], e)
  {
    hide Enabled, Step;
    states', trace' := states + [Step(c, states[|trace|], e)], trace + [e];
  }

  /** Query 0 has been searched, sent to FPGA 0, answered by it and read; nothing has been sent to any other FPGA. */
  lemma OnlyFirstAnswered(c: Config, n: nat) returns (states: seq<State>, trace: seq<Event>)
    requires n >= 2 && c.total > 0 && c.window > 0
    ensures IsTrace(c, states, trace) && states[0] == Start(AsWritten(n))
    ensures var s := states[|trace|];
      && |s.channels| == n && s.stamping == 0 == s.seen && s.channels[1].toReceive == 0 && s.index == Await(0, 0)
           && s.indexed == 0
      && forall k | 0 <= k < n :: s.channels[k].received >= 0
  {
    states, trace := [Start(AsWritten(n))], [];
    states, trace := Extend(c, states, trace, RunIndex);
    states, trace := Extend(c, states, trace, StartSend(0));
    states, trace := Extend(c, states, trace, EndSend(0));
    states, trace := Extend(c, states, trace, Answer(0));
    states, trace := Extend(c, states, trace, StartReceive(0));
    states, trace := Extend(c, states, trace, EndReceive(0));
  }

  /** For query 0, a counter that starts at 0 is taken for an answer: this run stamps it although only FPGA 0 has
      answered. */
  lemma StampedTooEarly(c: Config, n: nat) returns (states: seq<State>, trace: seq<Event>)
    requires n >= 2 && c.total > 0 && c.window > 0
    ensures IsRun(c, AsWritten(n), states, trace)
    ensures var s := states[|trace|]; s.stamping == 1 && |s.channels| == n && s.channels[1].toReceive == 0
  {
    states, trace := OnlyFirstAnswered(c, n);
    states, trace := Passes(c, states, trace, n);
    states, trace := Extend(c, states, trace, RunGather);
    assert states[|trace|].channels[1].toReceive == 0;
  }

  lemma {:induction false} Passes(c: Config, states: seq<State>, trace: seq<Event>, m: nat)
    returns (states': seq<State>, trace': seq<Event>)
    requires IsTrace(c, states, trace)
    requires var s := states[|trace|];
      && m <= |s.channels| && s.stamping == 0 < c.total && s.seen == 0
      && forall k | 0 <= k < |s.channels| :: s.channels[k].received >= 0
    ensures IsTrace(c, states', trace') && states'[0] == states[0] && states'[|trace'|] == states[|trace|].(seen := m)
    decreases m
  {
    hide IsTrace;
    states', trace' := states, trace;
    if m > 0 {
      states', trace' := Passes(c, states, trace, m - 1);
      states', trace' := Extend(c, states', trace', RunGather);
    }
  }

  /** The initialiser is right exactly for at most one FPGA: in every state of every run, every FPGA has returned the
      stamped queries and the answers have been read. */
  lemma AsWrittenIffOneFpga(c: Config, n: nat)
    requires c.total > 0 && c.window > 0
    ensures (forall states: seq<State>, trace: seq<Event>, i: nat, k: nat |
               IsRun(c, AsWritten(n), states, trace) && i < |states| && k < |states[i].channels| ::
               states[i].stamping <= states[i].channels[k].toReceive)
       <==> n <= 1
  {
    if n <= 1 {
      assert AsWritten(n) == AllMinusOne(n);
      forall states: seq<State>, trace: seq<Event>, i: nat, k: nat |
        IsRun(c, AsWritten(n), states, trace) && i < |states| && k < |states[i].channels|
        ensures states[i].stamping <= states[i].channels[k].toReceive
      {
        ReachableOk(c, AsWritten(n), states, trace, i);
      }
    } else {
      var states, trace := StampedTooEarly(c, n);
      assert |trace| < |states| && states[|trace|].channels[1].toReceive == 0;
    }
  }

  /** One round of the index thread while the window asks for nothing. */
  lemma IndexRound(c: Config, states: seq<State>, trace: seq<Event>, q: nat)
    returns (states': seq<State>, trace': seq<Event>)
    requires IsTrace(c, states, trace) && q + 1 < c.total && q + 1 <= c.window
    requires states[|trace|].index == Await(q, 0)
        && forall k | 0 <= k < |states[|trace|].channels| :: states[|trace|].channels[k].received >= 0
    ensures IsTrace(c, states', trace') && states'[0] == states[0]
    ensures states'[|trace'|] == states[|trace|].(index := Await(q + 1, 0), indexed := q + 1)
  {
    var n := |states[|trace|].channels|;
    states', trace' := Reads(c, states, trace, q, n);
    states', trace' := Extend(c, states', trace', RunIndex);
    states', trace' := Extend(c, states', trace', RunIndex);
  }

  lemma {:induction false} Reads(c: Config, states: seq<State>, trace: seq<Event>, q: nat, m: nat)
    returns (states': seq<State>, trace': seq<Event>)
    requires IsTrace(c, states, trace) && q + 1 <= c.window && m <= |states[|trace|].channels|
    requires states[|trace|].index == Await(q, 0)
        && forall k | 0 <= k < |states[|trace|].channels| :: states[|trace|].channels[k].received >= 0
    ensures IsTrace(c, states', trace') && states'[0] == states[0]
        && states'[|trace'|] == states[|trace|].(index := Await(q, m))
    decreases m
  {
    hide IsTrace;
    states', trace' := states, trace;
    if m > 0 {
      states', trace' := Reads(c, states, trace, q, m - 1);
      states', trace' := Extend(c, states', trace', RunIndex);
    }
  }

  lemma {:induction false} IndexAhead(c: Config, n: nat, q: nat) returns (states: seq<State>, trace: seq<Event>)
    requires n >= 2 && q < c.total && q <= c.window && c.window > 0
    ensures IsRun(c, AsWritten(n), states, trace)
    ensures var s := states[|trace|];
      && s.index == Await(q, 0) && s.indexed == q && |s.channels| == n && s.channels[1].toReceive == 0
      && forall k | 0 <= k < n :: s.channels[k].received >= 0
    decreases q
  {
    if q == 0 {
      states, trace := OnlyFirstAnswered(c, n);
    } else {
      states, trace := IndexAhead(c, n, q - 1);
      states, trace := IndexRound(c, states, trace, q - 1);
    }
  }

  /** The window is kept exactly for at most one FPGA, or if it never closes. */
  lemma AsWrittenWindowIff(c: Config, n: nat)
    requires c.total > 0 && c.window > 0
    ensures (forall states: seq<State>, trace: seq<Event>, i: nat, k: nat |
               IsRun(c, AsWritten(n), states, trace) && i < |states| && k < |states[i].channels| ::
               states[i].indexed <= states[i].channels[k].toReceive - 1 + c.window)
       <==> n <= 1 || c.total <= c.window
  {
    if n <= 1 || c.total <= c.window {
      forall states: seq<State>, trace: seq<Event>, i: nat, k: nat |
        IsRun(c, AsWritten(n), states, trace) && i < |states| && k < |states[i].channels|
        ensures states[i].indexed <= states[i].channels[k].toReceive - 1 + c.window
      {
        ReachableOk(c, AsWritten(n), states, trace, i);
      }
    } else {
      var states, trace := IndexAhead(c, n, c.window);
      assert |trace| < |states| && states[|trace|].channels[1].toReceive == 0;
    }
  }

  // ---------- Progress ----------

  /** If an indexed query has not come back from FPGA k, something can be done about it. */
  lemma ChannelProgress(c: Config, initial: seq<int>, s: State, k: nat) returns (e: Event)
    requires Inv(c, initial, s) && k < |s.channels| && s.channels[k].toReceive <= s.indexed < c.total
    ensures Enabled(c, s, e) && !e.RunIndex? && !e.RunGather?
  {
    var x := s.channels[k];
    hide IndexOk, GatherOk;
    assert ChannelOk(c, x, initial[k], s.indexed);
    if x.sending {
      e := EndSend(k);
    } else if x.toSend <= x.toReceive {
      e := StartSend(k);
    } else if x.answered <= x.toReceive {
      e := Answer(k);
    } else if x.receiving {
      e := EndReceive(k);
    } else {
      e := StartReceive(k);
    }
  }

  /** As long as the run is not over, some thread can go on. */
  lemma Progress(c: Config, initial: seq<int>, s: State) returns (e: Event)
    requires InitialOk(initial) && Inv(c, initial, s) && c.window > 0 && !Final(c, s)
    ensures Enabled(c, s, e)
  {
    if Enabled(c, s, RunIndex) { return RunIndex; }
    if Enabled(c, s, RunGather) { return RunGather; }
    var k: nat;
    match s.index {
      case Await(q, i) => k := i;
      case Search(q) =>
        if s.stamping < c.total {
          k := s.seen;
        } else {
          k :| k < |s.channels| && s.channels[k].toReceive != c.total;
        }
    }
    assert ChannelOk(c, s.channels[k], initial[k], s.indexed);
    e := ChannelProgress(c, initial, s, k);
  }

  function Left(total: nat, done: nat): nat { if done < total then total - done else 0 }

  function ChannelWork(c: Config, x: Channel): nat {
    2 * Left(c.total, x.toSend) + (if x.sending then 0 else 1) + Left(c.total, x.answered)
    + 2 * Left(c.total, x.toReceive) + (if x.receiving then 0 else 1)
  }

  function Sum(c: Config, xs: seq<Channel>): nat {
    if xs == [] then 0 else ChannelWork(c, xs[0]) + Sum(c, xs[1..])
  }

  function Work(c: Config, s: State): nat {
    Sum(c, s.channels)
    + (match s.index
       case Search(q) => Mul(Left(c.total, q), |s.channels| + 2)
       case Await(q, i) => Mul(Left(c.total, q + 1), |s.channels| + 2) + 1 + Left(|s.channels|, i))
    + Mul(Left(c.total, s.stamping), |s.channels| + 1) + |s.channels| - (if s.seen <= |s.channels| then s.seen else 0)
  }

  lemma {:induction false} SumUpdate(c: Config, xs: seq<Channel>, k: nat, x: Channel)
    requires k < |xs|
    ensures Sum(c, xs[k := x]) == Sum(c, xs) - ChannelWork(c, xs[k]) + ChannelWork(c, x)
    decreases |xs|
  {
    hide ChannelWork;
    if k > 0 {
      assert xs[k := x][1..] == xs[1..][k - 1 := x];
      SumUpdate(c, xs[1..], k - 1, x);
    } else {
      assert xs[k := x][1..] == xs[1..];
    }
  }

  lemma MulFalls(total: nat, done: nat, weight: nat)
    requires done < total
    ensures Mul(Left(total, done), weight) == Mul(Left(total, done + 1), weight) + weight
  {
  }

  lemma IndexFalls(c: Config, s: State)
    requires IndexOk(c, s) && Enabled(c, s, RunIndex)
    ensures Work(c, Step(c, s, RunIndex)) < Work(c, s)
  {
    hide Sum, Mul;
    if s.index.Search? {
      MulFalls(c.total, s.index.q, |s.channels| + 2);
    }
  }

  lemma GatherFalls(c: Config, s: State)
    requires GatherOk(c, s) && Enabled(c, s, RunGather)
    ensures Work(c, Step(c, s, RunGather)) < Work(c, s)
  {
    hide Sum, Mul;
    MulFalls(c.total, s.stamping, |s.channels| + 1);
  }

  lemma ChannelFalls(c: Config, s: State, x: Channel, start: int, e: Event)
    requires ChannelOk(c, x, start, s.indexed) && !e.RunIndex? && !e.RunGather?
    requires e.i < |s.channels| && s.channels[e.i] == x && Enabled(c, s, e) && s.indexed < c.total
    ensures Work(c, Step(c, s, e)) < Work(c, s)
  {
    assert ChannelWork(c, ChannelStep(x, e)) < ChannelWork(c, x);
    SumUpdate(c, s.channels, e.i, ChannelStep(x, e));
    hide Sum, Mul, ChannelWork, ChannelStep, ChannelOk, Enabled;
  }

  lemma StepFalls(c: Config, initial: seq<int>, s: State, e: Event)
    requires Inv(c, initial, s) && Enabled(c, s, e)
    ensures Work(c, Step(c, s, e)) < Work(c, s)
  {
    hide Step, Work, GatherOk, ChannelOk;
    match e
    case RunIndex => IndexFalls(c, s);
    case RunGather => GatherFalls(c, s);
    case _ => ChannelFalls(c, s, s.channels[e.i], initial[e.i], e);
  }

  lemma FinalMeansDone(c: Config, initial: seq<int>, s: State)
    requires Inv(c, initial, s) && Final(c, s)
    ensures s.stamping == c.total && s.indexed == c.total - 1 && |s.channels| == |initial|
    ensures forall k | 0 <= k < |initial| ::
              s.channels[k].toSend == s.channels[k].answered == s.channels[k].toReceive == c.total
  {
    hide GatherOk;
    forall k | 0 <= k < |initial|
      ensures s.channels[k].toSend == s.channels[k].answered == s.channels[k].toReceive == c.total
    {
      assert ChannelOk(c, s.channels[k], initial[k], s.indexed);
    }
  }

  /** Every run is finite, and one that cannot be continued has stamped every query and read every answer. */
  lemma {:induction false} RunsEnd(c: Config, initial: seq<int>, states: seq<State>, trace: seq<Event>, i: nat)
    requires InitialOk(initial) && c.window > 0 && IsRun(c, initial, states, trace) && i < |states|
    ensures Work(c, states[i]) + i <= Work(c, Start(initial))
    ensures (forall e :: !Enabled(c, states[i], e)) ==>
      var s := states[i];
      && s.stamping == c.total && s.indexed == c.total - 1 && |s.channels| == |initial|
      && forall k | 0 <= k < |initial| ::
           s.channels[k].toSend == s.channels[k].answered == s.channels[k].toReceive == c.total
    decreases i
  {
    hide Inv, InitialOk, Enabled, Step, Work, Final;
    ReachableOk(c, initial, states, trace, i);
    if i > 0 {
      RunsEnd(c, initial, states, trace, i - 1);
      ReachableOk(c, initial, states, trace, i - 1);
      StepFalls(c, initial, states[i - 1], trace[i - 1]);
    }
    if Final(c, states[i]) {
      FinalMeansDone(c, initial, states[i]);
    } else {
      var e := Progress(c, initial, states[i]);
    }
  }
}
