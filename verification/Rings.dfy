/** RingBuffer of CPU_programs/ring_buffer.hpp: a circular buffer whose writer overwrites the oldest slot when it is
    full. */
module Rings {

  datatype Ring<T> = Ring(slots: seq<T>, head: nat, tail: nat, full: bool)

  predicate Ok<T>(r: Ring<T>) {
    r.head < |r.slots| && r.tail < |r.slots| && (r.full ==> r.head == r.tail)
  }

  function Size<T>(r: Ring<T>): (n: nat)
    requires Ok(r)
    ensures n <= |r.slots| && (r.full <==> n == |r.slots|)
  {
    if r.full then |r.slots|
    else if r.head >= r.tail then r.head - r.tail
    else |r.slots| + r.head - r.tail
  }

  /** Where the i-th oldest element is stored. */
  function At<T>(r: Ring<T>, i: nat): (p: nat)
    requires Ok(r) && i < |r.slots|
    ensures p < |r.slots|
  {
    if r.tail + i < |r.slots| then r.tail + i else r.tail + i - |r.slots|
  }

  /** The elements waiting to be read, oldest first. */
  function Contents<T>(r: Ring<T>): seq<T>
    requires Ok(r)
  {
    seq(Size(r), i requires 0 <= i < Size(r) => r.slots[At(r, i)])
  }

  function Next(i: nat, n: nat): (j: nat)
    requires i < n
    ensures j < n && j == if i + 1 == n then 0 else i + 1
  {
    (i + 1) % n
  }

  function Written<T>(r: Ring<T>, x: T): Ring<T>
    requires Ok(r)
  {
    var tail := if r.full then Next(r.tail, |r.slots|) else r.tail;
    var head := Next(r.head, |r.slots|);
    Ring(r.slots[r.head := x], head, tail, head == tail)
  }

  /** The slot at the tail is released, unless there is none. */
  function Released<T>(r: Ring<T>): Ring<T>
    requires Ok(r)
  {
    if !r.full && r.head == r.tail then r else r.(full := false, tail := Next(r.tail, |r.slots|))
  }

  /** A write appends; on a full buffer it also loses the oldest element. */
  lemma WriteAppends<T>(r: Ring<T>, x: T)
    requires Ok(r)
    ensures Ok(Written(r, x))
    ensures Contents(Written(r, x)) == (if |Contents(r)| == |r.slots| then Contents(r)[1..] else Contents(r)) + [x]
  {
    var w := Written(r, x);
    var kept := if |Contents(r)| == |r.slots| then Contents(r)[1..] else Contents(r);
    assert |Contents(w)| == |kept| + 1;
    forall i | 0 <= i < |Contents(w)|
      ensures Contents(w)[i] == (kept + [x])[i]
    {
      if i < |kept| && r.full {
        assert At(w, i) == At(r, i + 1) != r.head;
      } else if i < |kept| {
        assert At(w, i) == At(r, i) != r.head;
      } else {
        assert At(w, i) == r.head;
      }
    }
  }

  /** A read takes the oldest element; on an empty buffer it does nothing. */
  lemma ReleaseTakesOldest<T>(r: Ring<T>)
    requires Ok(r)
    ensures Ok(Released(r))
    ensures Contents(r) == [] ==> Released(r) == r
    ensures Contents(r) != [] ==> Contents(r)[0] == r.slots[r.tail] && Contents(Released(r)) == Contents(r)[1..]
  {
    if Contents(r) != [] {
      var next := Released(r);
      assert |Contents(next)| == |Contents(r)| - 1;
      forall i | 0 <= i < |Contents(next)|
        ensures Contents(next)[i] == Contents(r)[1..][i]
      {
        assert At(next, i) == At(r, i + 1);
      }
    }
  }

  // ---------- The class ----------

  class RingBuffer<T(0)> {
    var head: nat
    var tail: nat
    var isFull: bool
    const buf: array<T>

    ghost predicate Valid()
      reads this, buf
    {
      Ok(Value())
    }

    ghost function Value(): Ring<T>
      reads this, buf
    {
      Ring(buf[..], head, tail, isFull)
    }

    constructor (numSlots: nat)
      requires numSlots > 0
      ensures Valid() && fresh(buf) && buf.Length == numSlots && Contents(Value()) == []
    {
      buf := new T[numSlots];
      head, tail, isFull := 0, 0, false;
    }

    method Reset()
      requires Valid()
      modifies this
      ensures Valid() && Contents(Value()) == [] && buf[..] == old(buf[..])
    {
      head := tail;
      isFull := false;
    }

    method Empty() returns (r: bool)
      requires Valid()
      ensures r <==> Contents(Value()) == []
    {
      r := !isFull && head == tail;
    }

    method Full() returns (r: bool)
      requires Valid()
      ensures r <==> |Contents(Value())| == buf.Length
    {
      r := isFull;
    }

    method SizeOf() returns (size: nat)
      requires Valid()
      ensures size == |Contents(Value())|
    {
      size := buf.Length;
      if !isFull {
        if head >= tail {
          size := head - tail;
        } else {
          size := buf.Length + head - tail;
        }
      }
    }

    method WriteSlot(input: T)
      requires Valid()
      modifies this, buf
      ensures Valid() && Value() == Written(old(Value()), input)
      ensures Contents(Value())
           == (if |old(Contents(Value()))| == buf.Length then old(Contents(Value()))[1..] else old(Contents(Value())))
               + [input]
    {
      WriteAppends(Value(), input);
      buf[head] := input;
      if isFull {
        tail := (tail + 1) % buf.Length;
      }
      head := (head + 1) % buf.Length;
      isFull := head == tail;
    }

    /** output is the caller's buffer: an empty ring leaves it as it was. */
    method ReadSlot(output: T) returns (r: T)
      requires Valid()
      modifies this
      ensures Valid() && Value() == Released(old(Value())) && buf[..] == old(buf[..])
      ensures old(Contents(Value())) == [] ==> r == output && Contents(Value()) == []
      ensures old(Contents(Value())) != [] ==> old(Contents(Value())) == [r] + Contents(Value())
    {
      ReleaseTakesOldest(Value());
      r := output;
      var empty := Empty();
      if empty {
        return;
      } else {
        r := buf[tail];
      }
      isFull := false;
      tail := (tail + 1) % buf.Length;
    }
  }

  // ---------- A writer and a reader kept apart by a window ----------

  datatype Op = Write | Read

  function Writes(ops: seq<Op>): nat {
    if ops == [] then 0 else Writes(ops[..|ops| - 1]) + (if ops[|ops| - 1].Write? then 1 else 0)
  }

  function Reads(ops: seq<Op>): nat {
    if ops == [] then 0 else Reads(ops[..|ops| - 1]) + (if ops[|ops| - 1].Read? then 1 else 0)
  }

  /** At every moment 0 <= writes - reads <= window, and at most `total` elements are written. */
  ghost predicate Legal(ops: seq<Op>, window: nat, total: nat) {
    forall i | 0 <= i <= |ops| ::
        Reads(ops[..i]) <= Writes(ops[..i]) <= Reads(ops[..i]) + window && Writes(ops[..i]) <= total
  }

  lemma LegalPrefix(ops: seq<Op>, window: nat, total: nat)
    requires Legal(ops, window, total) && ops != []
    ensures Legal(ops[..|ops| - 1], window, total)
    ensures Reads(ops) <= Writes(ops) <= Reads(ops) + window && Writes(ops) <= total
  {
    var before := ops[..|ops| - 1];
    forall i | 0 <= i <= |before|
      ensures before[..i] == ops[..i]
    {
    }
    assert ops[..|ops|] == ops;
  }

  /** The buffer and everything read from it, when the j-th write stores input[j]. */
  function Play<T>(ops: seq<Op>, r: Ring<T>, input: seq<T>): (res: (Ring<T>, seq<T>))
    requires Ok(r) && Writes(ops) <= |input|
    ensures Ok(res.0) && |res.0.slots| == |r.slots|
    decreases |ops|
  {
    if ops == [] then (r, [])
    else
      var (s, outs) := Play(ops[..|ops| - 1], r, input);
      if ops[|ops| - 1].Write? then (Put(s, input[Writes(ops[..|ops| - 1])]), outs)
      else (Take(s), if Contents(s) == [] then outs else outs + [s.slots[s.tail]])
  }

  function Put<T>(s: Ring<T>, x: T): (w: Ring<T>)
    requires Ok(s)
    ensures w == Written(s, x) && Ok(w) && |w.slots| == |s.slots|
  {
    WriteAppends(s, x);
    Written(s, x)
  }

  function Take<T>(s: Ring<T>): (t: Ring<T>)
    requires Ok(s)
    ensures t == Released(s) && Ok(t) && |t.slots| == |s.slots|
  {
    ReleaseTakesOldest(s);
    Released(s)
  }

  function Fresh<T>(slots: seq<T>): Ring<T> { Ring(slots, 0, 0, false) }

  /** As long as the window is no larger than the buffer, the i-th read returns the i-th element written. */
  lemma {:induction false} WindowKeepsAll<T>(ops: seq<Op>, slots: seq<T>, input: seq<T>, window: nat)
    requires slots != [] && Legal(ops, window, |input|)
    requires window <= |slots| || |input| <= |slots|
    ensures Writes(ops) <= |input| && Reads(ops) <= Writes(ops)
    ensures Play(ops, Fresh(slots), input).1 == input[..Reads(ops)]
    ensures Contents(Play(ops, Fresh(slots), input).0) == input[Reads(ops)..Writes(ops)]
    decreases |ops|
  {
    if ops == [] {
      NothingPlayed(slots, input);
    } else {
      hide *;
      LegalPrefix(ops, window, |input|);
      var before := ops[..|ops| - 1];
      WindowKeepsAll(before, slots, input, window);
      PlayUnfold(ops, Fresh(slots), input);
      var (s, outs) := Play(before, Fresh(slots), input);
      var i, j := Reads(before), Writes(before);
      assert outs == input[..i] && Contents(s) == input[i..j];
      if ops[|ops| - 1].Write? {
        assert Reads(ops) == i && Writes(ops) == j + 1;
        AppendNext(s, input, i, j);
        assert Play(ops, Fresh(slots), input) == (Written(s, input[j]), outs);
      } else {
        assert Reads(ops) == i + 1 && Writes(ops) == j;
        TakeNext(s, input, i, j);
        assert |Contents(s)| == j - i > 0;
        assert Play(ops, Fresh(slots), input) == (Released(s), outs + [s.slots[s.tail]]);
      }
    }
  }

  lemma NothingPlayed<T>(slots: seq<T>, input: seq<T>)
    requires slots != []
    ensures Reads([]) == 0 == Writes([])
    ensures Play([], Fresh(slots), input) == (Fresh(slots), []) && Contents(Fresh(slots)) == []
  {
  }

  lemma PlayUnfold<T>(ops: seq<Op>, r: Ring<T>, input: seq<T>)
    requires Ok(r) && ops != [] && Writes(ops) <= |input|
    ensures Writes(ops) == Writes(ops[..|ops| - 1]) + (if ops[|ops| - 1].Write? then 1 else 0)
    ensures Reads(ops) == Reads(ops[..|ops| - 1]) + (if ops[|ops| - 1].Read? then 1 else 0)
    ensures var (s, outs) := Play(ops[..|ops| - 1], r, input);
      if ops[|ops| - 1].Write? then Play(ops, r, input) == (Written(s, input[Writes(ops[..|ops| - 1])]), outs)
      else Play(ops, r, input) == (Released(s), if Contents(s) == [] then outs else outs + [s.slots[s.tail]])
  {
  }

  /** One more operation on a buffer that holds input[i..j]. */
  lemma AppendNext<T>(s: Ring<T>, input: seq<T>, i: nat, j: nat)
    requires Ok(s) && i <= j < |input| && Contents(s) == input[i..j] && j - i < |s.slots|
    ensures Ok(Written(s, input[j])) && Contents(Written(s, input[j])) == input[i..j + 1]
  {
    WriteAppends(s, input[j]);
    hide *;
    assert input[i..j] + [input[j]] == input[i..j + 1];
  }

  lemma TakeNext<T>(s: Ring<T>, input: seq<T>, i: nat, j: nat)
    requires Ok(s) && i < j <= |input| && Contents(s) == input[i..j]
    ensures Ok(Released(s)) && Contents(Released(s)) == input[i + 1..j]
    ensures input[..i] + [s.slots[s.tail]] == input[..i + 1]
  {
    ReleaseTakesOldest(s);
    hide *;
    assert Contents(s)[0] == input[i];
    assert input[..i] + [input[i]] == input[..i + 1];
    assert input[i..j][1..] == input[i + 1..j];
  }

  /** n writes in a row. */
  function Burst(n: nat): seq<Op> { seq(n, _ => Write) }

  lemma {:induction false} BurstCounts(n: nat)
    ensures Writes(Burst(n)) == n && Reads(Burst(n)) == 0
    decreases n
  {
    if n > 0 {
      assert Burst(n)[..n - 1] == Burst(n - 1);
      BurstCounts(n - 1);
    }
  }

  lemma BurstIsLegal(n: nat, window: nat, total: nat)
    requires n <= window && n <= total
    ensures Legal(Burst(n) + [Read], window, total) || n == 0
  {
    var ops := Burst(n) + [Read];
    forall i | 0 <= i <= |ops|
      ensures Reads(ops[..i]) == (if i <= n then 0 else 1) && Writes(ops[..i]) == (if i <= n then i else n)
    {
      if i <= n {
        assert ops[..i] == Burst(i);
        BurstCounts(i);
      } else {
        assert ops[..i][..n] == Burst(n) && ops[..i] == ops;
        BurstCounts(n);
      }
    }
  }

  /** One write too many: the first element is gone. */
  lemma OverflowLoses<T>(slots: seq<T>, input: seq<T>)
    requires slots != [] && |input| > |slots|
    ensures var ops := Burst(|slots| + 1) + [Read];
      Writes(ops) == |slots| + 1 && Play(ops, Fresh(slots), input).1 == [input[1]]
  {
    var n := |slots|;
    var ops := Burst(n + 1) + [Read];
    BurstCounts(n);
    BurstCounts(n + 1);
    assert ops[..n + 1] == Burst(n + 1) && Burst(n + 1)[..n] == Burst(n);
    var legal := Burst(n) + [Read];
    BurstIsLegal(n, n, |input|);
    LegalPrefix(legal, n, |input|);
    assert legal[..n] == Burst(n);
    WindowKeepsAll(Burst(n), slots, input, n);
    var full := Play(Burst(n), Fresh(slots), input);
    assert Contents(full.0) == input[..n] && full.1 == [];
    WriteAppends(full.0, input[n]);
    var over := Written(full.0, input[n]);
    assert Play(Burst(n + 1), Fresh(slots), input) == (over, []);
    ReleaseTakesOldest(over);
  }

  /** Reading back what was written, whatever it is and whenever the two sides run. */
  ghost predicate Lossless(slots: nat, window: nat, total: nat) {
    forall ops, initial: seq<int>, input: seq<int> |
        |initial| == slots > 0 && |input| == total && Legal(ops, window, total) && Writes(ops) <= total ::
      Play(ops, Fresh(initial), input).1 <= input
  }

  /** The hand-off is lossless exactly when the window, or the whole run, fits in the buffer. */
  lemma LosslessIffWindowFits(slots: nat, window: nat, total: nat)
    requires slots > 0
    ensures Lossless(slots, window, total) <==> window <= slots || total <= slots
  {
    if window <= slots || total <= slots {
      forall ops, initial: seq<int>, input: seq<int> |
          |initial| == slots && |input| == total && Legal(ops, window, total) && Writes(ops) <= total
        ensures Play(ops, Fresh(initial), input).1 <= input
      {
        WindowKeepsAll(ops, initial, input, window);
      }
    } else {
      LosesOne(slots, window, total);
    }
  }

  lemma LosesOne(slots: nat, window: nat, total: nat)
    requires 0 < slots < window && slots < total
    ensures !Lossless(slots, window, total)
  {
    var initial := seq(slots, _ => 0);
    var input := seq(total, i => i);
    var ops := Burst(slots + 1) + [Read];
    BurstIsLegal(slots + 1, window, total);
    OverflowLoses(initial, input);
    hide Legal, Play, Writes, Reads;
    assert input[0] != input[1];
    assert !(Play(ops, Fresh(initial), input).1 <= input);
  }
}
