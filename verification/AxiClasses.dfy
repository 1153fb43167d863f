/** The state machines of fpga-network-stack/hls/axi_utils.hpp as they are written: registers that survive from one
    call to the next, and branches that read and write streams. Each call is proved to do what the model's step does. */
module AxiClasses {
  import opened AxiWords
  import opened AxiMachines
  import opened AxiRoute

  class IncreaseStreamWidth {
    const d: nat
    const w: nat
    const clear: bool
    var count: nat
    var temp: Word

    function State(): Machine
      reads this
    {
      Widen(d, w, clear, count, temp)
    }

    constructor (d: nat, w: nat, clear: bool)
      requires w > 0 && d > 0
      ensures State() == Widen(d, w, clear, 0, Word(Zeros(w * d), NoKeep(w * d), false)) && Ok(State())
    {
      this.d, this.w, this.clear := d, w, clear;
      count := 0;
      temp := Word(Zeros(w * d), NoKeep(w * d), false);
    }

    method Call(input: Stream<Word>, output: Stream<Word>)
      requires input != output && Fits(State(), input.queue)
      modifies this, input, output
      ensures var (m, rest, sent) := Step(old(State()), old(input.queue));
        State() == m && input.queue == rest && output.queue == old(output.queue) + sent
    {
      if !input.Empty() {
        LaneFits(d, w, count);
        var curr := input.Read();
        temp := temp.(data := Splice(temp.data, w * count, curr.data));
        temp := temp.(keep := Splice(temp.keep, w * count, curr.keep));
        temp := temp.(last := curr.last);
        count := count + 1;
        if curr.last || count == d {
          output.Write(temp);
          count := 0;
          if clear {
            temp := temp.(data := Zeros(w * d));
          }
          temp := temp.(keep := NoKeep(w * d));
        }
      }
    }
  }

  class ReduceStreamWidth {
    const d: nat
    const w: nat
    var second: bool
    var count: nat
    var curr: Word

    function State(): Machine
      reads this
    {
      Narrow(d, w, second, count, curr)
    }

    constructor (d: nat, w: nat)
      requires w > 0 && d >= 2
      ensures State() == Narrow(d, w, false, 0, Word(Zeros(w * d), NoKeep(w * d), false)) && Ok(State())
    {
      this.d, this.w := d, w;
      second, count := false, 0;
      curr := Word(Zeros(w * d), NoKeep(w * d), false);
    }

    method Call(input: Stream<Word>, output: Stream<Word>)
      requires input != output && Fits(State(), input.queue)
      modifies this, input, output
      ensures var (m, rest, sent) := Step(old(State()), old(input.queue));
        State() == m && input.queue == rest && output.queue == old(output.queue) + sent
    {
      LaneFits(d, w, 1);
      if !second {
        if !input.Empty() {
          curr := input.Read();
          output.Write(Word(curr.data[..w], curr.keep[..w], !curr.keep[w]));
          if curr.keep[w] {
            count := 1;
            second := true;
          }
          curr := ShiftDown(curr, d, w);
        }
      } else {
        var last := if count < d - 1 then !curr.keep[w] else curr.last;
        output.Write(Word(curr.data[..w], curr.keep[..w], last));
        curr := ShiftDown(curr, d, w);
        count := count + 1;
        if count == d || last {
          second := false;
        }
      }
    }
  }

  class LShiftWordByOctet {
    const offset: nat
    const w: nat
    var firstWord: bool
    var writeRemainder: bool
    var prev: Word

    function State(): Machine
      reads this
    {
      LShift(offset, w, firstWord, writeRemainder, prev)
    }

    constructor (offset: nat, w: nat)
      requires offset < w
      ensures State() == LShift(offset, w, true, false, Word(Zeros(w), NoKeep(w), false)) && Ok(State())
    {
      this.offset, this.w := offset, w;
      firstWord, writeRemainder := true, false;
      prev := Word(Zeros(w), NoKeep(w), false);
    }

    method Call(input: Stream<Word>, output: Stream<Word>)
      requires input != output && Fits(State(), input.queue)
      modifies this, input, output
      ensures var (m, rest, sent) := Step(old(State()), old(input.queue));
        State() == m && input.queue == rest && output.queue == old(output.queue) + sent
    {
      var cut := w - offset;
      if writeRemainder {
        output.Write(Word(prev.data[cut..] + Zeros(cut), prev.keep[cut..] + NoKeep(cut), true));
        writeRemainder := false;
      } else if !input.Empty() {
        var curr := input.Read();
        if offset == 0 {
          output.Write(curr);
        } else {
          var send;
          if firstWord {
            send := Word(Zeros(offset) + curr.data[..cut], Ones32(offset) + curr.keep[..cut],
                         !AnyKept(curr.keep[cut..]));
          } else {
            send := Word(prev.data[cut..] + curr.data[..cut], prev.keep[cut..] + curr.keep[..cut],
                         !AnyKept(curr.keep[cut..]));
          }
          output.Write(send);
          prev := curr;
          firstWord := false;
          if curr.last {
            firstWord := true;
            writeRemainder := !send.last;
          }
        }
      }
    }
  }

  class RShiftWordByOctet {
    const offset: nat
    const w: nat
    var remainder: bool
    var firstWord: bool
    var prev: Word

    function State(): Machine
      reads this
    {
      RShift(offset, w, firstWord, remainder, prev)
    }

    constructor (offset: nat, w: nat)
      requires offset < w
      ensures State() == RShift(offset, w, offset != 0, false, Word(Zeros(w), NoKeep(w), false)) && Ok(State())
    {
      this.offset, this.w := offset, w;
      remainder, firstWord := false, offset != 0;
      prev := Word(Zeros(w), NoKeep(w), false);
    }

    method Call(input: Stream<Word>, output: Stream<Word>)
      requires input != output && Fits(State(), input.queue)
      modifies this, input, output
      ensures var (m, rest, sent) := Step(old(State()), old(input.queue));
        State() == m && input.queue == rest && output.queue == old(output.queue) + sent
    {
      if !remainder {
        if !input.Empty() {
          var curr := input.Read();
          var sendLast := false;
          if !firstWord {
            var send;
            if offset == 0 {
              send := curr;
            } else {
              send := Word(prev.data[offset..] + curr.data[..offset], prev.keep[offset..] + curr.keep[..offset],
                           !AnyKept(curr.keep[offset..]));
            }
            sendLast := send.last;
            output.Write(send);
          }
          prev := curr;
          firstWord := false;
          if curr.last {
            firstWord := offset != 0;
            if !sendLast {
              remainder := true;
            }
          }
        }
      } else {
        output.Write(Word(prev.data[offset..] + Zeros(offset), prev.keep[offset..] + NoKeep(offset), true));
        remainder := false;
      }
    }
  }

  class StreamPkgSplitter {
    var mode: Mode

    constructor ()
      ensures mode == Mode.Idle
    {
      mode := Mode.Idle;
    }

    method Call(destIn: Stream<bool>, input: Stream<Word>, output0: Stream<Word>, output1: Stream<Word>)
      requires input != output0 && input != output1 && output0 != output1
      modifies this, destIn, input, output0, output1
      ensures var (s, sent0, sent1) := SplitCall(Splitter(old(mode), old(destIn.queue), old(input.queue)));
        && Splitter(mode, destIn.queue, input.queue) == s
        && output0.queue == old(output0.queue) + sent0 && output1.queue == old(output1.queue) + sent1
    {
      match mode
      case Idle =>
        if !destIn.Empty() {
          var dest := destIn.Read();
          mode := Fwd(dest);
          if !input.Empty() {
            var curr := input.Read();
            if !dest {
              output0.Write(curr);
            } else {
              output1.Write(curr);
            }
            if curr.last {
              mode := Mode.Idle;
            }
          }
        }
      case Fwd(dest) =>
        if !input.Empty() {
          var curr := input.Read();
          if !dest {
            output0.Write(curr);
          } else {
            output1.Write(curr);
          }
          if curr.last {
            mode := Mode.Idle;
          }
        }
    }
  }

  class StreamPkgMerger {
    var mode: Mode

    constructor ()
      ensures mode == Mode.Idle
    {
      mode := Mode.Idle;
    }

    method Call(originIn: Stream<bool>, input0: Stream<Word>, input1: Stream<Word>, output: Stream<Word>)
      requires input0 != output && input1 != output && input0 != input1
      modifies this, originIn, input0, input1, output
      ensures var (m, sent) := MergeCall(Merger(old(mode), old(originIn.queue), old(input0.queue), old(input1.queue)));
        Merger(mode, originIn.queue, input0.queue, input1.queue) == m && output.queue == old(output.queue) + sent
    {
      match mode
      case Idle =>
        if !originIn.Empty() {
          var origin := originIn.Read();
          var source := if origin then input1 else input0;
          if !source.Empty() {
            var curr := source.Read();
            output.Write(curr);
            if !curr.last {
              mode := Fwd(origin);
            }
          } else {
            mode := Fwd(origin);
          }
        }
      case Fwd(origin) =>
        var source := if origin then input1 else input0;
        if !source.Empty() {
          var curr := source.Read();
          output.Write(curr);
          if curr.last {
            mode := Mode.Idle;
          }
        }
    }
  }

  class PassValidPkg {
    var mode: PassMode

    constructor ()
      ensures mode == Valid
    {
      mode := Valid;
    }

    method Call(pkgValidIn: Stream<bool>, input: Stream<Word>, output: Stream<Word>)
      requires input != output
      modifies this, pkgValidIn, input, output
      ensures var (p, sent) := PassCall(Passer(old(mode), old(pkgValidIn.queue), old(input.queue)));
        Passer(mode, pkgValidIn.queue, input.queue) == p && output.queue == old(output.queue) + sent
    {
      match mode
      case Valid =>
        if !pkgValidIn.Empty() && !input.Empty() {
          var valid := pkgValidIn.Read();
          var word := input.Read();
          if valid {
            output.Write(word);
            if !word.last {
              mode := Pass;
            }
          } else if !word.last {
            mode := Drop;
          }
        }
      case Pass =>
        if !input.Empty() {
          var word := input.Read();
          output.Write(word);
          if word.last {
            mode := Valid;
          }
        }
      case Drop =>
        if !input.Empty() {
          var word := input.Read();
          if word.last {
            mode := Valid;
          }
        }
    }
  }
}
