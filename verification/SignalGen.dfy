/** cores/axis_signal_gen_v1_0/signal_gen: a 50-bit phase accumulator fed through a
    multiplier and two pipeline registers, driving the sine table. */
module SignalGen {
  import L = SinCosLut

  const STEP := 35184                     // phase step per unit of the frequency word
  const PHASE := 0x4_0000_0000_0000       // 2^50
  const WORD := 0x1_0000_0000             // 2^32
  const ADDRESS := 0x10_0000_0000         // 2^36: the table sees the top fourteen bits

  datatype Input = Input(svalid: bool, sdata: nat, mready: bool)

  datatype Registers = Registers(
    freq: nat, r2: nat, r3: nat, acc: nat, lut: L.Registers, sin: nat, cos: nat)

  function Next(rom: L.Rom, r: Registers, i: Input): Registers {
    var tvalid := r.freq != 0;
    Registers(
      if i.svalid then i.sdata else r.freq,
      (STEP * r.freq) % PHASE,
      r.r2,
      (r.acc + r.r3) % PHASE,
      L.Next(rom, r.lut, r.acc / ADDRESS),
      if i.mready && tvalid then r.lut.sin else r.sin,
      if i.mready && tvalid then r.lut.cos else r.cos)
  }

  function After(rom: L.Rom, init: L.Registers, ins: seq<Input>): Registers {
    if ins == [] then Registers(0, 0, 0, 0, init, 0, 0)
    else Next(rom, After(rom, init, ins[..|ins|-1]), ins[|ins|-1])
  }

  lemma Unroll(rom: L.Rom, init: L.Registers, before: seq<Input>, i: Input)
    ensures After(rom, init, before + [i]) == Next(rom, After(rom, init, before), i)
  {
    assert (before + [i])[..|before|] == before;
  }

  /** The frequency words are 32 bits wide. */
  predicate Legal(ins: seq<Input>) {
    forall k :: 0 <= k < |ins| ==> ins[k].sdata < WORD
  }

  /** The frequency word in force after a history: the last one accepted. */
  function FreqAfter(ins: seq<Input>): nat {
    if ins == [] then 0
    else if ins[|ins|-1].svalid then ins[|ins|-1].sdata else FreqAfter(ins[..|ins|-1])
  }

  /** The sum of the frequency words in force in cycles 0 to n-1. */
  function FreqSum(ins: seq<Input>, n: nat): nat
    requires n <= |ins|
  {
    if n == 0 then 0 else FreqSum(ins, n - 1) + FreqAfter(ins[..n - 1])
  }

  lemma {:induction false} FreqRegister(rom: L.Rom, init: L.Registers, ins: seq<Input>)
    requires Legal(ins)
    ensures After(rom, init, ins).freq == FreqAfter(ins) < WORD
  {
    if ins == [] {
    } else {
      FreqRegister(rom, init, ins[..|ins|-1]);
      hide L.Next;
    }
  }

  /** The product of an 18-bit constant and a 32-bit word fits fifty bits. */
  lemma StepFits(f: nat)
    requires f < WORD
    ensures (STEP * f) % PHASE == STEP * f
  {
  }

  /** The accumulator once the frequency words that went in add up to sum. */
  function Phase(sum: nat): nat {
    35184 * sum % 0x4_0000_0000_0000
  }

  lemma PhaseStep(sum: nat, f: nat)
    ensures (Phase(sum) + STEP * f) % PHASE == Phase(sum + f)
    ensures Phase(0) == 0
  {
    assert STEP * (sum + f) == STEP * sum + STEP * f;
    AddInTurn(STEP * sum, STEP * f);
  }

  /** Whole turns can be dropped before or after an addition. */
  lemma AddInTurn(x: nat, y: nat)
    ensures (x % 0x4_0000_0000_0000 + y) % 0x4_0000_0000_0000 == (x + y) % 0x4_0000_0000_0000
  {
    var q, r := x / 0x4_0000_0000_0000, x % 0x4_0000_0000_0000;
    assert x + y == 0x4_0000_0000_0000 * q + (r + y);
    AddTurns(q, r + y);
  }

  lemma AddTurns(q: nat, z: nat)
    ensures (0x4_0000_0000_0000 * q + z) % 0x4_0000_0000_0000 == z % 0x4_0000_0000_0000
  {
  }

  lemma {:induction false} FreqSumStable(before: seq<Input>, i: Input, n: nat)
    requires n <= |before|
    ensures FreqSum(before + [i], n) == FreqSum(before, n)
  {
    if n == 0 {
    } else {
      FreqSumStable(before, i, n - 1);
      assert (before + [i])[..n - 1] == before[..n - 1];
    }
  }

  lemma FreqSumSnoc(before: seq<Input>, i: Input)
    requires 2 <= |before|
    ensures var m := |before| - 2;
            && FreqSum(before + [i], m + 1) == FreqSum(before, m) + FreqAfter(before[..m])
            && (m == 0 ==> FreqSum(before, m) == 0)
  {
    hide FreqAfter;
    var m := |before| - 2;
    FreqSumStable(before, i, m);
    assert (before + [i])[..m] == before[..m];
  }

  lemma PipelineStep(rom: L.Rom, init: L.Registers, before: seq<Input>, i: Input)
    ensures var r, r' := After(rom, init, before), After(rom, init, before + [i]);
            r'.r2 == (STEP * r.freq) % PHASE && r'.r3 == r.r2
  {
    Unroll(rom, init, before, i);
    hide After, L.Next;
  }

  lemma {:induction false} PipelineRegisters(rom: L.Rom, init: L.Registers, ins: seq<Input>)
    requires Legal(ins)
    ensures var r, n := After(rom, init, ins), |ins|;
            && r.r2 == (if n < 1 then 0 else STEP * FreqAfter(ins[..n - 1]))
            && r.r3 == (if n < 2 then 0 else STEP * FreqAfter(ins[..n - 2]))
  {
    if ins == [] {
    } else {
      hide After, FreqAfter;
      var before, i := ins[..|ins|-1], ins[|ins|-1];
      assert ins == before + [i];
      LegalPrefix(before, i);
      PipelineRegisters(rom, init, before);
      FreqRegister(rom, init, before);
      StepFits(FreqAfter(before));
      PipelineStep(rom, init, before, i);
      if |ins| >= 2 {
        assert before[..|before|-1] == ins[..|ins|-2];
      }
    }
  }

  lemma LegalPrefix(before: seq<Input>, i: Input)
    requires Legal(before + [i])
    ensures Legal(before)
  {
    assert forall k :: 0 <= k < |before| ==> before[k] == (before + [i])[k];
  }

  lemma AccumulatorStep(rom: L.Rom, init: L.Registers, before: seq<Input>, i: Input)
    ensures var r := After(rom, init, before);
            && After(rom, init, before + [i]).acc == (r.acc + r.r3) % PHASE
            && (r.acc == r.r3 == 0 ==> After(rom, init, before + [i]).acc == 0)
  {
    Unroll(rom, init, before, i);
    hide After, L.Next;
  }

  /** For any history of frequency words the accumulator at cycle n is the step times the
      sum of the words in force up to cycle n-3, modulo 2^50: a new word changes the
      slope of the phase, never the phase. */
  lemma {:induction false} PhaseIsFrequencySum(rom: L.Rom, init: L.Registers, ins: seq<Input>)
    requires Legal(ins)
    ensures After(rom, init, ins).acc
         == if |ins| < 3 then 0 else Phase(FreqSum(ins, |ins| - 2))
  {
    if ins == [] {
      hide L.Next, Next, Phase, FreqSum;
    } else {
      hide *;
      var before, i, n := ins[..|ins|-1], ins[|ins|-1], |ins|;
      assert ins == before + [i];
      LegalPrefix(before, i);
      AccumulatorStep(rom, init, before, i);
      PhaseIsFrequencySum(rom, init, before);
      PipelineRegisters(rom, init, before);
      if n >= 3 {
        FreqSumSnoc(before, i);
        PhaseStep(FreqSum(before, n - 3), FreqAfter(before[..n - 3]));
      }
    }
  }

  /** How many turns the accumulator has completed: the cycles whose addition carried out
      of its fifty bits. */
  function Carries(rom: L.Rom, init: L.Registers, ins: seq<Input>): nat {
    if ins == [] then 0
    else
      var before := ins[..|ins|-1];
      var r := After(rom, init, before);
      Carries(rom, init, before) + if r.acc + r.r3 >= PHASE then 1 else 0
  }

  lemma {:induction false} PhaseInRange(rom: L.Rom, init: L.Registers, ins: seq<Input>)
    requires Legal(ins)
    ensures var r := After(rom, init, ins); r.acc < PHASE && r.r3 < PHASE
  {
    PhaseIsFrequencySum(rom, init, ins);
    PipelineRegisters(rom, init, ins);
    if 2 <= |ins| {
      FreqRegister(rom, init, ins[..|ins| - 2]);
      StepFits(FreqAfter(ins[..|ins| - 2]));
    }
    hide After, FreqAfter, FreqSum;
  }

  lemma CarryOut(acc: nat, step: nat)
    requires acc < PHASE && step < PHASE
    ensures acc + step == (if acc + step >= PHASE then PHASE else 0) + (acc + step) % PHASE
  {
  }

  lemma {:induction false} CarryStep(rom: L.Rom, init: L.Registers, before: seq<Input>, i: Input)
    requires Legal(before + [i])
    ensures var r := After(rom, init, before);
            PHASE * Carries(rom, init, before + [i]) + After(rom, init, before + [i]).acc
            == PHASE * Carries(rom, init, before) + r.acc + r.r3
  {
    hide After, Legal;
    LegalPrefix(before, i);
    PhaseInRange(rom, init, before);
    AccumulatorStep(rom, init, before, i);
    CarriesSnoc(rom, init, before, i);
    var r := After(rom, init, before);
    CarryOut(r.acc, r.r3);
    hide Carries;
    OneMoreTurn(Carries(rom, init, before));
  }

  lemma {:induction false} CarriesSnoc(rom: L.Rom, init: L.Registers, before: seq<Input>, i: Input)
    ensures var r := After(rom, init, before);
            Carries(rom, init, before + [i]) == Carries(rom, init, before) + if r.acc + r.r3 >= PHASE then 1 else 0
  {
    hide After;
    assert (before + [i])[..|before|] == before;
  }

  lemma OneMoreTurn(turns: nat)
    ensures PHASE * (turns + 1) == PHASE * turns + PHASE && PHASE * (turns + 0) == PHASE * turns
  {
  }

  /** For any history of frequency words the completed turns and the accumulator together
      are the step times the sum of the words in force up to cycle n-3: no turn is lost
      and none is counted twice. */
  lemma {:induction false} UnwrappedPhase(rom: L.Rom, init: L.Registers, ins: seq<Input>)
    requires Legal(ins)
    ensures 0x4_0000_0000_0000 * Carries(rom, init, ins) + After(rom, init, ins).acc
         == if |ins| < 3 then 0 else 35184 * FreqSum(ins, |ins| - 2)
    ensures After(rom, init, ins).acc < 0x4_0000_0000_0000
  {
    if ins == [] {
      hide L.Next, Next, FreqSum;
    } else {
      hide After, Carries, FreqAfter, FreqSum;
      var before, i, n := ins[..|ins|-1], ins[|ins|-1], |ins|;
      assert ins == before + [i];
      LegalPrefix(before, i);
      UnwrappedPhase(rom, init, before);
      CarryStep(rom, init, before, i);
      PipelineRegisters(rom, init, before);
      if n >= 3 {
        FreqSumSnoc(before, i);
        StepTimesSum(FreqSum(before, n - 3), FreqAfter(before[..n - 3]));
      }
    }
  }

  lemma StepTimesSum(sum: nat, f: nat)
    ensures STEP * (sum + f) == STEP * sum + STEP * f
    ensures STEP * 0 == 0
  {
  }

  // ------------------------------------------------------------ frequency accuracy

  /** A word f is loaded in the first cycle and kept. */
  predicate Constant(ins: seq<Input>, f: nat) {
    ins != [] && ins[0].svalid && forall k :: 0 <= k < |ins| && ins[k].svalid ==> ins[k].sdata == f
  }

  lemma {:induction false} ConstantFreq(ins: seq<Input>, f: nat)
    requires Constant(ins, f)
    ensures FreqAfter(ins) == f
  {
    if |ins| <= 1 {
    } else {
      ConstantFreq(ins[..|ins|-1], f);
    }
  }

  lemma {:induction false} ConstantSum(ins: seq<Input>, f: nat, n: nat)
    requires Constant(ins, f) && n + 1 <= |ins|
    ensures FreqSum(ins, n + 1) == f * n
  {
    if n == 0 {
    } else {
      ConstantSum(ins, f, n - 1);
      ConstantFreq(ins[..n], f);
      assert f * n == f * (n - 1) + f;
    }
  }

  /** Turns made by the accumulator in n steps at word f, before wrapping. */
  function Turns(f: nat, n: nat): real {
    STEP as real * (f * n) as real / PHASE as real
  }

  /** The turns of f/256 Hz in n cycles of the 125 MHz clock. */
  function IdealTurns(f: nat, n: nat): real {
    (f * n) as real / (256.0 * 125_000_000.0)
  }

  /** The generated frequency falls short of the ideal one by less than eleven parts per
      million of it, and never exceeds it. */
  lemma ShortfallBound(f: nat, n: nat)
    ensures 0.0 <= IdealTurns(f, n) - Turns(f, n) <= 11.0 / 1_000_000.0 * IdealTurns(f, n)
    ensures f > 0 && n > 0 ==> IdealTurns(f, n) - Turns(f, n) < 11.0 / 1_000_000.0 * IdealTurns(f, n)
  {
    var x := (f * n) as real;
    assert f > 0 && n > 0 ==> f * n > 0;
    Shortfall(x);
  }

  lemma Shortfall(x: real)
    requires x >= 0.0
    ensures var ideal, real_ := x / (256.0 * 125_000_000.0), STEP as real * x / PHASE as real;
            && 0.0 <= ideal - real_ <= 11.0 / 1_000_000.0 * ideal
            && (x > 0.0 ==> ideal - real_ < 11.0 / 1_000_000.0 * ideal)
  {
  }

  /** With a constant word the accumulator is the fractional part of those turns. */
  lemma ConstantFrequencyPhase(rom: L.Rom, init: L.Registers, ins: seq<Input>, f: nat)
    requires Legal(ins) && Constant(ins, f) && 3 <= |ins|
    ensures After(rom, init, ins).acc == 35184 * (f * (|ins| - 3)) % 0x4_0000_0000_0000
  {
    PhaseIsFrequencySum(rom, init, ins);
    ConstantSum(ins, f, |ins| - 3);
    hide After;
  }

  lemma WholeAndPart(whole: nat, part: nat)
    ensures whole as real + part as real / PHASE as real == (PHASE * whole + part) as real / PHASE as real
  {
    assert (PHASE * whole + part) as real == PHASE as real * whole as real + part as real;
  }

  lemma TurnsOfPhase(f: nat, n: nat)
    ensures (STEP * (f * n)) as real / PHASE as real == Turns(f, n)
  {
  }

  /** Frequency accuracy of the core: with a constant word, the turns it has completed and
      the accumulator's fraction of the next never exceed the ideal turns and fall short of
      them by at most eleven parts per million, the pipeline delay of three cycles aside. */
  lemma {:induction false} ConstantFrequencyShortfall(rom: L.Rom, init: L.Registers, ins: seq<Input>, f: nat)
    requires Legal(ins) && Constant(ins, f) && 3 <= |ins|
    ensures var n := |ins| - 3;
            var turns := Carries(rom, init, ins) as real + After(rom, init, ins).acc as real / PHASE as real;
            && 0.0 <= IdealTurns(f, n) - turns <= 11.0 / 1_000_000.0 * IdealTurns(f, n)
            && (f > 0 && n > 0 ==> IdealTurns(f, n) - turns < 11.0 / 1_000_000.0 * IdealTurns(f, n))
  {
    var n := |ins| - 3;
    hide After, Carries, Constant, Legal, Turns, IdealTurns, FreqSum;
    UnwrappedPhase(rom, init, ins);
    ConstantSum(ins, f, n);
    WholeAndPart(Carries(rom, init, ins), After(rom, init, ins).acc);
    TurnsOfPhase(f, n);
    ShortfallBound(f, n);
  }

  // ------------------------------------------------------------------- the output

  /** The addresses the table has been given. */
  function Addresses(rom: L.Rom, init: L.Registers, ins: seq<Input>): seq<nat> {
    if ins == [] then []
    else
      var before := ins[..|ins|-1];
      Addresses(rom, init, before) + [After(rom, init, before).acc / ADDRESS]
  }

  lemma {:induction false} LutRegisters(rom: L.Rom, init: L.Registers, ins: seq<Input>)
    ensures |Addresses(rom, init, ins)| == |ins|
    ensures After(rom, init, ins).lut == L.After(rom, init, Addresses(rom, init, ins))
  {
    if ins == [] {
    } else {
      var before := ins[..|ins|-1];
      LutRegisters(rom, init, before);
      L.Unroll(rom, init, Addresses(rom, init, before), After(rom, init, before).acc / ADDRESS);
      hide L.After, L.Next;
    }
  }

  lemma {:induction false} AddressAt(rom: L.Rom, init: L.Registers, ins: seq<Input>, k: nat)
    requires k < |ins| && Legal(ins)
    ensures |Addresses(rom, init, ins)| == |ins|
    ensures Addresses(rom, init, ins)[k] == After(rom, init, ins[..k]).acc / ADDRESS < L.TURN
  {
    LutRegisters(rom, init, ins);
    hide L.After, L.Next;
    var before := ins[..|ins|-1];
    if k < |ins| - 1 {
      AddressAt(rom, init, before, k);
      LutRegisters(rom, init, before);
      assert before[..k] == ins[..k];
    } else {
      PhaseIsFrequencySum(rom, init, before);
    }
  }

  /** The table address is the phase in units of a turn of 2^14 places. */
  lemma TopBits(phase: nat)
    ensures phase / ADDRESS == 16384 * phase / 0x4_0000_0000_0000
  {
    var q, rest := phase / 0x10_0000_0000, phase % 0x10_0000_0000;
    assert 16384 * phase == 0x4_0000_0000_0000 * q + 16384 * rest;
  }

  /** End to end: a sample taken by a ready sink is the table wave at the phase of four
      cycles before, a turn of the accumulator being one of the table's 2^14 places, and
      the phase is the sum of the frequency words. */
  lemma OutputIsWave(rom: L.Rom, init: L.Registers, ins: seq<Input>)
    requires Legal(ins) && 4 <= |ins|
    requires ins[|ins|-1].mready && FreqAfter(ins[..|ins|-1]) != 0
    ensures var r := After(rom, init, ins);
            var a := 16384 * After(rom, init, ins[..|ins|-4]).acc / 0x4_0000_0000_0000;
            && a < 16384
            && r.sin == L.Wave(rom, a)
            && r.cos == L.Wave(rom, (a + 4096) % 16384)
  {
    hide After, FreqAfter, L.After, L.Next, L.Wave, Addresses;
    var n := |ins|;
    var before := ins[..n - 1];
    assert ins == before + [ins[n - 1]];
    Unroll(rom, init, before, ins[n - 1]);
    FreqRegister(rom, init, before);
    LutRegisters(rom, init, before);
    AddressAt(rom, init, before, n - 4);
    assert before[..n - 4] == ins[..n - 4];
    TopBits(After(rom, init, ins[..n - 4]).acc);
    L.PipelineIsWave(rom, init, Addresses(rom, init, before));
  }

  /** The last cycle in which the sink took a sample of a running generator; -1 if none. */
  function LastTaken(ins: seq<Input>, n: nat): (k: int)
    requires n <= |ins|
    ensures -1 <= k < n
    ensures k >= 0 ==> ins[k].mready && FreqAfter(ins[..k]) != 0
    ensures forall l :: k < l < n ==> !ins[l].mready || FreqAfter(ins[..l]) == 0
  {
    if n == 0 then -1
    else if ins[n - 1].mready && FreqAfter(ins[..n - 1]) != 0 then n - 1 else LastTaken(ins, n - 1)
  }

  lemma {:induction false} OutputHeld(rom: L.Rom, init: L.Registers, ins: seq<Input>, n: nat)
    requires Legal(ins) && n <= |ins|
    ensures var r, k := After(rom, init, ins[..n]), LastTaken(ins, n);
            && (k < 0 ==> r.sin == r.cos == 0)
            && (k >= 0 ==> var t := After(rom, init, ins[..k + 1]); r.sin == t.sin && r.cos == t.cos)
  {
    hide L.Next, FreqAfter;
    if n == 0 {
    } else {
      OutputHeld(rom, init, ins, n - 1);
      assert ins[..n] == ins[..n - 1] + [ins[n - 1]];
      FreqRegister(rom, init, ins[..n - 1]);
      Unroll(rom, init, ins[..n - 1], ins[n - 1]);
      hide After;
    }
  }

  lemma OutputWhenTaken(rom: L.Rom, init: L.Registers, ins: seq<Input>, k: nat)
    requires Legal(ins) && 3 <= k < |ins| && ins[k].mready && FreqAfter(ins[..k]) != 0
    ensures var r := After(rom, init, ins[..k + 1]);
            var a := 16384 * After(rom, init, ins[..k - 3]).acc / 0x4_0000_0000_0000;
            && a < 16384
            && r.sin == L.Wave(rom, a)
            && r.cos == L.Wave(rom, (a + 4096) % 16384)
  {
    hide After, FreqAfter, L.Wave;
    var taken := ins[..k + 1];
    assert taken[..k] == ins[..k] && taken[..k - 3] == ins[..k - 3];
    OutputIsWave(rom, init, taken);
  }

  /** At every time the output is the table wave at the phase of three cycles before the
      last cycle in which the sink took a sample: a stalled sink freezes it. */
  lemma OutputIsLastWave(rom: L.Rom, init: L.Registers, ins: seq<Input>)
    requires Legal(ins)
    ensures var r, k := After(rom, init, ins), LastTaken(ins, |ins|);
            && (k < 0 ==> r.sin == r.cos == 0)
            && (k >= 3 ==>
                  var a := 16384 * After(rom, init, ins[..k - 3]).acc / 0x4_0000_0000_0000;
                  && a < 16384
                  && r.sin == L.Wave(rom, a)
                  && r.cos == L.Wave(rom, (a + 4096) % 16384))
  {
    hide After, FreqAfter, L.Wave;
    OutputHeld(rom, init, ins, |ins|);
    assert ins[..|ins|] == ins;
    var k := LastTaken(ins, |ins|);
    hide LastTaken;
    if k >= 3 {
      OutputWhenTaken(rom, init, ins, k);
    }
  }

  /** The core with its table; `past` is its input history since reset. */
  class Core {
    const rom: L.Rom
    ghost const init: L.Registers
    const lut: L.Lut
    var freq: nat
    var r2: nat
    var r3: nat
    var acc: nat
    var sin: nat
    var cos: nat
    ghost var past: seq<Input>

    ghost predicate Valid()
      reads this, lut
    {
      lut.rom == rom && Regs() == After(rom, init, past)
      && lut.Regs() == L.After(rom, lut.init, lut.past)
    }

    ghost function Regs(): Registers
      reads this, lut
    {
      Registers(freq, r2, r3, acc, lut.Regs(), sin, cos)
    }

    constructor (rom: L.Rom, init: L.Registers)
      ensures Valid() && past == [] && fresh(lut)
    {
      this.rom, this.init := rom, init;
      lut := new L.Lut(rom, init);
      freq, r2, r3, acc, sin, cos := 0, 0, 0, 0, 0, 0;
      past := [];
    }

    /** One rising clock edge; the results are the outputs before it. */
    method Clock(i: Input) returns (tvalid: bool, sinOut: nat, cosOut: nat)
      requires Valid()
      modifies this, lut
      ensures Valid() && past == old(past) + [i]
      ensures tvalid == old(freq != 0) && sinOut == old(sin) && cosOut == old(cos)
    {
      hide After, L.After, L.Next;
      Unroll(rom, init, past, i);
      tvalid, sinOut, cosOut := freq != 0, sin, cos;
      if i.mready && tvalid {
        sin, cos := lut.sin, lut.cos;
      }
      L.Unroll(rom, lut.init, lut.past, acc / ADDRESS);
      lut.Clock(acc / ADDRESS);
      acc := (acc + r3) % PHASE;
      r3 := r2;
      r2 := (STEP * freq) % PHASE;
      if i.svalid {
        freq := i.sdata;
      }
      past := past + [i];
    }
  }
}
