/** cores/axis_oscilloscope_v1_0: the pre-trigger, wait and post-trigger machine
    that forwards one window of the input stream and latches the trigger address. */
module Oscilloscope {
  import opened Bits

  /** The generic CNTR_WIDTH and the two length ports, constant during a run. */
  datatype Config = Config(width: nat, pre: nat, tot: nat) {
    ghost predicate Valid() {
      6 <= width && pre < Modulus() && tot < Modulus()
    }

    function Modulus(): nat {
      Pow2(width)
    }
  }

  datatype Input<T> = Input(run: bool, valid: bool, trg: bool, data: T)

  datatype Phase = Idle | PreTrigger | Waiting | PostTrigger

  datatype Registers = Registers(phase: Phase, cntr: nat, addr: nat, enbl: bool)

  const RESET := Registers(Idle, 0, 0, false)

  /** The value on sts_data: the address register above the enable bit. */
  function Status(r: Registers): nat {
    2 * r.addr + if r.enbl then 1 else 0
  }

  function Next<T>(c: Config, r: Registers, i: Input<T>): Registers {
    var succ := Wrap(r.cntr + 1, c.Modulus());
    match r.phase
    case Idle =>
      if i.run then Registers(PreTrigger, 0, 0, true) else r
    case PreTrigger =>
      if !i.valid then r
      else r.(cntr := succ, phase := if r.cntr == c.pre then Waiting else PreTrigger)
    case Waiting =>
      if !i.valid then r
      else if i.trg then
        r.(addr := r.cntr, cntr := Wrap(c.pre + r.cntr % 64, c.Modulus()), phase := PostTrigger)
      else r.(cntr := succ)
    case PostTrigger =>
      if !i.valid then r
      else if r.cntr < c.tot then r.(cntr := succ)
      else r.(enbl := false, phase := Idle)
  }

  /** The registers after a whole input history. */
  function After<T>(c: Config, ins: seq<Input<T>>): Registers {
    if ins == [] then RESET else Next(c, After(c, ins[..|ins|-1]), ins[|ins|-1])
  }

  /** The beats on the master port (m_axis_tvalid high) over a history. */
  function Emitted<T>(c: Config, ins: seq<Input<T>>): seq<T> {
    if ins == [] then []
    else
      var before, i := ins[..|ins|-1], ins[|ins|-1];
      Emitted(c, before) + if After(c, before).enbl && i.valid then [i.data] else []
  }

  // ---------------------------------------------------------------- reference

  predicate Started<T>(ins: seq<Input<T>>) {
    exists k :: 0 <= k < |ins| && ins[k].run
  }

  /** The valid beats that arrive after the cycle that first raised run_flag. */
  function Beats<T>(ins: seq<Input<T>>): seq<Input<T>> {
    if ins == [] then []
    else
      var before, i := ins[..|ins|-1], ins[|ins|-1];
      Beats(before) + if Started(before) && i.valid then [i] else []
  }

  /** The first beat past the pre-trigger span that carries a trigger; |b| if none. */
  function TriggerAt<T>(c: Config, b: seq<Input<T>>): (t: nat)
    ensures t <= |b|
    ensures t < |b| ==> c.pre < t && b[t].trg
    ensures forall j :: c.pre < j < t ==> !b[j].trg
  {
    if b == [] then 0
    else
      var n := |b| - 1;
      var t := TriggerAt(c, b[..n]);
      if t < n || (c.pre < n && b[n].trg) then t else |b|
  }

  /** The counter value a trigger at index t restarts from. */
  function Restart(c: Config, t: nat): (r: nat)
    ensures r < c.Modulus()
  {
    Wrap(c.pre + t % 64, c.Modulus())
  }

  /** How many beats a capture with trigger index t forwards. */
  function CaptureLength(c: Config, t: nat): nat {
    t + 2 + if Restart(c, t) < c.tot then c.tot - Restart(c, t) else 0
  }

  function Datas<T>(b: seq<Input<T>>): seq<T> {
    seq(|b|, k requires 0 <= k < |b| => b[k].data)
  }

  /** run_flag is not raised again once a capture has finished. */
  predicate OneRun<T>(c: Config, ins: seq<Input<T>>) {
    ins == [] ||
    var before := ins[..|ins|-1];
    OneRun(c, before) &&
    !(Started(before) && After(c, before).phase.Idle? && ins[|ins|-1].run)
  }

  /** The registers as a function of the number of beats n and the trigger index t
      (t == n while no trigger was seen). */
  function Expected(c: Config, n: nat, t: nat): Registers
    requires t <= n
  {
    var m := c.Modulus();
    if t == n then Registers(if n <= c.pre then PreTrigger else Waiting, Wrap(n, m), 0, true)
    else if n < CaptureLength(c, t) then
      Registers(PostTrigger, Restart(c, t) + (n - t - 1), Wrap(t, m), true)
    else
      Registers(Idle, if Restart(c, t) < c.tot then c.tot else Restart(c, t), Wrap(t, m), false)
  }

  /** A beat that arrives before any trigger was taken. */
  lemma CountingStep<T>(c: Config, n: nat, i: Input<T>)
    requires c.Valid() && i.valid
    ensures Next(c, Expected(c, n, n), i)
         == Expected(c, n + 1, if c.pre < n && i.trg then n else n + 1)
  {
    var m := c.Modulus();
    WrapStep(n, m);
    if n > c.pre && i.trg {
      Pow2SixtyFour(c.width);
      WrapLowBits64(n, Pow2(c.width - 6));
    }
  }

  /** A beat that arrives after the trigger at index t. */
  lemma RecordingStep<T>(c: Config, n: nat, t: nat, i: Input<T>)
    requires c.Valid() && i.valid && t < n < CaptureLength(c, t)
    ensures Next(c, Expected(c, n, t), i) == Expected(c, n + 1, t)
  {
    hide Restart;
    var cntr := Restart(c, t) + (n - t - 1);
    assert cntr < c.tot ==> Wrap(cntr + 1, c.Modulus()) == cntr + 1;
  }

  lemma TriggerSnoc<T>(c: Config, b: seq<Input<T>>, i: Input<T>)
    ensures var t := TriggerAt(c, b);
            TriggerAt(c, b + [i]) == if t < |b| || (c.pre < |b| && i.trg) then t else |b| + 1
  {
    assert (b + [i])[..|b|] == b;
  }

  /** One more beat moves the machine from one expected state to the next. */
  lemma BeatStep<T>(c: Config, b: seq<Input<T>>, i: Input<T>)
    requires c.Valid() && i.valid
    requires var t := TriggerAt(c, b); t < |b| ==> |b| < CaptureLength(c, t)
    ensures Next(c, Expected(c, |b|, TriggerAt(c, b)), i)
         == Expected(c, |b| + 1, TriggerAt(c, b + [i]))
  {
    hide Next, Expected, TriggerAt;
    var t := TriggerAt(c, b);
    TriggerSnoc(c, b, i);
    if t == |b| {
      CountingStep(c, |b|, i);
    } else {
      RecordingStep(c, |b|, t, i);
    }
  }

  lemma StartedStep<T>(before: seq<Input<T>>, i: Input<T>)
    ensures Started(before + [i]) <==> Started(before) || i.run
  {
    var ins := before + [i];
    if i.run {
      assert ins[|before|].run;
    }
    if k :| 0 <= k < |before| && before[k].run {
      assert ins[k].run;
    }
  }

  /** What the capture forwards of the beats b. */
  function Window<T>(c: Config, b: seq<Input<T>>): seq<Input<T>> {
    var t := TriggerAt(c, b);
    if t < |b| && CaptureLength(c, t) <= |b| then b[..CaptureLength(c, t)] else b
  }

  lemma WindowStep<T>(c: Config, b: seq<Input<T>>, i: Input<T>)
    requires i.valid
    ensures Window(c, b + [i]) ==
            if Expected(c, |b|, TriggerAt(c, b)).enbl then b + [i] else Window(c, b)
  {
    assert (b + [i])[..|b|] == b;
    var t := TriggerAt(c, b);
    if t < |b| && CaptureLength(c, t) <= |b| {
      assert (b + [i])[..CaptureLength(c, t)] == b[..CaptureLength(c, t)];
    } else {
      assert (b + [i])[..|b| + 1] == b + [i];
    }
  }

  lemma Unroll<T>(c: Config, before: seq<Input<T>>, i: Input<T>)
    ensures After(c, before + [i]) == Next(c, After(c, before), i)
    ensures Emitted(c, before + [i]) ==
            Emitted(c, before) + if After(c, before).enbl && i.valid then [i.data] else []
    ensures Beats(before + [i]) == Beats(before) + if Started(before) && i.valid then [i] else []
  {
    assert (before + [i])[..|before|] == before;
  }

  ghost predicate Refines<T>(c: Config, ins: seq<Input<T>>) {
    var b := Beats(ins);
    if !Started(ins) then After(c, ins) == RESET && Emitted(c, ins) == [] && b == []
    else
      && After(c, ins) == Expected(c, |b|, TriggerAt(c, b))
      && Emitted(c, ins) == Datas(Window(c, b))
  }

  lemma QuietStep<T>(c: Config, before: seq<Input<T>>, i: Input<T>)
    requires Refines(c, before) && (Started(before) ==> !i.valid)
    requires !(Started(before) && After(c, before).phase.Idle? && i.run)
    requires c.Valid()
    ensures Refines(c, before + [i])
  {
    hide After, Emitted, Beats, Started, TriggerAt, Window, Expected;
    Unroll(c, before, i);
    StartedStep(before, i);
    EmptyCapture<T>(c);
    assert Emitted(c, before) + [] == Emitted(c, before);
    assert Beats(before) + [] == Beats(before);
  }

  lemma EmptyCapture<T>(c: Config)
    ensures TriggerAt<T>(c, []) == 0
    ensures Expected(c, 0, 0) == Registers(PreTrigger, 0, 0, true)
    ensures Datas<T>(Window(c, [])) == []
  {
  }

  lemma ValidStep<T>(c: Config, before: seq<Input<T>>, i: Input<T>)
    requires Refines(c, before) && Started(before) && i.valid
    requires !(After(c, before).phase.Idle? && i.run)
    requires c.Valid()
    ensures Refines(c, before + [i])
  {
    hide After, Emitted, Beats, Started, TriggerAt, CaptureLength;
    Unroll(c, before, i);
    StartedStep(before, i);
    var b := Beats(before);
    var t := TriggerAt(c, b);
    WindowStep(c, b, i);
    if t < |b| && CaptureLength(c, t) <= |b| {
      FinishedStep(c, b, i);
    } else {
      hide Next;
      BeatStep(c, b, i);
      assert Datas(b) + [i.data] == Datas(b + [i]);
    }
  }

  /** The machine refines the reference capture: whatever the gaps in the input and
      however often the counter wraps, the registers and the emitted beats are those
      of the beats seen since run_flag, cut at the capture length. */
  lemma {:induction false} RunRefinesCapture<T>(c: Config, ins: seq<Input<T>>)
    requires c.Valid() && OneRun(c, ins)
    ensures Refines(c, ins)
  {
    if ins == [] {
    } else {
      hide Emitted, Beats, Refines;
      var before, i := ins[..|ins|-1], ins[|ins|-1];
      assert ins == before + [i];
      RunRefinesCapture(c, before);
      if Started(before) && i.valid {
        ValidStep(c, before, i);
      } else {
        QuietStep(c, before, i);
      }
    }
  }

  /** Beats after the end of a capture change nothing. */
  lemma FinishedStep<T>(c: Config, b: seq<Input<T>>, i: Input<T>)
    requires var t := TriggerAt(c, b); t < |b| && CaptureLength(c, t) <= |b|
    ensures TriggerAt(c, b + [i]) == TriggerAt(c, b)
    ensures Expected(c, |b| + 1, TriggerAt(c, b)) == Expected(c, |b|, TriggerAt(c, b))
  {
    assert (b + [i])[..|b|] == b;
  }

  // ------------------------------------------------------------ main theorems

  /** A finished run forwards every valid beat from start to stop; their number and
      the latched address follow from the trigger index alone. */
  lemma FinishedCapture<T>(c: Config, ins: seq<Input<T>>)
    requires c.Valid() && OneRun(c, ins)
    requires Started(ins) && After(c, ins).phase.Idle?
    ensures var b := Beats(ins);
            var t := TriggerAt(c, b);
            && c.pre < t < |b| && CaptureLength(c, t) <= |b|
            && Emitted(c, ins) == Datas(b[..CaptureLength(c, t)])
            && |Emitted(c, ins)| == CaptureLength(c, t)
            && Status(After(c, ins)) == 2 * Wrap(t, c.Modulus()) == 2 * (t % Pow2(c.width))
  {
    RunRefinesCapture(c, ins);
    WrapIsRemainder(TriggerAt(c, Beats(ins)), c.Modulus());
  }

  /** The length t - t mod 64 + tot - pre + 2, whatever the trigger index, is what the
      machine delivers exactly when pre + 63 does not exceed tot. */
  lemma CaptureLengthFormula(c: Config)
    requires c.Valid()
    ensures (forall t: nat :: c.pre < t ==> CaptureLength(c, t) == t - t % 64 + c.tot - c.pre + 2)
       <==> c.pre + 63 <= c.tot
  {
    if c.pre + 63 <= c.tot {
      forall t: nat | c.pre < t
        ensures CaptureLength(c, t) == t - t % 64 + c.tot - c.pre + 2
      {
        assert Restart(c, t) == c.pre + t % 64;
      }
    } else {
      var t := 64 * (c.pre + 1) + 63;
      assert t % 64 == 63;
      var m := c.Modulus();
      Pow2SixtyFour(c.width);
      assert Restart(c, t) == if c.pre + 63 < m then c.pre + 63 else c.pre + 63 - m;
      assert CaptureLength(c, t) != t - t % 64 + c.tot - c.pre + 2;
    }
  }

  /** A started capture is over exactly when a trigger was taken and the beats of its
      length have arrived. */
  lemma StopsExactly<T>(c: Config, ins: seq<Input<T>>)
    requires c.Valid() && OneRun(c, ins) && Started(ins)
    ensures var b := Beats(ins);
            var t := TriggerAt(c, b);
            After(c, ins).phase.Idle? <==> t < |b| && CaptureLength(c, t) <= |b|
  {
    RunRefinesCapture(c, ins);
    hide After, Beats, Emitted, OneRun, Started, TriggerAt, CaptureLength;
  }

  /** A start and then n valid beats, from beat t on with a trigger. */
  function From<T>(x: T, t: nat, n: nat): seq<Input<T>> {
    if n == 0 then [Input(true, false, true, x)]
    else From(x, t, n - 1) + [Input(false, true, t <= n - 1, x)]
  }

  lemma OneRunSnoc<T>(c: Config, before: seq<Input<T>>, i: Input<T>)
    requires OneRun(c, before) && (i.run ==> !Started(before))
    ensures OneRun(c, before + [i])
  {
    assert (before + [i])[..|before|] == before;
    hide After, Started;
  }

  lemma EmptyHistory<T>(c: Config)
    ensures OneRun<T>(c, []) && !Started<T>([]) && Beats<T>([]) == []
  {
  }

  lemma {:induction false} FromBeats<T>(c: Config, x: T, t: nat, n: nat)
    requires c.pre < t
    ensures var ins := From(x, t, n);
            && OneRun(c, ins) && Started(ins) && |Beats(ins)| == n
            && TriggerAt(c, Beats(ins)) == (if n <= t then n else t)
  {
    hide After, Emitted, OneRun, Beats, Started, TriggerAt;
    if n == 0 {
      var start := Input(true, false, true, x);
      assert From(x, t, 0) == [] + [start];
      EmptyHistory<T>(c);
      EmptyCapture<T>(c);
      OneRunSnoc(c, [], start);
      StartedStep([], start);
      Unroll(c, [], start);
    } else {
      FromBeats(c, x, t, n - 1);
      var before, i := From(x, t, n - 1), Input(false, true, t <= n - 1, x);
      OneRunSnoc(c, before, i);
      StartedStep(before, i);
      Unroll(c, before, i);
      TriggerSnoc(c, Beats(before), i);
    }
  }

  /** Every configuration has, for every trigger index past the pre-trigger span, a run
      that finishes with it. */
  lemma SomeCaptureFinishes<T>(c: Config, x: T, t: nat) returns (ins: seq<Input<T>>)
    requires c.Valid() && c.pre < t
    ensures OneRun(c, ins) && Started(ins) && After(c, ins).phase.Idle?
    ensures TriggerAt(c, Beats(ins)) == t
  {
    hide After, Beats, Emitted, OneRun, Started, TriggerAt;
    var n := CaptureLength(c, t);
    ins := From(x, t, n);
    FromBeats(c, x, t, n);
    StopsExactly(c, ins);
  }

  /** How many beats a run should have forwarded, from its trigger index. */
  ghost predicate HasFormulaLength<T>(c: Config, ins: seq<Input<T>>) {
    var t := TriggerAt(c, Beats(ins));
    |Emitted(c, ins)| == t - t % 64 + c.tot - c.pre + 2
  }

  /** The formula is right of every finished run exactly when pre + 63 does not exceed
      tot. */
  lemma RunLengthFormula<T(!new)>(c: Config, x: T)
    requires c.Valid()
    ensures (forall ins: seq<Input<T>> ::
               OneRun(c, ins) && Started(ins) && After(c, ins).phase.Idle? ==> HasFormulaLength(c, ins))
       <==> c.pre + 63 <= c.tot
  {
    hide After, Beats, Emitted, OneRun, Started, TriggerAt, CaptureLength;
    CaptureLengthFormula(c);
    if c.pre + 63 <= c.tot {
      forall ins: seq<Input<T>> | OneRun(c, ins) && Started(ins) && After(c, ins).phase.Idle?
        ensures HasFormulaLength(c, ins)
      {
        FinishedCapture(c, ins);
      }
    } else {
      var t: nat :| c.pre < t && CaptureLength(c, t) != t - t % 64 + c.tot - c.pre + 2;
      var ins := SomeCaptureFinishes(c, x, t);
      FinishedCapture(c, ins);
      assert !HasFormulaLength(c, ins);
    }
  }

  lemma LowStatusBit(r: Registers)
    ensures Status(r) % 2 == 1 <==> r.enbl
  {
  }

  lemma {:induction false} OneRunPrefix<T>(c: Config, ins: seq<Input<T>>, n: nat)
    requires OneRun(c, ins) && n <= |ins|
    ensures OneRun(c, ins[..n])
  {
    if n == |ins| {
      assert ins[..n] == ins;
    } else {
      hide After, Started;
      OneRunPrefix(c, ins[..|ins|-1], n);
      assert ins[..|ins|-1][..n] == ins[..n];
    }
  }

  lemma OneRunAt<T>(c: Config, ins: seq<Input<T>>, n: nat)
    requires OneRun(c, ins) && n < |ins|
    ensures Started(ins[..n]) && After(c, ins[..n]).phase.Idle? ==> !ins[n].run
  {
    hide After, Started;
    OneRunPrefix(c, ins, n + 1);
    assert ins[..n + 1][..n] == ins[..n];
  }

  /** A cycle after the end of a capture that does not start another one. */
  lemma IdleCycle<T>(c: Config, before: seq<Input<T>>, i: Input<T>)
    requires OneRun(c, before) && Started(before) && After(c, before).phase.Idle? && !i.run
    ensures OneRun(c, before + [i]) && Started(before + [i])
    ensures After(c, before + [i]) == After(c, before)
    ensures Beats(before) <= Beats(before + [i])
  {
    Unroll(c, before, i);
    StartedStep(before, i);
    OneRunSnoc(c, before, i);
    hide After, Beats, Emitted, Started, OneRun;
  }

  /** A capture that is over at cycle e stays as it is, and its beats stay the first. */
  lemma {:induction false} IdleForGood<T>(c: Config, ins: seq<Input<T>>, e: nat, n: nat)
    requires OneRun(c, ins) && e <= n <= |ins|
    requires Started(ins[..e]) && After(c, ins[..e]).phase.Idle?
    ensures OneRun(c, ins[..n]) && Started(ins[..n]) && After(c, ins[..n]) == After(c, ins[..e])
    ensures Beats(ins[..e]) <= Beats(ins[..n])
  {
    hide After, Beats, Started, OneRun;
    if n == e {
      OneRunPrefix(c, ins, n);
    } else {
      IdleForGood(c, ins, e, n - 1);
      OneRunAt(c, ins, n - 1);
      assert ins[..n] == ins[..n - 1] + [ins[n - 1]];
      IdleCycle(c, ins[..n - 1], ins[n - 1]);
    }
  }

  /** Later beats do not change which one was the trigger. */
  lemma {:induction false} TriggerKept<T>(c: Config, b: seq<Input<T>>, b': seq<Input<T>>)
    requires b <= b' && TriggerAt(c, b) < |b|
    ensures TriggerAt(c, b') == TriggerAt(c, b)
  {
    hide TriggerAt;
    if b == b' {
    } else {
      var front := b'[..|b'|-1];
      assert b' == front + [b'[|b'|-1]];
      TriggerKept(c, b, front);
      TriggerSnoc(c, front, b'[|b'|-1]);
    }
  }

  /** The enable bit of the status word is set exactly while a capture runs. */
  lemma {:induction false} EnableBit<T>(c: Config, ins: seq<Input<T>>)
    ensures After(c, ins).enbl <==> !After(c, ins).phase.Idle?
    ensures Status(After(c, ins)) % 2 == 1 <==> !After(c, ins).phase.Idle?
  {
    hide Status;
    LowStatusBit(After(c, ins));
    if ins == [] {
      EmptyRun<T>(c);
      hide After;
    } else {
      hide After, Wrap, Pow2;
      var before, i := ins[..|ins|-1], ins[|ins|-1];
      assert ins == before + [i];
      EnableBit(c, before);
      Unroll(c, before, i);
    }
  }

  /** Captures are independent: one that starts when an earlier one is over goes through
      the same states and forwards the same beats as one that starts after reset. */
  lemma {:induction false} RunsAreIndependent<T>(
    c: Config, earlier: seq<Input<T>>, start: Input<T>, rest: seq<Input<T>>)
    requires After(c, earlier).phase.Idle? && start.run
    ensures After(c, (earlier + [start]) + rest) == After(c, [start] + rest)
    ensures Emitted(c, (earlier + [start]) + rest) == Emitted(c, earlier) + Emitted(c, [start] + rest)
  {
    hide After, Emitted;
    if rest == [] {
      EnableBit(c, earlier);
      Unroll(c, earlier, start);
      Unroll(c, [], start);
      EmptyRun<T>(c);
      assert [] + [start] == [start] == [start] + rest;
      assert (earlier + [start]) + rest == earlier + [start];
      assert Emitted(c, earlier) + [] == Emitted(c, earlier);
    } else {
      hide Next;
      var front, i := rest[..|rest|-1], rest[|rest|-1];
      RunsAreIndependent(c, earlier, start, front);
      assert (earlier + [start]) + rest == ((earlier + [start]) + front) + [i];
      assert [start] + rest == ([start] + front) + [i];
      Unroll(c, (earlier + [start]) + front, i);
      Unroll(c, [start] + front, i);
    }
  }

  lemma EmptyRun<T>(c: Config)
    ensures After<T>(c, []) == RESET && Emitted<T>(c, []) == []
  {
  }

  // ------------------------------------------------------------------ the core

  /** The core itself; `past` is its input history since reset. */
  class Scope<T> {
    const cfg: Config
    var phase: Phase
    var cntr: nat
    var addr: nat
    var enbl: bool
    ghost var past: seq<Input<T>>

    ghost predicate Valid()
      reads this
    {
      cfg.Valid() && Regs() == After(cfg, past)
    }

    function Regs(): Registers
      reads this
    {
      Registers(phase, cntr, addr, enbl)
    }

    constructor (cfg: Config)
      requires cfg.Valid()
      ensures Valid() && past == [] && this.cfg == cfg
    {
      this.cfg := cfg;
      phase, cntr, addr, enbl := Idle, 0, 0, false;
      past := [];
    }

    /** One rising clock edge; `tvalid` and `status` are the outputs before it. */
    method Clock(i: Input<T>) returns (tvalid: bool, tdata: T, status: nat)
      requires Valid()
      modifies this
      ensures Valid() && past == old(past) + [i]
      ensures Emitted(cfg, past) == Emitted(cfg, old(past)) + if tvalid then [tdata] else []
      ensures status == Status(old(Regs()))
    {
      hide After, Emitted, Pow2, Wrap;
      tvalid, tdata := enbl && i.valid, i.data;
      status := 2 * addr + if enbl then 1 else 0;
      ghost var was := past;
      past := past + [i];
      Unroll(cfg, was, i);
      match phase {
        case Idle =>
          if i.run {
            addr, cntr, enbl, phase := 0, 0, true, PreTrigger;
          }
        case PreTrigger =>
          if i.valid {
            if cntr == cfg.pre {
              phase := Waiting;
            }
            cntr := Wrap(cntr + 1, cfg.Modulus());
          }
        case Waiting =>
          if i.valid {
            if i.trg {
              addr := cntr;
              cntr := Wrap(cfg.pre + cntr % 64, cfg.Modulus());
              phase := PostTrigger;
            } else {
              cntr := Wrap(cntr + 1, cfg.Modulus());
            }
          }
        case PostTrigger =>
          if i.valid {
            if cntr < cfg.tot {
              cntr := Wrap(cntr + 1, cfg.Modulus());
            } else {
              enbl, phase := false, Idle;
            }
          }
      }
    }
  }
}
