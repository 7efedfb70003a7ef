/** cores/axis_lago_trigger_v1_0: a twelve-deep delay line, level-crossing detection,
    latched status words, and a state machine that emits trigger, sub-trigger and PPS
    records as 32-bit words. The next state is the synthesised one: it depends on every
    signal the process reads. */
module LagoTrigger {
  import opened Options

  const DEPTH := 12        // DATA_ARRAY_LENGTH
  const METADATA := 10     // METADATA_ARRAY_LENGTH
  const SUBTRIG := 3       // SUBTRIG_ARRAY_LENGTH

  const TWO14 := 0x4000
  const TWO16 := 0x1_0000
  const TWO27 := 0x800_0000
  const TWO30 := 0x4000_0000
  const TWO32 := 0x1_0000_0000

  /** One cycle's inputs; levels and samples are signed 16-bit halves, channel A low. */
  datatype Input = Input(
    trigA: int, trigB: int, subA: int, subB: int,
    pps: bool, clkCnt: nat, dataA: int, dataB: int, tready: bool)

  datatype State = Idle | SendData | SendTrStatus | SendCntStatus | SendScalers | SendPps

  /** The registers of the record emitter. */
  datatype Fsm = Fsm(state: State, wr: nat, data: nat, tvalid: bool, tready: bool)

  datatype Registers = Registers(
    a: seq<int>, b: seq<int>,
    pps: seq<nat>, scalers: seq<nat>,
    trStatus: nat, cntStatus: nat, trigCnt: nat,
    charge1: nat, charge2: nat,
    fsm: Fsm)

  predicate Shaped(r: Registers) {
    |r.a| == |r.b| == DEPTH && |r.pps| == METADATA && |r.scalers| == SUBTRIG
  }

  function Zeros(n: nat): (s: seq<nat>)
    ensures |s| == n && forall k :: 0 <= k < n ==> s[k] == 0
  {
    seq(n, k => 0)
  }

  const RESET := Registers(
    Zeros(DEPTH), Zeros(DEPTH), Zeros(METADATA), Zeros(SUBTRIG), 0, 0, 0, 0, 0,
    Fsm(Idle, 0, 0, false, false))

  // -------------------------------------------------------------- word formats

  /** "00" & b(13..0) & "00" & a(13..0) */
  function AdcWord(a: int, b: int): nat {
    (b % TWO14) * TWO16 + a % TWO14
  }

  /** "010" & second & first & clk */
  function StatusWord(first: bool, second: bool, clk: nat): nat {
    TWO30 + (if second then 2 * TWO27 else 0) + (if first then TWO27 else 0) + clk
  }

  /** "10" & count(29..0) */
  function CountWord(count: nat): nat {
    2 * TWO30 + count % TWO30
  }

  /** "0000" & high & low, fourteen bits each */
  function PairWord(high: int, low: int): nat {
    (high % TWO14) * TWO14 + low % TWO14
  }

  /** "11" & a 3-bit code & payload */
  function PpsWord(code: nat, payload: nat): nat {
    3 * TWO30 + code * TWO27 + payload
  }

  function PpsWords(i: Input): seq<nat> {
    var level := i.trigA % TWO16;
    [0xFFFF_FFFF, PpsWord(0, i.clkCnt), PpsWord(1, level), PpsWord(2, level), PpsWord(3, level),
     PpsWord(4, level), PpsWord(4, 0x100_0000 + level), PpsWord(4, 0x200_0000 + level),
     PpsWord(4, 0x300_0000 + level), PpsWord(4, 0x400_0000 + level)]
  }

  function Tag(w: nat): nat {
    w / 0x4000_0000
  }

  // ------------------------------------------------------------------ next state

  /** Two samples below the level, then one at or above it. */
  predicate Crossing(s0: int, s1: int, s2: int, level: int) {
    s2 >= level && s1 < level && s0 < level
  }

  /** A local maximum s1 over the sub-trigger level, all below the trigger level. */
  predicate Peak(s0: int, s1: int, s2: int, s3: int, sub: int, trig: int) {
    && s1 >= sub && s0 < s1 && (s2 < s1 || (s2 == s1 && s3 < s1))
    && s1 < trig && s2 < trig && s3 < trig
  }

  predicate Tr1(r: Registers, i: Input)
    requires Shaped(r)
  {
    Crossing(r.a[1], r.a[2], r.a[3], i.trigA)
  }

  predicate Tr2(r: Registers, i: Input)
    requires Shaped(r)
  {
    Crossing(r.b[1], r.b[2], r.b[3], i.trigB)
  }

  predicate SubTr1(r: Registers, i: Input)
    requires Shaped(r)
  {
    Peak(r.a[1], r.a[2], r.a[3], r.a[4], i.subA, i.trigA)
  }

  predicate SubTr2(r: Registers, i: Input)
    requires Shaped(r)
  {
    Peak(r.b[1], r.b[2], r.b[3], r.b[4], i.subB, i.trigB)
  }

  predicate Tr(r: Registers, i: Input)
    requires Shaped(r)
  {
    Tr1(r, i) || Tr2(r, i)
  }

  predicate SubTr(r: Registers, i: Input)
    requires Shaped(r)
  {
    SubTr1(r, i) || SubTr2(r, i)
  }

  function NextScalers(r: Registers, i: Input): (s: seq<nat>)
    requires Shaped(r)
    ensures |s| == SUBTRIG
  {
    if !SubTr(r, i) then r.scalers
    else [PairWord(r.a[2], r.b[2]), PairWord(r.charge1, r.charge2),
          StatusWord(SubTr1(r, i), SubTr2(r, i), i.clkCnt)]
  }

  /** What the emitter would load from an array; the index is in range whenever it matters. */
  function At(words: seq<nat>, k: nat): nat {
    if k < |words| then words[k] else 0
  }

  function NextFsm(r: Registers, i: Input): Fsm
    requires Shaped(r)
  {
    var f := r.fsm;
    match f.state
    case Idle =>
      if i.pps then f.(data := At(r.pps, f.wr), state := SendPps)
      else if Tr(r, i) then f.(state := SendData)
      else if SubTr(r, i) then f.(data := At(r.scalers, f.wr), state := SendScalers)
      else f
    case SendData =>
      if f.wr == DEPTH then Fsm(SendTrStatus, 0, r.trStatus, true, false)
      else if i.tready then Fsm(SendData, f.wr + 1, AdcWord(r.a[0], r.b[0]), true, true)
      else f.(tvalid := true, tready := true)
    case SendTrStatus =>
      if i.tready then Fsm(SendCntStatus, f.wr, r.cntStatus, true, false)
      else f.(tvalid := true, tready := false)
    case SendCntStatus =>
      if i.tready then f.(state := Idle, tvalid := false, tready := true)
      else f.(tvalid := true, tready := false)
    case SendScalers =>
      if f.wr == SUBTRIG then Fsm(Idle, 0, f.data, false, true)
      else if i.tready then Fsm(SendScalers, f.wr + 1, At(r.scalers, f.wr), true, false)
      else f.(tvalid := true, tready := false)
    case SendPps =>
      if f.wr == METADATA then Fsm(Idle, 0, f.data, false, true)
      else if i.tready then Fsm(SendPps, f.wr + 1, At(r.pps, f.wr), true, false)
      else f.(tvalid := true, tready := false)
  }

  function Next(r: Registers, i: Input): (r': Registers)
    requires Shaped(r)
    ensures Shaped(r')
  {
    var tr := Tr(r, i);
    Registers(
      r.a[1..] + [i.dataA], r.b[1..] + [i.dataB],
      if i.pps then PpsWords(i) else r.pps,
      NextScalers(r, i),
      if tr then StatusWord(Tr1(r, i), Tr2(r, i), i.clkCnt) else r.trStatus,
      if tr then CountWord(r.trigCnt) else r.cntStatus,
      if tr then (r.trigCnt + 1) % TWO32 else r.trigCnt,
      (r.charge1 + DEPTH - 1) % TWO14, (r.charge2 + DEPTH - 1) % TWO14,
      NextFsm(r, i))
  }

  /** The registers after a whole input history. */
  function After(ins: seq<Input>): (r: Registers)
    ensures Shaped(r)
  {
    if ins == [] then RESET else Next(After(ins[..|ins|-1]), ins[|ins|-1])
  }

  /** The words transferred on the master port over a history. */
  function Emitted(ins: seq<Input>): seq<nat> {
    if ins == [] then []
    else
      var before, i := ins[..|ins|-1], ins[|ins|-1];
      var f := After(before).fsm;
      Emitted(before) + if f.tvalid && i.tready then [f.data] else []
  }

  lemma Unroll(before: seq<Input>, i: Input)
    ensures After(before + [i]) == Next(After(before), i)
    ensures Emitted(before + [i]) == Emitted(before) +
            if After(before).fsm.tvalid && i.tready then [After(before).fsm.data] else []
  {
    assert (before + [i])[..|before|] == before;
  }

  /** The port widths and the always-ready sink. */
  predicate Legal(ins: seq<Input>) {
    forall k :: 0 <= k < |ins| ==> ins[k].tready && ins[k].clkCnt < 0x800_0000
  }

  // ------------------------------------------------------------------ delay line

  /** Channel samples by cycle; zero before reset. */
  function SampleA(ins: seq<Input>, c: int): int {
    if 0 <= c < |ins| then ins[c].dataA else 0
  }

  function SampleB(ins: seq<Input>, c: int): int {
    if 0 <= c < |ins| then ins[c].dataB else 0
  }

  lemma Shift(before: seq<Input>, i: Input)
    ensures After(before + [i]).a == After(before).a[1..] + [i.dataA]
    ensures After(before + [i]).b == After(before).b[1..] + [i.dataB]
  {
    hide NextFsm, NextScalers, PpsWords, Tr, Tr1, Tr2;
    Unroll(before, i);
  }

  lemma ShiftAt(before: seq<Input>, i: Input, k: nat)
    requires k < DEPTH
    ensures After(before + [i]).a[k] == if k + 1 < DEPTH then After(before).a[k + 1] else i.dataA
    ensures After(before + [i]).b[k] == if k + 1 < DEPTH then After(before).b[k + 1] else i.dataB
  {
    hide After;
    Shift(before, i);
  }

  lemma SampleStable(before: seq<Input>, i: Input, c: int)
    requires c < |before|
    ensures SampleA(before + [i], c) == SampleA(before, c)
    ensures SampleB(before + [i], c) == SampleB(before, c)
  {
  }

  lemma SampleNow(before: seq<Input>, i: Input)
    ensures SampleA(before + [i], |before|) == i.dataA
    ensures SampleB(before + [i], |before|) == i.dataB
  {
  }

  lemma EmptyLine(k: nat)
    requires k < DEPTH
    ensures After([]).a[k] == After([]).b[k] == 0
    ensures SampleA([], k - DEPTH) == SampleB([], k - DEPTH) == 0
  {
    assert After([]) == RESET;
    hide After;
  }

  /** Place k of the delay line holds the sample of twelve minus k cycles ago. */
  lemma {:induction false} DelayLine(ins: seq<Input>, k: nat)
    requires k < DEPTH
    ensures After(ins).a[k] == SampleA(ins, |ins| - DEPTH + k)
    ensures After(ins).b[k] == SampleB(ins, |ins| - DEPTH + k)
  {
    hide After, SampleA, SampleB;
    if ins == [] {
      EmptyLine(k);
    } else {
      var before, i := ins[..|ins|-1], ins[|ins|-1];
      assert ins == before + [i];
      ShiftAt(before, i, k);
      if k + 1 < DEPTH {
        DelayLine(before, k + 1);
        SampleStable(before, i, |ins| - DEPTH + k);
      } else {
        SampleNow(before, i);
      }
    }
  }

  /** The detectors, read off the samples of the cycles before i. */
  predicate CrossedA(ins: seq<Input>, i: Input) {
    var n := |ins|;
    Crossing(SampleA(ins, n - 11), SampleA(ins, n - 10), SampleA(ins, n - 9), i.trigA)
  }

  predicate CrossedB(ins: seq<Input>, i: Input) {
    var n := |ins|;
    Crossing(SampleB(ins, n - 11), SampleB(ins, n - 10), SampleB(ins, n - 9), i.trigB)
  }

  predicate PeakedA(ins: seq<Input>, i: Input) {
    var n := |ins|;
    Peak(SampleA(ins, n - 11), SampleA(ins, n - 10), SampleA(ins, n - 9), SampleA(ins, n - 8), i.subA, i.trigA)
  }

  predicate PeakedB(ins: seq<Input>, i: Input) {
    var n := |ins|;
    Peak(SampleB(ins, n - 11), SampleB(ins, n - 10), SampleB(ins, n - 9), SampleB(ins, n - 8), i.subB, i.trigB)
  }

  predicate PulseAt(ins: seq<Input>, i: Input) {
    CrossedA(ins, i) || CrossedB(ins, i)
  }

  predicate SubPulseAt(ins: seq<Input>, i: Input) {
    PeakedA(ins, i) || PeakedB(ins, i)
  }

  /** A trigger: the channel was below its level eleven and ten cycles ago, and not nine
      cycles ago. */
  lemma PulseSeen(ins: seq<Input>, i: Input)
    ensures Tr1(After(ins), i) <==> CrossedA(ins, i)
    ensures Tr2(After(ins), i) <==> CrossedB(ins, i)
    ensures Tr(After(ins), i) <==> PulseAt(ins, i)
    ensures var n := |ins|;
            Tr1(After(ins), i) <==> && SampleA(ins, n - 11) < i.trigA && SampleA(ins, n - 10) < i.trigA
                                    && SampleA(ins, n - 9) >= i.trigA
    ensures var n := |ins|;
            Tr2(After(ins), i) <==> && SampleB(ins, n - 11) < i.trigB && SampleB(ins, n - 10) < i.trigB
                                    && SampleB(ins, n - 9) >= i.trigB
  {
    DelayLine(ins, 1);
    DelayLine(ins, 2);
    DelayLine(ins, 3);
    hide After, SampleA, SampleB;
  }

  /** A sub-trigger: the sample of ten cycles ago reaches the sub-level and exceeds its
      neighbours, the later one possibly only after a plateau of two; it and the two
      samples after it stay below the trigger level. */
  lemma SubPulseSeen(ins: seq<Input>, i: Input)
    ensures SubTr1(After(ins), i) <==> PeakedA(ins, i)
    ensures SubTr2(After(ins), i) <==> PeakedB(ins, i)
    ensures SubTr(After(ins), i) <==> SubPulseAt(ins, i)
    ensures var n := |ins|;
            var s0, s1, s2, s3 := SampleA(ins, n - 11), SampleA(ins, n - 10), SampleA(ins, n - 9), SampleA(ins, n - 8);
            SubTr1(After(ins), i) <==> && i.subA <= s1 && s0 < s1 && (s2 < s1 || (s2 == s1 && s3 < s1))
                                       && s1 < i.trigA && s2 < i.trigA && s3 < i.trigA
    ensures var n := |ins|;
            var s0, s1, s2, s3 := SampleB(ins, n - 11), SampleB(ins, n - 10), SampleB(ins, n - 9), SampleB(ins, n - 8);
            SubTr2(After(ins), i) <==> && i.subB <= s1 && s0 < s1 && (s2 < s1 || (s2 == s1 && s3 < s1))
                                       && s1 < i.trigB && s2 < i.trigB && s3 < i.trigB
  {
    DelayLine(ins, 1);
    DelayLine(ins, 2);
    DelayLine(ins, 3);
    DelayLine(ins, 4);
    hide After, SampleA, SampleB;
  }

  // -------------------------------------------------------------------- schedule

  datatype Kind = Pps | Trigger | Scaler

  /** A record and the cycle in which the emitter left idle for it. */
  datatype Record = Record(kind: Kind, at: nat)

  function Words(kind: Kind): nat {
    match kind
    case Pps => METADATA
    case Trigger => DEPTH + 2
    case Scaler => SUBTRIG
  }

  /** The emitter is idle again two cycles after the last word was loaded. */
  function Until(r: Record): nat {
    r.at + Words(r.kind) + 2
  }

  predicate Free(s: seq<Record>, cycle: nat) {
    s == [] || Until(s[|s|-1]) <= cycle
  }

  /** Which record the requests of a cycle call for: PPS first, then trigger, then
      sub-trigger. */
  function Wanted(pps: bool, tr: bool, sub: bool, cycle: nat): seq<Record> {
    if pps then [Record(Pps, cycle)]
    else if tr then [Record(Trigger, cycle)]
    else if sub then [Record(Scaler, cycle)] else []
  }

  /** All records so far: one starts in every cycle that wants one while none runs. */
  function Schedule(ins: seq<Input>): seq<Record> {
    if ins == [] then []
    else
      var before, i := ins[..|ins|-1], ins[|ins|-1];
      var s := Schedule(before);
      if Free(s, |before|)
      then s + Wanted(i.pps, PulseAt(before, i), SubPulseAt(before, i), |before|) else s
  }

  /** What the emitter loads as word j of a record. */
  function Loaded(regs: Registers, kind: Kind, j: nat): nat
    requires Shaped(regs)
  {
    match kind
    case Pps => At(regs.pps, j)
    case Trigger =>
      if j < DEPTH then AdcWord(regs.a[0], regs.b[0])
      else if j == DEPTH then regs.trStatus else regs.cntStatus
    case Scaler => At(regs.scalers, j)
  }

  /** Word j of a record: loaded one cycle before it is shown. */
  function WordOf(ins: seq<Input>, r: Record, j: nat): nat
    requires r.at + 1 + j < |ins|
  {
    Loaded(After(ins[..r.at + 1 + j]), r.kind, j)
  }

  /** How many words of r were transferred before cycle n. */
  function Count(r: Record, n: nat): nat {
    if n < r.at + 2 then 0 else if Until(r) <= n then Words(r.kind) else n - r.at - 2
  }

  function RecordWords(ins: seq<Input>, r: Record): seq<nat> {
    seq(Count(r, |ins|), j requires 0 <= j < Count(r, |ins|) => WordOf(ins, r, j))
  }

  function Concat(recs: seq<seq<nat>>): seq<nat> {
    if recs == [] then [] else Concat(recs[..|recs|-1]) + recs[|recs|-1]
  }

  function Records(ins: seq<Input>, s: seq<Record>): seq<seq<nat>> {
    seq(|s|, k requires 0 <= k < |s| => RecordWords(ins, s[k]))
  }

  /** The emitter d cycles into a record. */
  predicate Running(f: Fsm, kind: Kind, d: nat) {
    && 1 <= d < Words(kind) + 2 && f.tvalid == (2 <= d)
    && (2 <= d ==> f.tready == (kind == Trigger && d <= DEPTH + 1))
    && match kind
       case Pps => f.state == SendPps && f.wr == d - 1
       case Scaler => f.state == SendScalers && f.wr == d - 1
       case Trigger =>
         if d <= DEPTH + 1 then f.state == SendData && f.wr == d - 1
         else f.wr == 0 && f.state == if d == DEPTH + 2 then SendTrStatus else SendCntStatus
  }

  predicate Resting(f: Fsm) {
    f.state == Idle && f.wr == 0 && !f.tvalid
  }

  lemma RunningStep(regs: Registers, i: Input, kind: Kind, d: nat)
    requires Shaped(regs) && i.tready && Running(regs.fsm, kind, d)
    ensures var f := NextFsm(regs, i);
            if d + 1 == Words(kind) + 2 then Resting(f) && f.tready
            else Running(f, kind, d + 1) && f.data == Loaded(regs, kind, d - 1)
  {
  }

  lemma RestingStep(regs: Registers, i: Input, cycle: nat)
    requires Shaped(regs) && Resting(regs.fsm)
    ensures var f, w := NextFsm(regs, i), Wanted(i.pps, Tr(regs, i), SubTr(regs, i), cycle);
            && f.tready == regs.fsm.tready
            && if w == [] then Resting(f) else Running(f, w[0].kind, 1)
  {
  }

  /** The emitter state that the schedule predicts. */
  ghost predicate OnSchedule(ins: seq<Input>) {
    var s, f, n := Schedule(ins), After(ins).fsm, |ins|;
    if Free(s, n) then Resting(f) && (f.tready <==> s != [])
    else
      var r := s[|s|-1];
      && r.at < n && Running(f, r.kind, n - r.at)
      && (n == r.at + 1 ==> (f.tready <==> |s| > 1))
      && (r.at + 2 <= n ==> f.data == WordOf(ins, r, n - r.at - 2))
  }

  lemma WordStable(ins: seq<Input>, i: Input, r: Record, j: nat)
    requires r.at + 1 + j < |ins|
    ensures WordOf(ins + [i], r, j) == WordOf(ins, r, j)
  {
    assert (ins + [i])[..r.at + 1 + j] == ins[..r.at + 1 + j];
  }

  lemma ScheduleUnroll(before: seq<Input>, i: Input)
    ensures var s := Schedule(before);
            Schedule(before + [i]) ==
            if Free(s, |before|)
            then s + Wanted(i.pps, PulseAt(before, i), SubPulseAt(before, i), |before|) else s
  {
    assert (before + [i])[..|before|] == before;
  }

  lemma ScheduleStep(before: seq<Input>, i: Input)
    requires i.tready && OnSchedule(before)
    ensures OnSchedule(before + [i])
  {
    var s, n, regs := Schedule(before), |before|, After(before);
    var ins := before + [i];
    Unroll(before, i);
    PulseSeen(before, i);
    SubPulseSeen(before, i);
    ScheduleUnroll(before, i);
    hide After, Schedule, PulseAt, SubPulseAt, Tr, SubTr, NextFsm, Loaded, Running;
    if Free(s, n) {
      RestingStep(regs, i, n);
    } else {
      var r := s[|s|-1];
      RunningStep(regs, i, r.kind, n - r.at);
      assert ins[..n] == before;
    }
  }

  lemma {:induction false} RunOnSchedule(ins: seq<Input>)
    requires Legal(ins)
    ensures OnSchedule(ins)
  {
    if ins == [] {
    } else {
      var before, i := ins[..|ins|-1], ins[|ins|-1];
      assert ins == before + [i];
      RunOnSchedule(before);
      ScheduleStep(before, i);
    }
  }

  /** The ready output to the source: high between records once there was one, and while
      the samples of a trigger record are sent; low during every other word. */
  lemma ReadyOutput(ins: seq<Input>)
    requires Legal(ins)
    ensures var s, n := Schedule(ins), |ins|;
            After(ins).fsm.tready <==>
              if Free(s, n) then s != []
              else if n == s[|s|-1].at + 1 then |s| > 1
              else s[|s|-1].kind == Trigger && n <= s[|s|-1].at + DEPTH + 1
  {
    RunOnSchedule(ins);
    hide Schedule, After, WordOf;
  }

  // ------------------------------------------------------------ emitted records

  lemma ConcatSnoc(recs: seq<seq<nat>>, x: seq<nat>)
    ensures Concat(recs + [x]) == Concat(recs) + x
  {
    assert (recs + [x])[..|recs|] == recs;
  }

  /** Only the last record can still be growing. */
  ghost predicate Spaced(s: seq<Record>, n: nat) {
    && (forall k :: 0 <= k < |s| ==> s[k].at < n)
    && forall k, l :: 0 <= k < l < |s| ==> Until(s[k]) <= s[l].at
  }

  lemma SpacedSnoc(s: seq<Record>, r: Record)
    requires Spaced(s, r.at) && Free(s, r.at)
    ensures Spaced(s + [r], r.at + 1)
  {
  }

  lemma SpacedLater(s: seq<Record>, n: nat)
    requires Spaced(s, n)
    ensures Spaced(s, n + 1)
  {
  }

  lemma WantedOne(pps: bool, tr: bool, sub: bool, cycle: nat)
    ensures var w := Wanted(pps, tr, sub, cycle);
            w == [] || (w == [w[0]] && w[0].at == cycle)
  {
  }

  lemma {:induction false} ScheduleSpaced(ins: seq<Input>)
    ensures Spaced(Schedule(ins), |ins|)
  {
    if ins == [] {
    } else {
      hide PulseAt, SubPulseAt, Schedule, Spaced, Free, Wanted;
      var before, i := ins[..|ins|-1], ins[|ins|-1];
      assert ins == before + [i];
      ScheduleSpaced(before);
      ScheduleUnroll(before, i);
      var w := Wanted(i.pps, PulseAt(before, i), SubPulseAt(before, i), |before|);
      WantedOne(i.pps, PulseAt(before, i), SubPulseAt(before, i), |before|);
      if Free(Schedule(before), |before|) && w != [] {
        SpacedSnoc(Schedule(before), w[0]);
      } else {
        assert Schedule(before) + [] == Schedule(before);
        SpacedLater(Schedule(before), |before|);
      }
    }
  }

  lemma RecordGrows(before: seq<Input>, i: Input, r: Record)
    requires r.at < |before|
    ensures RecordWords(before + [i], r) == RecordWords(before, r) +
            if r.at + 2 <= |before| < Until(r) then [WordOf(before + [i], r, |before| - r.at - 2)] else []
  {
    var ins := before + [i];
    forall j | 0 <= j < Count(r, |before|)
      ensures WordOf(ins, r, j) == WordOf(before, r, j)
    {
      WordStable(before, i, r, j);
    }
    hide WordOf;
  }

  /** One more cycle, no new record: every record but the last stays as it is. */
  lemma RecordsGrow(before: seq<Input>, i: Input)
    requires OnSchedule(before) && Spaced(Schedule(before), |before|)
    ensures var s, f := Schedule(before), After(before).fsm;
            Concat(Records(before + [i], s)) == Concat(Records(before, s)) + if f.tvalid then [f.data] else []
  {
    hide *;
    var s, ins := Schedule(before), before + [i];
    if s != [] {
      var done, r := s[..|s|-1], s[|s|-1];
      assert s == done + [r];
      SpacedDone(s, |before|);
      DoneRecords(before, i, done);
      RecordGrows(before, i, r);
      RecordsSnoc(ins, done, r);
      RecordsSnoc(before, done, r);
      LastWord(before, i);
    } else {
      NoRecords(before, i);
    }
  }

  lemma SpacedDone(s: seq<Record>, n: nat)
    requires Spaced(s, n) && s != []
    ensures s[|s|-1].at < n
    ensures forall k :: 0 <= k < |s| - 1 ==> s[k].at < n && Until(s[k]) <= n
  {
  }

  lemma NoRecords(before: seq<Input>, i: Input)
    requires OnSchedule(before) && Schedule(before) == []
    ensures !After(before).fsm.tvalid
    ensures Records(before + [i], []) == Records(before, []) && Concat(Records(before, [])) == []
  {
  }

  lemma RecordsSnoc(ins: seq<Input>, s: seq<Record>, r: Record)
    ensures Concat(Records(ins, s + [r])) == Concat(Records(ins, s)) + RecordWords(ins, r)
  {
    hide RecordWords;
    assert Records(ins, s + [r]) == Records(ins, s) + [RecordWords(ins, r)];
    ConcatSnoc(Records(ins, s), RecordWords(ins, r));
  }

  /** What the port shows is the word by which the last record grows. */
  lemma LastWord(before: seq<Input>, i: Input)
    requires OnSchedule(before) && Schedule(before) != []
    ensures var s, f, n := Schedule(before), After(before).fsm, |before|;
            var r := s[|s|-1];
            && (f.tvalid <==> r.at + 2 <= n < Until(r))
            && (f.tvalid ==> f.data == WordOf(before + [i], r, n - r.at - 2))
  {
    hide After, Schedule, WordOf;
    var s, n := Schedule(before), |before|;
    var r := s[|s|-1];
    if r.at + 2 <= n < Until(r) {
      WordStable(before, i, r, n - r.at - 2);
    }
  }

  lemma DoneRecords(before: seq<Input>, i: Input, done: seq<Record>)
    requires forall k :: 0 <= k < |done| ==> done[k].at < |before| && Until(done[k]) <= |before|
    ensures Records(before + [i], done) == Records(before, done)
  {
    forall k | 0 <= k < |done|
      ensures RecordWords(before + [i], done[k]) == RecordWords(before, done[k])
    {
      RecordGrows(before, i, done[k]);
    }
    hide RecordWords;
  }

  /** The emitter refines the scheduler: the transferred words are the words of the
      scheduled records, one record after the other. */
  lemma {:induction false} EmittedIsRecords(ins: seq<Input>)
    requires Legal(ins)
    ensures Emitted(ins) == Concat(Records(ins, Schedule(ins)))
  {
    if ins == [] {
    } else {
      var before, i := ins[..|ins|-1], ins[|ins|-1];
      assert ins == before + [i];
      EmittedIsRecords(before);
      RunOnSchedule(before);
      ScheduleSpaced(before);
      Unroll(before, i);
      assert i.tready;
      NewRecord(before, i);
      hide *;
      RecordsGrow(before, i);
      var f := After(before).fsm;
      assert Emitted(before) + (if f.tvalid then [f.data] else []) == Emitted(ins);
    }
  }

  /** A record that has just started has no words yet. */
  lemma NewRecord(before: seq<Input>, i: Input)
    ensures var ins := before + [i];
            Concat(Records(ins, Schedule(ins))) == Concat(Records(ins, Schedule(before)))
  {
    var ins, s := before + [i], Schedule(before);
    ScheduleUnroll(before, i);
    hide Schedule, PulseAt, SubPulseAt, Concat, Records;
    if Schedule(ins) != s {
      var r := Schedule(ins)[|s|];
      assert Schedule(ins) == s + [r] && r.at == |before|;
      RecordsSnoc(ins, s, r);
    }
  }

  // -------------------------------------------------------------------- counting

  /** How many trigger pulses a history holds. */
  function Pulses(ins: seq<Input>): nat {
    if ins == [] then 0
    else Pulses(ins[..|ins|-1]) + if PulseAt(ins[..|ins|-1], ins[|ins|-1]) then 1 else 0
  }

  /** The trigger counter and its latched word once n pulses have been seen. */
  predicate Counted(r: Registers, n: nat) {
    r.trigCnt == n % TWO32 && r.cntStatus == if n == 0 then 0 else CountWord(n - 1)
  }

  lemma CounterStep(r: Registers, i: Input, n: nat)
    requires Shaped(r) && Counted(r, n)
    ensures Counted(Next(r, i), n + if Tr(r, i) then 1 else 0)
  {
    WrappedCount(n);
    hide Tr, Tr1, Tr2, NextFsm, NextScalers, PpsWords, StatusWord, CountWord;
  }

  lemma {:induction false} RunCounted(ins: seq<Input>)
    ensures Counted(After(ins), Pulses(ins))
  {
    if ins == [] {
      assert 0 % TWO32 == 0;
    } else {
      var before, i := ins[..|ins|-1], ins[|ins|-1];
      assert Pulses(ins) == Pulses(before) + if PulseAt(before, i) then 1 else 0;
      assert ins == before + [i];
      RunCounted(before);
      Unroll(before, i);
      PulseSeen(before, i);
      CounterStep(After(before), i, Pulses(before));
      hide *;
    }
  }

  /** Missed-trigger accounting: at every cycle after the first trigger the counter word
      is the number of pulses in earlier cycles minus one, modulo 2^30. */
  lemma CounterWord(ins: seq<Input>)
    ensures After(ins).trigCnt == Pulses(ins) % 0x1_0000_0000
    ensures After(ins).cntStatus == if Pulses(ins) == 0 then 0 else CountWord(Pulses(ins) - 1)
    ensures Pulses(ins) > 0 ==> After(ins).cntStatus == 0x8000_0000 + (Pulses(ins) - 1) % 0x4000_0000
  {
    RunCounted(ins);
    hide After, Pulses;
  }

  lemma WrappedCount(n: nat)
    ensures CountWord(n % TWO32) == CountWord(n)
    ensures (n % TWO32 + 1) % TWO32 == (n + 1) % TWO32
  {
    LowThirty(n);
    CountOn(n);
  }

  lemma LowThirty(n: nat)
    ensures (n % 0x1_0000_0000) % 0x4000_0000 == n % 0x4000_0000
  {
    var q, r := n / 0x1_0000_0000, n % 0x1_0000_0000;
    assert n == 0x4000_0000 * (4 * q) + r;
    AddThirty(4 * q, r);
  }

  lemma AddThirty(k: nat, r: nat)
    ensures (0x4000_0000 * k + r) % 0x4000_0000 == r % 0x4000_0000
  {
  }

  lemma CountOn(n: nat)
    ensures (n % 0x1_0000_0000 + 1) % 0x1_0000_0000 == (n + 1) % 0x1_0000_0000
  {
    var q, r := n / 0x1_0000_0000, n % 0x1_0000_0000;
    assert n + 1 == 0x1_0000_0000 * q + (r + 1);
  }

  lemma PulsesStep(ins: seq<Input>, c: nat)
    requires c < |ins|
    ensures Pulses(ins[..c + 1]) == Pulses(ins[..c]) + if PulseAt(ins[..c], ins[c]) then 1 else 0
  {
    assert ins[..c + 1][..c] == ins[..c];
  }

  /** How many cycles from lo up to, but not including, hi carry a trigger pulse. */
  function PulsesIn(ins: seq<Input>, lo: nat, hi: nat): nat
    requires lo <= hi <= |ins|
  {
    if lo == hi then 0
    else PulsesIn(ins, lo, hi - 1) + if PulseAt(ins[..hi - 1], ins[hi - 1]) then 1 else 0
  }

  lemma {:induction false} PulsesInBetween(ins: seq<Input>, lo: nat, hi: nat)
    requires lo <= hi <= |ins|
    ensures Pulses(ins[..hi]) == Pulses(ins[..lo]) + PulsesIn(ins, lo, hi)
    decreases hi
  {
    hide PulseAt;
    if lo == hi {
    } else {
      PulsesInBetween(ins, lo, hi - 1);
      PulsesStep(ins, hi - 1);
    }
  }

  lemma PulsesInSplit(ins: seq<Input>, lo: nat, mid: nat, hi: nat)
    requires lo <= mid <= hi <= |ins|
    ensures PulsesIn(ins, lo, hi) == PulsesIn(ins, lo, mid) + PulsesIn(ins, mid, hi)
  {
    PulsesInBetween(ins, lo, hi);
    PulsesInBetween(ins, lo, mid);
    PulsesInBetween(ins, mid, hi);
  }

  // --------------------------------------------------------------- record causes

  /** Why a record started: its cycle asked for it, and no stronger request was there. */
  predicate Caused(ins: seq<Input>, r: Record)
    requires r.at < |ins|
  {
    var h, i := ins[..r.at], ins[r.at];
    match r.kind
    case Pps => i.pps
    case Trigger => !i.pps && PulseAt(h, i)
    case Scaler => !i.pps && !PulseAt(h, i) && SubPulseAt(h, i)
  }

  lemma CausedStable(before: seq<Input>, i: Input, r: Record)
    requires r.at < |before| && Caused(before, r)
    ensures Caused(before + [i], r)
  {
    hide PulseAt, SubPulseAt;
    assert (before + [i])[..r.at] == before[..r.at];
  }

  lemma WantedCaused(before: seq<Input>, i: Input)
    ensures var w := Wanted(i.pps, PulseAt(before, i), SubPulseAt(before, i), |before|);
            w == [] || (w == [w[0]] && w[0].at == |before| && Caused(before + [i], w[0]))
  {
    hide PulseAt, SubPulseAt;
    assert (before + [i])[..|before|] == before;
  }

  lemma {:induction false} ScheduledCaused(ins: seq<Input>)
    ensures forall k :: 0 <= k < |Schedule(ins)| ==> Schedule(ins)[k].at < |ins| && Caused(ins, Schedule(ins)[k])
  {
    if ins == [] {
      assert Schedule(ins) == [];
    } else {
      hide Schedule, Caused, Wanted, Free, PulseAt, SubPulseAt;
      var before, i := ins[..|ins|-1], ins[|ins|-1];
      assert ins == before + [i];
      ScheduledCaused(before);
      ScheduleUnroll(before, i);
      WantedCaused(before, i);
      forall k | 0 <= k < |Schedule(before)|
        ensures Caused(ins, Schedule(before)[k])
      {
        CausedStable(before, i, Schedule(before)[k]);
      }
    }
  }

  // ------------------------------------------------------------------------ tags

  predicate PpsSeen(ins: seq<Input>) {
    exists k :: 0 <= k < |ins| && ins[k].pps
  }

  predicate SubSeen(ins: seq<Input>) {
    ins != [] && (SubSeen(ins[..|ins|-1]) || SubPulseAt(ins[..|ins|-1], ins[|ins|-1]))
  }

  /** The tags in the latches once a trigger, a PPS, a sub-trigger has been seen. */
  ghost predicate TaggedLatches(r: Registers, tr: bool, pps: bool, sub: bool)
    requires Shaped(r)
  {
    && (tr ==> Tag(r.trStatus) == 1)
    && (pps ==> forall j :: 0 <= j < METADATA ==> Tag(r.pps[j]) == 3)
    && Tag(r.scalers[0]) == Tag(r.scalers[1]) == 0
    && (sub ==> Tag(r.scalers[2]) == 1)
  }

  ghost predicate Tagged(ins: seq<Input>) {
    TaggedLatches(After(ins), Pulses(ins) > 0, PpsSeen(ins), SubSeen(ins))
  }

  lemma PpsTags(i: Input)
    requires i.clkCnt < 0x800_0000
    ensures forall j :: 0 <= j < METADATA ==> Tag(PpsWords(i)[j]) == 3
  {
  }

  lemma WordTags(x: int, y: int, first: bool, second: bool, clk: nat, n: nat)
    requires clk < 0x800_0000
    ensures Tag(AdcWord(x, y)) == 0 && Tag(PairWord(x, y)) == 0
    ensures Tag(StatusWord(first, second, clk)) == 1
    ensures Tag(CountWord(n)) == 2
  {
  }

  lemma PpsSeenStep(before: seq<Input>, i: Input)
    ensures PpsSeen(before + [i]) <==> PpsSeen(before) || i.pps
  {
    var ins := before + [i];
    if i.pps {
      assert ins[|before|].pps;
    }
    if k :| 0 <= k < |before| && before[k].pps {
      assert ins[k].pps;
    }
  }

  lemma TaggedStep(r: Registers, i: Input, tr: bool, pps: bool, sub: bool)
    requires Shaped(r) && i.clkCnt < 0x800_0000 && TaggedLatches(r, tr, pps, sub)
    ensures TaggedLatches(Next(r, i), tr || Tr(r, i), pps || i.pps, sub || SubTr(r, i))
  {
    PpsTags(i);
    WordTags(r.a[2], r.b[2], Tr1(r, i), Tr2(r, i), i.clkCnt, 0);
    WordTags(r.charge1, r.charge2, SubTr1(r, i), SubTr2(r, i), i.clkCnt, 0);
    hide Tr, SubTr, Tr1, Tr2, SubTr1, SubTr2, NextFsm, PpsWords, PairWord, StatusWord, CountWord, Tag;
  }

  lemma {:induction false} RunTagged(ins: seq<Input>)
    requires Legal(ins)
    ensures Tagged(ins)
  {
    if ins != [] {
      var before, i := ins[..|ins|-1], ins[|ins|-1];
      assert ins == before + [i];
      RunTagged(before);
      Unroll(before, i);
      PulseSeen(before, i);
      SubPulseSeen(before, i);
      PpsSeenStep(before, i);
      hide After, Next, PulseAt, SubPulseAt, PpsSeen, Tr, SubTr, TaggedLatches;
      TaggedStep(After(before), i, Pulses(before) > 0, PpsSeen(before), SubSeen(before));
    } else {
      hide PulseAt, SubPulseAt;
    }
  }

  // --------------------------------------------------------------------- grammar

  /** The tag that word j of a record carries. */
  function ExpectedTag(kind: Kind, j: nat): nat {
    match kind
    case Pps => 3
    case Trigger => if j < DEPTH then 0 else if j == DEPTH then 1 else 2
    case Scaler => if j < SUBTRIG - 1 then 0 else 1
  }

  predicate WellFormed(kind: Kind, ws: seq<nat>) {
    |ws| == Words(kind) && forall j :: 0 <= j < |ws| ==> Tag(ws[j]) == ExpectedTag(kind, j)
  }

  /** Which record starts a word stream, told from the tags of its first three words. */
  function KindOf(ws: seq<nat>): Kind
    requires ws != []
  {
    if Tag(ws[0]) == 3 then Pps
    else if 3 <= |ws| && Tag(ws[2]) == 1 then Scaler else Trigger
  }

  /** Split a word stream into whole records. */
  function Parse(ws: seq<nat>): Option<seq<seq<nat>>> {
    if ws == [] then Some([])
    else
      var n := Words(KindOf(ws));
      if |ws| < n then None
      else
        match Parse(ws[n..])
        case None => None
        case Some(rest) => Some([ws[..n]] + rest)
  }

  lemma {:induction false} ConcatCons(x: seq<nat>, recs: seq<seq<nat>>)
    ensures Concat([x] + recs) == x + Concat(recs)
  {
    if recs == [] {
      assert [x] + recs == [] + [x];
      ConcatSnoc([], x);
    } else {
      var front, last := recs[..|recs|-1], recs[|recs|-1];
      assert [x] + recs == ([x] + front) + [last] && recs == front + [last];
      ConcatSnoc([x] + front, last);
      ConcatSnoc(front, last);
      ConcatCons(x, front);
    }
  }

  /** Whole records of the three kinds parse back uniquely, whatever their payloads. */
  lemma {:induction false} ParseInvertsConcat(kinds: seq<Kind>, recs: seq<seq<nat>>)
    requires |kinds| == |recs|
    requires forall k :: 0 <= k < |recs| ==> WellFormed(kinds[k], recs[k])
    ensures Parse(Concat(recs)) == Some(recs)
  {
    if recs == [] {
    } else {
      var x, rest := recs[0], recs[1..];
      assert recs == [x] + rest;
      ConcatCons(x, rest);
      ParseInvertsConcat(kinds[1..], rest);
      var ws := Concat(recs);
      assert WellFormed(kinds[0], x);
      assert forall j :: 0 <= j < |x| ==> ws[j] == x[j];
      assert KindOf(ws) == kinds[0];
      assert ws[|x|..] == Concat(rest) && ws[..|x|] == x;
    }
  }

  lemma RecordTags(ins: seq<Input>, k: nat, j: nat)
    requires Legal(ins) && k < |Schedule(ins)|
    requires var r := Schedule(ins)[k]; j < Words(r.kind) && r.at + 1 + j < |ins|
    ensures Tag(WordOf(ins, Schedule(ins)[k], j)) == ExpectedTag(Schedule(ins)[k].kind, j)
  {
    hide Schedule, After, PulseAt, SubPulseAt, Loaded, Tag, ExpectedTag, Tagged;
    ScheduledCaused(ins);
    var r := Schedule(ins)[k];
    var h := ins[..r.at + 1 + j];
    assert h[..r.at] == ins[..r.at] && h[r.at] == ins[r.at];
    RunTagged(h);
    LoadedTags(h, r, j);
    hide *;
  }

  lemma LoadedTags(h: seq<Input>, r: Record, j: nat)
    requires r.at < |h| && Caused(h, r) && Tagged(h) && j < Words(r.kind)
    ensures Tag(Loaded(After(h), r.kind, j)) == ExpectedTag(r.kind, j)
  {
    hide Tag, PulseAt, SubPulseAt, AdcWord, After, CountWord, Pulses, SubSeen;
    var regs := After(h);
    match r.kind
    case Pps =>
      assert h[r.at].pps;
    case Trigger =>
      PulseCounted(h, r.at);
      CounterWord(h);
      WordTags(regs.a[0], regs.b[0], true, true, 0, Pulses(h) - 1);
    case Scaler =>
      SubCounted(h, r.at);
  }

  lemma PulseCounted(h: seq<Input>, at: nat)
    requires at < |h| && PulseAt(h[..at], h[at])
    ensures Pulses(h) > 0
  {
    hide *;
    PulsesInBetween(h, at + 1, |h|);
    PulsesStep(h, at);
    assert h[..|h|] == h;
  }

  lemma {:induction false} SubCounted(h: seq<Input>, at: nat)
    requires at < |h| && SubPulseAt(h[..at], h[at])
    ensures SubSeen(h)
  {
    hide SubPulseAt;
    var n := |h| - 1;
    if at == n {
    } else {
      assert h[..n][..at] == h[..at] && h[..n][at] == h[at];
      SubCounted(h[..n], at);
    }
  }

  /** Record grammar: whenever the emitter rests, the words it has sent are whole records
      of the three shapes and split in exactly one way, into the records that the
      requests called for. */
  lemma RecordGrammar(ins: seq<Input>)
    requires Legal(ins) && Free(Schedule(ins), |ins|)
    ensures var s := Schedule(ins);
            && (forall k :: 0 <= k < |s| ==>
                  s[k].at < |ins| && Caused(ins, s[k]) && WellFormed(s[k].kind, RecordWords(ins, s[k])))
            && Parse(Emitted(ins)) == Some(Records(ins, s))
  {
    hide Schedule, RecordWords, WellFormed, Parse, Emitted, Caused, Concat, Until, Count;
    var s := Schedule(ins);
    var kinds := seq(|s|, k requires 0 <= k < |s| => s[k].kind);
    ScheduledCaused(ins);
    forall k | 0 <= k < |s|
      ensures WellFormed(s[k].kind, RecordWords(ins, s[k]))
    {
      RecordWellFormed(ins, k);
    }
    EmittedIsRecords(ins);
    ParseInvertsConcat(kinds, Records(ins, s));
  }

  lemma RecordWellFormed(ins: seq<Input>, k: nat)
    requires Legal(ins) && Free(Schedule(ins), |ins|) && k < |Schedule(ins)|
    ensures WellFormed(Schedule(ins)[k].kind, RecordWords(ins, Schedule(ins)[k]))
  {
    hide Schedule, WordOf, Tag, ExpectedTag;
    ScheduleSpaced(ins);
    var r := Schedule(ins)[k];
    assert Until(r) <= |ins|;
    forall j | 0 <= j < Words(r.kind)
      ensures Tag(WordOf(ins, r, j)) == ExpectedTag(r.kind, j)
    {
      RecordTags(ins, k, j);
    }
  }

  // ----------------------------------------------------------- trigger placement

  /** The 14-bit two's complement value of a field. */
  function Signed14(x: nat): int {
    if x < 0x2000 then x else x - 0x4000
  }

  function DecodeA(w: nat): int {
    Signed14(w % 0x4000)
  }

  function DecodeB(w: nat): int {
    Signed14(w / 0x1_0000 % 0x4000)
  }

  /** Samples are sign-extended from fourteen bits. */
  predicate SignExtended(ins: seq<Input>) {
    forall k :: 0 <= k < |ins| ==>
      -0x2000 <= ins[k].dataA < 0x2000 && -0x2000 <= ins[k].dataB < 0x2000
  }

  lemma DecodeAdcWord(a: int, b: int)
    requires -0x2000 <= a < 0x2000 && -0x2000 <= b < 0x2000
    ensures DecodeA(AdcWord(a, b)) == a && DecodeB(AdcWord(a, b)) == b
  {
    Halves(b % 0x4000, a % 0x4000);
    TwosComplement(a);
    TwosComplement(b);
  }

  lemma Halves(high: nat, low: nat)
    requires high < 0x4000 && low < 0x4000
    ensures (high * 0x1_0000 + low) % 0x4000 == low && (high * 0x1_0000 + low) / 0x1_0000 % 0x4000 == high
  {
  }

  lemma TwosComplement(x: int)
    requires -0x2000 <= x < 0x2000
    ensures Signed14(x % 0x4000) == x
  {
    assert x % 0x4000 == if x < 0 then x + 0x4000 else x;
  }

  /** The first twelve words of a trigger record are consecutive samples of the input,
      starting eleven cycles before the trigger cycle. */
  lemma TriggerSamples(ins: seq<Input>, r: Record, j: nat)
    requires r.kind == Trigger && j < DEPTH && r.at + 1 + j < |ins| && SignExtended(ins)
    ensures DecodeA(WordOf(ins, r, j)) == SampleA(ins, r.at + j - 11)
    ensures DecodeB(WordOf(ins, r, j)) == SampleB(ins, r.at + j - 11)
  {
    var h := ins[..r.at + 1 + j];
    DelayLine(h, 0);
    hide After;
    DecodeAdcWord(SampleA(ins, r.at + j - 11), SampleB(ins, r.at + j - 11));
  }

  lemma PulseSamples(ins: seq<Input>, at: nat)
    requires at < |ins| && PulseAt(ins[..at], ins[at])
    ensures var a, b := ins[at].trigA, ins[at].trigB;
            || (SampleA(ins, at - 11) < a && SampleA(ins, at - 10) < a && SampleA(ins, at - 9) >= a)
            || (SampleB(ins, at - 11) < b && SampleB(ins, at - 10) < b && SampleB(ins, at - 9) >= b)
  {
  }

  lemma TriggerRecord(ins: seq<Input>, k: nat)
    requires k < |Schedule(ins)| && Schedule(ins)[k].kind == Trigger
    ensures var r := Schedule(ins)[k]; r.at < |ins| && PulseAt(ins[..r.at], ins[r.at])
  {
    hide Schedule, PulseAt, SubPulseAt;
    ScheduledCaused(ins);
  }

  /** Trigger placement: in every trigger record some triggering channel has its first
      two words below its level and its third at or above it. */
  lemma TriggerPlacement(ins: seq<Input>, k: nat)
    requires SignExtended(ins) && k < |Schedule(ins)|
    requires var r := Schedule(ins)[k]; r.kind == Trigger && r.at + 3 < |ins|
    ensures var r := Schedule(ins)[k];
            var i := ins[r.at];
            var w0, w1, w2 := WordOf(ins, r, 0), WordOf(ins, r, 1), WordOf(ins, r, 2);
            || (DecodeA(w0) < i.trigA && DecodeA(w1) < i.trigA && DecodeA(w2) >= i.trigA)
            || (DecodeB(w0) < i.trigB && DecodeB(w1) < i.trigB && DecodeB(w2) >= i.trigB)
  {
    hide Schedule, PulseAt, SubPulseAt, WordOf, SampleA, SampleB, DecodeA, DecodeB, SignExtended;
    TriggerRecord(ins, k);
    var r := Schedule(ins)[k];
    PulseSamples(ins, r.at);
    TriggerSamples(ins, r, 0);
    TriggerSamples(ins, r, 1);
    TriggerSamples(ins, r, 2);
  }

  // ------------------------------------------------------------- missed triggers

  /** The counter word of a trigger record. */
  function CounterOf(ins: seq<Input>, r: Record): nat
    requires r.at + DEPTH + 2 < |ins|
  {
    WordOf(ins, r, DEPTH + 1) % 0x4000_0000
  }

  /** Between two trigger records with none in between, the counter words differ by one
      for the later record plus one for each trigger that got no record of its own,
      modulo 2^30. */
  lemma MissedTriggers(ins: seq<Input>, k: nat, l: nat)
    requires k < l < |Schedule(ins)|
    requires var s := Schedule(ins);
             && s[k].kind == s[l].kind == Trigger && s[l].at + DEPTH + 2 < |ins|
             && forall j :: k < j < l ==> s[j].kind != Trigger
    ensures var r, r' := Schedule(ins)[k], Schedule(ins)[l];
            && r.at + DEPTH + 2 <= r'.at
            && (CounterOf(ins, r') - CounterOf(ins, r)) % 0x4000_0000 == Since(ins, r, r') % 0x4000_0000
            && (Pulses(ins) <= 0x4000_0000 ==> CounterOf(ins, r') - CounterOf(ins, r) == Since(ins, r, r'))
  {
    hide Schedule, PulseAt, SubPulseAt, After, WordOf, CounterOf, Pulses, PulsesIn;
    var r, r' := Schedule(ins)[k], Schedule(ins)[l];
    TriggerRecord(ins, k);
    TriggerRecord(ins, l);
    TriggersApart(ins, k, l);
    CounterOfRecord(ins, r);
    CounterOfRecord(ins, r');
    var c, c' := r.at + DEPTH + 2, r'.at + DEPTH + 2;
    PulsesInBetween(ins, c, c');
    PulsesInSplit(ins, c, r'.at, c');
    PulsesInSplit(ins, r'.at, r'.at + 1, c');
    OnePulse(ins, r'.at);
    WrappedDifference(Pulses(ins[..c]) - 1, Pulses(ins[..c']) - 1);
  }

  /** The triggers between the cycles that loaded the counter words of two records: one
      for the later record and those without a record. */
  function Since(ins: seq<Input>, r: Record, r': Record): nat
    requires r.at + DEPTH + 2 <= r'.at && r'.at + DEPTH + 2 < |ins|
  {
    PulsesIn(ins, r.at + DEPTH + 2, r'.at) + 1 + PulsesIn(ins, r'.at + 1, r'.at + DEPTH + 2)
  }

  lemma WrappedDifference(x: nat, y: nat)
    requires x <= y
    ensures (y % 0x4000_0000 - x % 0x4000_0000) % 0x4000_0000 == (y - x) % 0x4000_0000
  {
    var q, q' := x / 0x4000_0000, y / 0x4000_0000;
    assert y - x == 0x4000_0000 * (q' - q) + (y % 0x4000_0000 - x % 0x4000_0000);
    DropTurns(q' - q, y % 0x4000_0000 - x % 0x4000_0000);
  }

  lemma DropTurns(q: int, z: int)
    ensures (0x4000_0000 * q + z) % 0x4000_0000 == z % 0x4000_0000
  {
  }

  lemma OnePulse(ins: seq<Input>, c: nat)
    requires c < |ins| && PulseAt(ins[..c], ins[c])
    ensures PulsesIn(ins, c, c + 1) == 1
  {
    assert PulsesIn(ins, c, c) == 0;
  }

  lemma TriggersApart(ins: seq<Input>, k: nat, l: nat)
    requires k < l < |Schedule(ins)| && Schedule(ins)[k].kind == Trigger
    ensures Schedule(ins)[k].at + DEPTH + 4 <= Schedule(ins)[l].at
  {
    hide Schedule;
    ScheduleSpaced(ins);
    assert Until(Schedule(ins)[k]) <= Schedule(ins)[l].at;
  }

  lemma CounterIsStatus(ins: seq<Input>, r: Record)
    requires r.kind == Trigger && r.at + DEPTH + 2 < |ins|
    ensures CounterOf(ins, r) == After(ins[..r.at + DEPTH + 2]).cntStatus % 0x4000_0000
  {
    hide After, AdcWord;
  }

  lemma CounterOfRecord(ins: seq<Input>, r: Record)
    requires r.kind == Trigger && r.at + DEPTH + 2 < |ins| && PulseAt(ins[..r.at], ins[r.at])
    ensures 0 < Pulses(ins[..r.at + DEPTH + 2]) <= Pulses(ins)
    ensures CounterOf(ins, r) == (Pulses(ins[..r.at + DEPTH + 2]) - 1) % 0x4000_0000
  {
    hide PulseAt, SubPulseAt, After, WordOf, CounterOf, Pulses, CountWord;
    var n := r.at + DEPTH + 2;
    var h := ins[..n];
    assert h[..r.at] == ins[..r.at] && h[r.at] == ins[r.at];
    CounterIsStatus(ins, r);
    PulseCounted(h, r.at);
    CounterWord(h);
    PulsesInBetween(ins, n, |ins|);
    assert ins[..|ins|] == ins;
    CountWordLow(Pulses(h) - 1);
  }

  lemma CountWordLow(n: nat)
    ensures CountWord(n) % 0x4000_0000 == n % 0x4000_0000
  {
    AddThirty(2, n % 0x4000_0000);
  }

  // ------------------------------------------------------------- latched contents

  /** A cycle asks for a record of a kind. */
  predicate Asks(ins: seq<Input>, kind: Kind, k: nat)
    requires k < |ins|
  {
    match kind
    case Pps => ins[k].pps
    case Trigger => PulseAt(ins[..k], ins[k])
    case Scaler => SubPulseAt(ins[..k], ins[k])
  }

  /** The last cycle before n that asked for a record of a kind; -1 when none did. */
  function Last(ins: seq<Input>, kind: Kind, n: nat): (k: int)
    requires n <= |ins|
    ensures -1 <= k < n
    ensures k >= 0 ==> Asks(ins, kind, k)
    ensures forall l :: k < l < n ==> !Asks(ins, kind, l)
  {
    if n == 0 then -1 else if Asks(ins, kind, n - 1) then n - 1 else Last(ins, kind, n - 1)
  }

  /** The status words that a trigger and a sub-trigger in cycle k latch. */
  function TriggerStatus(ins: seq<Input>, k: nat): nat
    requires k < |ins|
  {
    StatusWord(CrossedA(ins[..k], ins[k]), CrossedB(ins[..k], ins[k]), ins[k].clkCnt)
  }

  function ScalerStatus(ins: seq<Input>, k: nat): nat
    requires k < |ins|
  {
    StatusWord(PeakedA(ins[..k], ins[k]), PeakedB(ins[..k], ins[k]), ins[k].clkCnt)
  }

  /** What the latches hold once the last requests were in cycles tr, sub and pps. */
  ghost predicate Holds(ins: seq<Input>, r: Registers, tr: int, sub: int, pps: int)
    requires Shaped(r) && tr < |ins| && sub < |ins| && pps < |ins|
  {
    && (tr >= 0 ==> r.trStatus == TriggerStatus(ins, tr))
    && (sub >= 0 ==>
          && r.scalers[0] == PairWord(SampleA(ins, sub - 10), SampleB(ins, sub - 10))
          && r.scalers[1] == PairWord(11 * sub, 11 * sub)
          && r.scalers[2] == ScalerStatus(ins, sub))
    && (pps >= 0 ==> r.pps == PpsWords(ins[pps]))
  }

  /** The charge registers only count cycles, eleven at a time. */
  lemma {:induction false} ChargeCountsCycles(ins: seq<Input>)
    ensures After(ins).charge1 == After(ins).charge2 == (11 * |ins|) % 0x4000
  {
    if ins == [] {
      EmptyCharge();
      hide After;
    } else {
      hide After, Next;
      var before, i := ins[..|ins|-1], ins[|ins|-1];
      assert ins == before + [i];
      ChargeCountsCycles(before);
      Unroll(before, i);
      ChargeStep(After(before), i, |before|);
    }
  }

  lemma EmptyCharge()
    ensures After([]).charge1 == After([]).charge2 == (11 * 0) % 0x4000
  {
    assert After([]) == RESET;
    hide After;
  }

  lemma ChargeStep(r: Registers, i: Input, n: nat)
    requires Shaped(r) && r.charge1 == r.charge2 == (11 * n) % 0x4000
    ensures Next(r, i).charge1 == Next(r, i).charge2 == (11 * (n + 1)) % 0x4000
  {
    hide NextFsm, NextScalers, PpsWords, Tr, Tr1, Tr2, CountWord, StatusWord;
    CountElevens(n);
  }

  lemma CountElevens(n: nat)
    ensures ((11 * n) % 0x4000 + 11) % 0x4000 == (11 * (n + 1)) % 0x4000
  {
    var q, r := 11 * n / 0x4000, 11 * n % 0x4000;
    assert 11 * (n + 1) == 0x4000 * q + (r + 11);
  }

  /** What the next edge loads into the latches, in terms of the input samples. */
  ghost predicate Seen(ins: seq<Input>, n: nat, r: Registers)
    requires n < |ins| && Shaped(r)
  {
    && (Tr1(r, ins[n]) <==> CrossedA(ins[..n], ins[n])) && (Tr2(r, ins[n]) <==> CrossedB(ins[..n], ins[n]))
    && (SubTr1(r, ins[n]) <==> PeakedA(ins[..n], ins[n])) && (SubTr2(r, ins[n]) <==> PeakedB(ins[..n], ins[n]))
    && r.a[2] == SampleA(ins, n - 10) && r.b[2] == SampleB(ins, n - 10)
    && PairWord(r.charge1, r.charge2) == PairWord(11 * n, 11 * n)
  }

  lemma RunSeen(ins: seq<Input>, n: nat)
    requires n < |ins|
    ensures Seen(ins, n, After(ins[..n]))
  {
    PulseSeen(ins[..n], ins[n]);
    SubPulseSeen(ins[..n], ins[n]);
    DelayLine(ins[..n], 2);
    ChargeCountsCycles(ins[..n]);
    WrappedPair(11 * n);
    hide After, Tr1, Tr2, SubTr1, SubTr2, CrossedA, CrossedB, PeakedA, PeakedB, PairWord;
  }

  lemma WrappedPair(x: nat)
    ensures PairWord(x % TWO14, x % TWO14) == PairWord(x, x)
  {
  }

  lemma LatchStep(ins: seq<Input>, n: nat, r: Registers, tr: int, sub: int, pps: int)
    requires n < |ins| && Shaped(r) && tr < n && sub < n && pps < n && Holds(ins, r, tr, sub, pps)
    requires Seen(ins, n, r)
    ensures Holds(ins, Next(r, ins[n]),
                  if Asks(ins, Trigger, n) then n else tr,
                  if Asks(ins, Scaler, n) then n else sub,
                  if Asks(ins, Pps, n) then n else pps)
  {
    hide Tr1, Tr2, SubTr1, SubTr2, CrossedA, CrossedB, PeakedA, PeakedB, SampleA, SampleB,
         NextFsm, StatusWord, PairWord, PpsWords, CountWord;
  }

  lemma {:induction false} RunHolds(ins: seq<Input>, n: nat)
    requires n <= |ins|
    ensures Holds(ins, After(ins[..n]), Last(ins, Trigger, n), Last(ins, Scaler, n), Last(ins, Pps, n))
  {
    hide Asks, Next, After;
    if n == 0 {
    } else {
      RunHolds(ins, n - 1);
      hide Holds;
      RunSeen(ins, n - 1);
      var tr, sub, pps := Last(ins, Trigger, n - 1), Last(ins, Scaler, n - 1), Last(ins, Pps, n - 1);
      LatchStep(ins, n - 1, After(ins[..n - 1]), tr, sub, pps);
      assert ins[..n] == ins[..n - 1] + [ins[n - 1]];
      Unroll(ins[..n - 1], ins[n - 1]);
    }
  }

  /** The 3-bit prefix, the two channel flags and the time stamp of a status word. */
  lemma DecodeStatusWord(first: bool, second: bool, clk: nat)
    requires clk < 0x800_0000
    ensures var w := StatusWord(first, second, clk);
            && w % 0x800_0000 == clk && w / 0x2000_0000 == 2
            && (w / 0x800_0000 % 2 == 1 <==> first) && (w / 0x1000_0000 % 2 == 1 <==> second)
  {
  }

  /** The two peak samples of a scaler word. */
  lemma DecodePairWord(high: int, low: int)
    requires -0x2000 <= high < 0x2000 && -0x2000 <= low < 0x2000
    ensures Signed14(PairWord(high, low) / 0x4000) == high && Signed14(PairWord(high, low) % 0x4000) == low
  {
    TwosComplement(high);
    TwosComplement(low);
  }

  /** The counter word after a history: the pulses so far, less one. */
  function Counter(ins: seq<Input>): nat {
    if Pulses(ins) == 0 then 0 else CountWord(Pulses(ins) - 1)
  }

  /** What word j of a record says when its latched words come from cycle c. */
  function Content(ins: seq<Input>, r: Record, j: nat, c: nat): nat
    requires c < |ins| && r.at + 1 + j < |ins| && j < Words(r.kind)
  {
    match r.kind
    case Trigger =>
      if j < DEPTH then AdcWord(SampleA(ins, r.at + j - 11), SampleB(ins, r.at + j - 11))
      else if j == DEPTH then TriggerStatus(ins, c) else Counter(ins[..r.at + 1 + j])
    case Scaler =>
      if j == 0 then PairWord(SampleA(ins, c - 10), SampleB(ins, c - 10))
      else if j == 1 then PairWord(11 * c, 11 * c) else ScalerStatus(ins, c)
    case Pps => PpsWords(ins[c])[j]
  }

  /** What a record says, word by word. Its latched words describe the last request of
      its kind up to the cycle in which the word was loaded: the one the record started
      for, or a later one that came while the record was being sent. */
  lemma RecordContents(ins: seq<Input>, k: nat, j: nat)
    requires k < |Schedule(ins)|
    requires var r := Schedule(ins)[k]; j < Words(r.kind) && r.at + 1 + j < |ins|
    ensures var r := Schedule(ins)[k];
            var c := Last(ins, r.kind, r.at + 1 + j);
            r.at <= c && WordOf(ins, r, j) == Content(ins, r, j, c)
  {
    hide Schedule, WordOf, Content, Holds, Last, Asks, After;
    var r := Schedule(ins)[k];
    RecordAsked(ins, k);
    RunHolds(ins, r.at + 1 + j);
    if r.kind == Trigger && j != DEPTH {
      TriggerWords(ins, r, j);
    } else {
      LatchedWord(ins, r, j);
    }
  }

  /** The words of a PPS record: all ones, then tag 3 and a three-bit code each; code 0
      carries the time stamp, codes 1 to 3 the trigger level of channel A, and code 4 the
      level behind a place number from 0 to 4. */
  lemma PpsRecord(ins: seq<Input>, k: nat, j: nat)
    requires Legal(ins) && k < |Schedule(ins)|
    requires var r := Schedule(ins)[k]; r.kind == Pps && j < 10 && r.at + 1 + j < |ins|
    ensures var r := Schedule(ins)[k];
            var c, w := Last(ins, Pps, r.at + 1 + j), WordOf(ins, r, j);
            && r.at <= c && ins[c].pps
            && (j == 0 ==> w == 0xFFFF_FFFF)
            && (j >= 1 ==>
                  && w / 0x4000_0000 == 3
                  && w / 0x800_0000 % 8 == (if j < 5 then j - 1 else 4)
                  && w % 0x800_0000 == if j == 1 then ins[c].clkCnt
                                       else (if j < 5 then 0 else j - 5) * 0x100_0000 + ins[c].trigA % 0x1_0000)
  {
    hide Schedule, WordOf, PpsWords, Last, After;
    RecordContents(ins, k, j);
    var r := Schedule(ins)[k];
    PpsFields(ins[Last(ins, Pps, r.at + 1 + j)], j);
  }

  lemma PpsFields(i: Input, j: nat)
    requires i.clkCnt < 0x800_0000 && j < 10
    ensures var w := PpsWords(i)[j];
            && (j == 0 ==> w == 0xFFFF_FFFF)
            && (j >= 1 ==>
                  && w / 0x4000_0000 == 3
                  && w / 0x800_0000 % 8 == (if j < 5 then j - 1 else 4)
                  && w % 0x800_0000 == if j == 1 then i.clkCnt
                                       else (if j < 5 then 0 else j - 5) * 0x100_0000 + i.trigA % 0x1_0000)
  {
  }

  lemma RecordAsked(ins: seq<Input>, k: nat)
    requires k < |Schedule(ins)|
    ensures var r := Schedule(ins)[k]; r.at < |ins| && Asks(ins, r.kind, r.at)
  {
    hide Schedule, PulseAt, SubPulseAt;
    ScheduledCaused(ins);
  }

  /** The words loaded from the latches. */
  lemma LatchedWord(ins: seq<Input>, r: Record, j: nat)
    requires j < Words(r.kind) && r.at + 1 + j < |ins| && (r.kind == Trigger ==> j == DEPTH)
    requires var n := r.at + 1 + j;
             && Last(ins, r.kind, n) >= 0
             && Holds(ins, After(ins[..n]), Last(ins, Trigger, n), Last(ins, Scaler, n), Last(ins, Pps, n))
    ensures WordOf(ins, r, j) == Content(ins, r, j, Last(ins, r.kind, r.at + 1 + j))
  {
    hide After, Last, SampleA, SampleB, TriggerStatus, ScalerStatus, StatusWord, PairWord, PpsWord, AdcWord, Counter;
  }

  /** The sample and counter words of a trigger record. */
  lemma TriggerWords(ins: seq<Input>, r: Record, j: nat)
    requires r.kind == Trigger && j < DEPTH + 2 && j != DEPTH && r.at + 1 + j < |ins|
    ensures forall c :: 0 <= c < |ins| ==> WordOf(ins, r, j) == Content(ins, r, j, c)
  {
    hide After, Pulses, AdcWord, CountWord, TriggerStatus, ScalerStatus, PpsWords, PairWord;
    var h := ins[..r.at + 1 + j];
    CounterWord(h);
    DelayLine(h, 0);
  }

  /** No later request came before word j of a record was loaded. */
  predicate Undisturbed(ins: seq<Input>, r: Record, j: nat)
    requires r.at + 1 + j < |ins|
  {
    forall l :: r.at < l < r.at + 1 + j ==> !Asks(ins, r.kind, l)
  }

  /** Exactly then word j describes the request that the record started for. */
  lemma OwnRequest(ins: seq<Input>, k: nat, j: nat)
    requires k < |Schedule(ins)|
    requires var r := Schedule(ins)[k]; j < Words(r.kind) && r.at + 1 + j < |ins|
    ensures var r := Schedule(ins)[k];
            Last(ins, r.kind, r.at + 1 + j) == r.at <==> Undisturbed(ins, r, j)
  {
    hide Schedule, Asks, WordOf, Content;
    RecordContents(ins, k, j);
  }

  /** The status word of a trigger record names the record's own trigger when no other
      trigger pulse came in the twelve cycles after it, and, with time stamps that differ
      from its own in those cycles, only then. */
  lemma OwnStatus(ins: seq<Input>, k: nat)
    requires k < |Schedule(ins)|
    requires var r := Schedule(ins)[k]; r.kind == Trigger && r.at + 1 + DEPTH < |ins|
    ensures var r := Schedule(ins)[k];
            Undisturbed(ins, r, DEPTH) ==> WordOf(ins, r, DEPTH) == TriggerStatus(ins, r.at)
    ensures var r := Schedule(ins)[k];
            Legal(ins) && (forall l :: r.at < l < r.at + 1 + DEPTH ==> ins[l].clkCnt != ins[r.at].clkCnt) ==>
              (WordOf(ins, r, DEPTH) == TriggerStatus(ins, r.at) <==> Undisturbed(ins, r, DEPTH))
  {
    hide Schedule, WordOf, Undisturbed, StatusWord, AdcWord, Counter, PairWord, ScalerStatus, PpsWords;
    var r := Schedule(ins)[k];
    RecordContents(ins, k, DEPTH);
    OwnRequest(ins, k, DEPTH);
    var c := Last(ins, Trigger, r.at + 1 + DEPTH);
    if Legal(ins) {
      StampKept(CrossedA(ins[..c], ins[c]), CrossedB(ins[..c], ins[c]), ins[c].clkCnt);
      StampKept(CrossedA(ins[..r.at], ins[r.at]), CrossedB(ins[..r.at], ins[r.at]), ins[r.at].clkCnt);
    }
  }

  lemma StampKept(first: bool, second: bool, clk: nat)
    requires clk < 0x800_0000
    ensures StatusWord(first, second, clk) % 0x800_0000 == clk
  {
    DecodeStatusWord(first, second, clk);
  }

  // ------------------------------------------------------- a later trigger's status

  /** Channel A reaches level one in cycles 0 and 3, channel B never. */
  function Twice(c: nat): Input {
    Input(1, 100, 100, 100, false, c, if c == 0 || c == 3 then 1 else 0, 0, true)
  }

  function TwiceRun(n: nat): (ins: seq<Input>)
    ensures |ins| == n && forall c :: 0 <= c < n ==> ins[c] == Twice(c)
  {
    seq(n, c requires 0 <= c < n => Twice(c))
  }

  lemma TwicePulses(n: nat)
    ensures PulseAt(TwiceRun(n), Twice(n)) <==> n == 9 || n == 12
    ensures !SubPulseAt(TwiceRun(n), Twice(n))
    ensures CrossedA(TwiceRun(n), Twice(n)) <==> n == 9 || n == 12
    ensures !CrossedB(TwiceRun(n), Twice(n))
  {
  }

  lemma TwiceAsks(c: nat)
    requires c < 23
    ensures Asks(TwiceRun(23), Trigger, c) <==> c == 9 || c == 12
    ensures c == 9 || c == 12 ==> TriggerStatus(TwiceRun(23), c) == StatusWord(true, false, c)
  {
    TwicePulses(c);
    assert TwiceRun(23)[..c] == TwiceRun(c);
    hide PulseAt, CrossedA, CrossedB, TwiceRun, StatusWord;
  }

  lemma TwiceSnoc(n: nat)
    ensures TwiceRun(n + 1) == TwiceRun(n) + [Twice(n)]
  {
    hide Twice;
  }

  lemma {:induction false} TwiceSchedule(n: nat)
    requires n <= 23
    ensures Schedule(TwiceRun(n)) == if n <= 9 then [] else [Record(Trigger, 9)]
  {
    if n == 0 {
    } else {
      TwiceSchedule(n - 1);
      TwicePulses(n - 1);
      TwiceSnoc(n - 1);
      hide Schedule, PulseAt, SubPulseAt, TwiceRun;
      ScheduleUnroll(TwiceRun(n - 1), Twice(n - 1));
    }
  }

  /** A run in which a record carries another trigger's status word: the only record
      starts in cycle 9, and its status word is that of the trigger in cycle 12. */
  lemma LaterTriggerReported()
    ensures var ins := TwiceRun(23);
            && Legal(ins) && Schedule(ins) == [Record(Trigger, 9)]
            && Last(ins, Trigger, 22) == 12
            && WordOf(ins, Record(Trigger, 9), DEPTH) == StatusWord(true, false, 12)
            && TriggerStatus(ins, 9) == StatusWord(true, false, 9) != StatusWord(true, false, 12)
  {
    var ins := TwiceRun(23);
    TwiceSchedule(23);
    hide Asks, TwiceRun, Schedule, WordOf, TriggerStatus, Last;
    forall c: nat | c < 23
      ensures Asks(ins, Trigger, c) <==> c == 9 || c == 12
    {
      TwiceAsks(c);
    }
    assert Asks(ins, Trigger, 12);
    TwiceAsks(9);
    TwiceAsks(12);
    RecordContents(ins, 0, DEPTH);
  }

  // -------------------------------------------------------------------- the core

  /** The core itself; `past` is its input history since reset. */
  class Core {
    var a: seq<int>
    var b: seq<int>
    var pps: seq<nat>
    var scalers: seq<nat>
    var trStatus: nat
    var cntStatus: nat
    var trigCnt: nat
    var charge1: nat
    var charge2: nat
    var state: State
    var wr: nat
    var data: nat
    var tvalid: bool
    var tready: bool
    ghost var past: seq<Input>

    function Regs(): Registers
      reads this
    {
      Registers(a, b, pps, scalers, trStatus, cntStatus, trigCnt, charge1, charge2,
                Fsm(state, wr, data, tvalid, tready))
    }

    ghost predicate Valid()
      reads this
      ensures Valid() ==> Shaped(Regs())
    {
      Regs() == After(past)
    }

    constructor ()
      ensures Valid() && past == []
    {
      a, b, pps, scalers := Zeros(DEPTH), Zeros(DEPTH), Zeros(METADATA), Zeros(SUBTRIG);
      trStatus, cntStatus, trigCnt, charge1, charge2 := 0, 0, 0, 0, 0;
      state, wr, data, tvalid, tready := Idle, 0, 0, false, false;
      past := [];
    }

    /** The record state machine of one cycle. */
    method ClockFsm(i: Input)
      requires Shaped(Regs())
      modifies this`state, this`wr, this`data, this`tvalid, this`tready
      ensures Fsm(state, wr, data, tvalid, tready) == NextFsm(old(Regs()), i)
    {
      match state {
        case Idle =>
          if i.pps {
            data := At(pps, wr);
            state := SendPps;
          } else if Tr(Regs(), i) {
            state := SendData;
          } else if SubTr(Regs(), i) {
            data := At(scalers, wr);
            state := SendScalers;
          }
        case SendData =>
          tready, tvalid := true, true;
          if wr == DEPTH {
            wr, tready := 0, false;
            data := trStatus;
            state := SendTrStatus;
          } else if i.tready {
            wr := wr + 1;
            data := AdcWord(a[0], b[0]);
          }
        case SendTrStatus =>
          tready, tvalid := false, true;
          if i.tready {
            data := cntStatus;
            state := SendCntStatus;
          }
        case SendCntStatus =>
          tready, tvalid := false, true;
          if i.tready {
            tready, tvalid := true, false;
            state := Idle;
          }
        case SendScalers =>
          tready, tvalid := false, true;
          if wr == SUBTRIG {
            wr, tready, tvalid := 0, true, false;
            state := Idle;
          } else if i.tready {
            data := At(scalers, wr);
            wr := wr + 1;
          }
        case SendPps =>
          tready, tvalid := false, true;
          if wr == METADATA {
            wr, tready, tvalid := 0, true, false;
            state := Idle;
          } else if i.tready {
            data := At(pps, wr);
            wr := wr + 1;
          }
      }
    }

    /** The detectors and latches of one cycle. */
    method ClockLatches(i: Input)
      requires Shaped(Regs())
      modifies this`scalers, this`trStatus, this`cntStatus, this`trigCnt
      ensures var r := old(Regs());
              && scalers == NextScalers(r, i)
              && trStatus == (if Tr(r, i) then StatusWord(Tr1(r, i), Tr2(r, i), i.clkCnt) else r.trStatus)
              && cntStatus == (if Tr(r, i) then CountWord(r.trigCnt) else r.cntStatus)
              && trigCnt == (if Tr(r, i) then (r.trigCnt + 1) % TWO32 else r.trigCnt)
    {
      hide PairWord, StatusWord, CountWord;
      var tr1, tr2, sub1, sub2 := Tr1(Regs(), i), Tr2(Regs(), i), SubTr1(Regs(), i), SubTr2(Regs(), i);
      hide Tr1, Tr2, SubTr1, SubTr2;
      if sub1 || sub2 {
        scalers := [PairWord(a[2], b[2]), PairWord(charge1, charge2), StatusWord(sub1, sub2, i.clkCnt)];
      }
      if tr1 || tr2 {
        trStatus := StatusWord(tr1, tr2, i.clkCnt);
        cntStatus := CountWord(trigCnt);
        trigCnt := (trigCnt + 1) % TWO32;
      }
    }

    /** All registers take their next value; the helpers above read them as they were. */
    method Edge(i: Input)
      requires Shaped(Regs())
      modifies this
      ensures Regs() == Next(old(Regs()), i) && past == old(past)
    {
      hide Tr, Tr1, Tr2, NextScalers, NextFsm, PpsWords, StatusWord, CountWord;
      ghost var r := Regs();
      ClockFsm(i);
      ghost var f := Fsm(state, wr, data, tvalid, tready);
      assert Regs() == r.(fsm := f);
      SameLatches(r, f, i);
      ClockLatches(i);
      charge1, charge2 := (charge1 + DEPTH - 1) % TWO14, (charge2 + DEPTH - 1) % TWO14;
      if i.pps {
        pps := PpsWords(i);
      }
      a, b := a[1..] + [i.dataA], b[1..] + [i.dataB];
    }

    /** One rising clock edge; the results are the outputs before it. */
    method Clock(i: Input) returns (sready: bool, mvalid: bool, mdata: nat)
      requires Valid()
      modifies this
      ensures Valid() && past == old(past) + [i]
      ensures var f := After(old(past)).fsm; sready == f.tready && mvalid == f.tvalid && mdata == f.data
      ensures Emitted(past) == Emitted(old(past)) + if mvalid && i.tready then [mdata] else []
    {
      hide After, Emitted, Next;
      Unroll(past, i);
      sready, mvalid, mdata := tready, tvalid, data;
      Edge(i);
      past := past + [i];
    }
  }

  /** The detectors do not look at the record state machine. */
  lemma SameLatches(r: Registers, f: Fsm, i: Input)
    requires Shaped(r)
    ensures var r' := r.(fsm := f);
            && NextScalers(r', i) == NextScalers(r, i)
            && Tr(r', i) == Tr(r, i) && Tr1(r', i) == Tr1(r, i) && Tr2(r', i) == Tr2(r, i)
  {
  }
}
