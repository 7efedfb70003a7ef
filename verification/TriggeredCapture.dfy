/** projects/adc_recorder_trigger: the oscilloscope feeds the RAM writer through a
    4-to-8-byte width converter; the C program recomputes where the captured window
    starts in the RAM ring and reads it back. */
module TriggeredCapture {
  import opened Bits
  import opened Options
  import O = Oscilloscope
  import W = RamWriter

  /** One 32-bit beat: the 16-bit samples of IN1 and IN2. */
  datatype Sample = Sample(in1: int, in2: int)

  /** One 64-bit RAM word: two beats, the earlier one at the lower address. */
  datatype Word = Word(low: Sample, high: Sample)

  const UINT32 := 0x1_0000_0000
  const RING_SAMPLES := 0x80_0000       // CNTR_WIDTH 23
  const RING_WORDS := 0x40_0000         // ADDR_WIDTH 22
  const RAM_BASE := 0x1E00_0000         // where the program maps the RAM
  const WINDOW := 1024 * 1024

  /** What the program writes to the two length registers. */
  const SCOPE := O.Config(23, 1024 - 1, 1024 * 1024 - 1)

  /** The block design's writer, with the base of its constant const_1; its ID width and
      FIFO depth do not matter. */
  function WriterConfig(idWidth: nat, depth: nat): W.Config {
    W.Config(22, idWidth, 503316480, W.BURST, depth)
  }

  // ------------------------------------------------------------ the C program

  function Sub32(x: nat, y: nat): nat
    requires y <= UINT32
  {
    Wrap(x + UINT32 - y, UINT32)
  }

  /** start = ((status >> 1) - 1024) & 0x007FFFC0 */
  function WindowStart(status: nat): nat {
    BitAnd(Sub32(ShiftRight(status, 1), 1024), 0x7F_FFC0)
  }

  /** The byte offset of sample i: ((start + i) & 0x007FFFFF) * 4. */
  function ByteOffset(start: nat, i: nat): nat {
    BitAnd(Wrap(start + i, UINT32), 0x7F_FFFF) * 4
  }

  /** The two 16-bit reads at a byte offset that is a multiple of four. */
  function ReadSample(ram: W.Ram<Word>, offset: nat): Sample {
    var w := ram(RAM_BASE + 8 * (offset / 8));
    if offset % 8 < 4 then w.low else w.high
  }

  lemma LowBit(x: nat)
    ensures BitAnd(x, 1) == x % 2
  {
    assert BitAnd(x / 2, 0) == 0;
  }

  /** What a run of the program returns: None while every poll finds the enable bit set,
      otherwise the window read from the start that the second status read gives. */
  ghost predicate Recorded(polls: seq<nat>, again: nat, ram: nat -> W.Ram<Word>, values: Option<seq<Sample>>) {
    match values
    case None => forall k :: 0 <= k < |polls| ==> polls[k] % 2 == 1
    case Some(window) =>
      && (exists k :: 0 <= k < |polls| && polls[k] % 2 == 0 && forall j :: 0 <= j < k ==> polls[j] % 2 == 1)
      && |window| == WINDOW
      && forall i :: 0 <= i < WINDOW ==> window[i] == ReadSample(ram(i), ByteOffset(WindowStart(again), i))
  }

  /** Poll the status register until the enable bit clears, read it once more, then read
      the window. `polls` and `again` are the values the register shows, ram(i) the RAM at
      the time of read i. */
  method Record(polls: seq<nat>, again: nat, ram: nat -> W.Ram<Word>) returns (values: Option<seq<Sample>>)
    ensures Recorded(polls, again, ram, values)
  {
    var k := 0;
    while k < |polls| && BitAnd(polls[k], 1) != 0
      invariant k <= |polls|
      invariant forall j :: 0 <= j < k ==> polls[j] % 2 == 1
    {
      LowBit(polls[k]);
      k := k + 1;
    }
    if k == |polls| {
      return None;
    }
    LowBit(polls[k]);
    var start := WindowStart(again);
    var read := [];
    for i := 0 to WINDOW
      invariant |read| == i
      invariant forall j :: 0 <= j < i ==> read[j] == ReadSample(ram(j), ByteOffset(start, j))
    {
      read := read + [ReadSample(ram(i), ByteOffset(start, i))];
    }
    values := Some(read);
  }

  // ------------------------------------------------------------- address maths

  lemma ShiftBySix(x: nat)
    ensures ShiftRight(x, 6) == x / 64
    ensures ShiftLeft(x, 6) == 64 * x
  {
    assert ShiftRight(x, 6) == ShiftRight(x / 2, 5) == ShiftRight(x / 4, 4) == ShiftRight(x / 8, 3)
        == ShiftRight(x / 16, 2) == ShiftRight(x / 32, 1) == ShiftRight(x / 64, 0);
    assert ShiftLeft(x, 6) == 2 * ShiftLeft(x, 5) == 4 * ShiftLeft(x, 4) == 8 * ShiftLeft(x, 3)
        == 16 * ShiftLeft(x, 2) == 32 * ShiftLeft(x, 1) == 64 * ShiftLeft(x, 0);
  }

  /** The mask 0x007FFFC0 clears six low bits and keeps seventeen. */
  lemma MaskedStart(x: nat)
    ensures BitAnd(x, 0x7F_FFC0) == 64 * ((x / 64) % 0x2_0000)
  {
    hide BitAnd, ShiftLeft, ShiftRight, Wrap;
    ShiftBySix(0x1_FFFF);
    AndShifted(x, 0x1_FFFF, 6);
    ShiftBySix(x);
    Pow2Values();
    AndOnes(x / 64, 17);
    WrapIsRemainder(x / 64, 0x2_0000);
    ShiftBySix((x / 64) % 0x2_0000);
  }

  /** Subtracting 1024 in 32 bits and keeping seventeen bits goes back sixteen blocks of
      sixty-four samples. */
  lemma SixteenBlocksBack(a: nat)
    requires a < 0x80_0000
    ensures (a + 0x1_0000_0000 - 1024) % 0x1_0000_0000 / 64 % 0x2_0000
         == if 1024 <= a then a / 64 - 16 else a / 64 + 0x2_0000 - 16
  {
    var back := a + 0x1_0000_0000 - 1024;
    if 1024 <= a {
      assert back % 0x1_0000_0000 == a - 1024;
    } else {
      assert back % 0x1_0000_0000 == back;
      assert back / 64 == a / 64 + 0x400_0000 - 16;
    }
  }

  lemma BlockOf(t: nat) returns (q: nat, block: nat)
    ensures t - t % 64 == 0x80_0000 * q + 64 * block && block < 0x2_0000
    ensures t % 0x80_0000 / 64 == block
    ensures 1024 <= t % 0x80_0000 <==> 16 <= block
    ensures t / 0x80_0000 == q
  {
    q, block := t / 0x80_0000, t % 0x80_0000 / 64;
    var low := t % 0x80_0000 % 64;
    InBlock(0x2_0000 * q + block, low);
    assert t == 64 * (0x2_0000 * q + block) + low;
  }

  lemma InBlock(x: nat, low: nat)
    requires low < 64
    ensures (64 * x + low) % 64 == low
  {
  }

  lemma InRing(q: nat, r: nat)
    requires r < 0x80_0000
    ensures (0x80_0000 * q + r) % 0x80_0000 == r
  {
  }

  lemma WindowStartArithmetic(t: nat)
    requires 1024 <= t
    ensures 64 * (((t % 0x80_0000 + UINT32 - 1024) % UINT32 / 64) % 0x2_0000)
         == (t - t % 64 - 1024) % 0x80_0000
  {
    SixteenBlocksBack(t % 0x80_0000);
    var q, block := BlockOf(t);
    if 16 <= block {
      InRing(q, 64 * (block - 16));
    } else {
      InRing(q - 1, 64 * (block + 0x2_0000 - 16));
    }
  }

  /** From the latched counter the program finds the ring place of sample
      t - t mod 64 - 1024, for any t, wrapped or not. */
  lemma WindowStartFound(t: nat)
    requires 1024 <= t
    ensures WindowStart(2 * Wrap(t, RING_SAMPLES)) == Wrap(t - t % 64 - 1024, RING_SAMPLES)
  {
    var a := Wrap(t, RING_SAMPLES);
    assert ShiftRight(2 * a, 1) == ShiftRight(a, 0) == a;
    hide BitAnd, ShiftLeft, ShiftRight, Wrap;
    MaskedStart(Sub32(a, 1024));
    WrapIsRemainder(t, RING_SAMPLES);
    WrapIsRemainder(a + UINT32 - 1024, UINT32);
    WrapIsRemainder(t - t % 64 - 1024, RING_SAMPLES);
    WindowStartArithmetic(t);
  }

  /** Reading from there on walks the ring: read i is at the place of sample s + i. */
  lemma OffsetOfSample(s: nat, i: nat)
    requires i < WINDOW
    ensures ByteOffset(Wrap(s, RING_SAMPLES), i) == 4 * Wrap(s + i, RING_SAMPLES)
    ensures Wrap(s + i, RING_SAMPLES) == 2 * Wrap((s + i) / 2, RING_WORDS) + (s + i) % 2
  {
    var x := Wrap(s, RING_SAMPLES) + i;
    Pow2Values();
    AndOnes(x, 23);
    WrapAdd(s, i, RING_SAMPLES);
    WrapHalf(s + i, RING_WORDS);
  }

  // ---------------------------------------------------------------- end to end

  /** The width converter: beats leave in pairs, an odd last one stays inside. */
  function Pack(s: seq<Sample>): (words: seq<Word>)
    ensures |words| == |s| / 2
  {
    seq(|s| / 2, k requires 0 <= k < |s| / 2 => Word(s[2 * k], s[2 * k + 1]))
  }

  lemma StrandedArithmetic(t: nat, emitted: nat, flushed: nat)
    requires 1024 <= t && emitted == t - t % 64 + WINDOW - 1022
    requires flushed % W.BURST == 0 && emitted / 2 - W.BURST <= flushed <= emitted / 2
    ensures flushed == emitted / 2 - 1
    ensures 2 * flushed == t - t % 64 - 1024 + WINDOW
  {
    var blocks, bursts := t / 64, flushed / 16;
    assert t - t % 64 == 64 * blocks;
    assert emitted / 2 == 16 * (2 * blocks + 32736) + 1;
    assert flushed == 16 * bursts;
    assert bursts == 2 * blocks + 32736;
  }

  lemma {:induction false} ScopeSide(ins: seq<O.Input<Sample>>)
    requires O.OneRun(SCOPE, ins) && O.Started(ins) && O.After(SCOPE, ins).phase.Idle?
    ensures var b := O.Beats(ins);
            var t := O.TriggerAt(SCOPE, b);
            var emitted := O.Emitted(SCOPE, ins);
            && 1024 <= t < |b|
            && |emitted| == t - t % 64 + WINDOW - 1022 && |emitted| <= |b|
            && (forall k :: 0 <= k < |emitted| ==> emitted[k] == b[k].data)
            && O.Status(O.After(SCOPE, ins)) == 2 * Wrap(t, RING_SAMPLES)
  {
    Pow2Values();
    hide Pow2, Wrap;
    O.FinishedCapture(SCOPE, ins);
    O.CaptureLengthFormula(SCOPE);
    hide O.After, O.Emitted, O.Beats, O.TriggerAt, O.CaptureLength;
  }

  /** Once a capture is over and the writer idle, exactly one word is left in the FIFO,
      the last one of the capture, and the last word flushed ends the window. */
  lemma {:induction false} OneWordStranded(
    scopeIns: seq<O.Input<Sample>>, writerIns: seq<W.Input<Word>>, idWidth: nat, depth: nat)
    requires O.OneRun(SCOPE, scopeIns) && O.Started(scopeIns) && O.After(SCOPE, scopeIns).phase.Idle?
    requires var w := WriterConfig(idWidth, depth);
             && W.OrderedRun(w, writerIns)
             && W.After(w, writerIns).regs.Idle(w)
             && W.After(w, writerIns).taken == Pack(O.Emitted(SCOPE, scopeIns))
    ensures var s := W.After(WriterConfig(idWidth, depth), writerIns);
            var words := Pack(O.Emitted(SCOPE, scopeIns));
            var t := O.TriggerAt(SCOPE, O.Beats(scopeIns));
            && |words| > 0 && s.regs.fifo == [words[|words|-1]]
            && 1024 <= t && 2 * |s.ws| == t - t % 64 - 1024 + WINDOW
  {
    var w := WriterConfig(idWidth, depth);
    var emitted := O.Emitted(SCOPE, scopeIns);
    W.IdleRemainder(w, writerIns);
    W.AddressDataPairing(w, writerIns);
    hide O.After, O.Emitted, O.Beats, O.TriggerAt, O.OneRun, O.Started, O.Status, W.After, W.OrderedRun, Wrap;
    ScopeSide(scopeIns);
    StrandedArithmetic(O.TriggerAt(SCOPE, O.Beats(scopeIns)), |emitted|, |W.After(w, writerIns).ws|);
  }

  /** The ring place of a flushed word holds that word until the writer comes around. */
  lemma {:induction false} FlushedWord(ins: seq<W.Input<Word>>, emitted: seq<Sample>,
                    idWidth: nat, depth: nat, initial: W.Ram<Word>, k: nat)
    requires var w := WriterConfig(idWidth, depth);
             && W.OrderedRun(w, ins) && W.After(w, ins).taken <= Pack(emitted)
             && k < |W.After(w, ins).ws| <= k + RING_WORDS
    ensures k < |Pack(emitted)|
    ensures var s := W.After(WriterConfig(idWidth, depth), ins);
            W.Stored(initial, s.aws, s.ws)(RAM_BASE + 8 * Wrap(k, RING_WORDS)) == Pack(emitted)[k]
  {
    hide W.After, W.OrderedRun, W.Stored, Wrap, Pack;
    Pow2Values();
    hide Pow2;
    W.RingImage(WriterConfig(idWidth, depth), initial, ins, k);
  }

  lemma {:induction false} ReadFromPlace(ram: W.Ram<Word>, place: nat, emitted: seq<Sample>, n: nat)
    requires n / 2 < |Pack(emitted)| && ram(RAM_BASE + 8 * place) == Pack(emitted)[n / 2]
    ensures ReadSample(ram, 4 * (2 * place + n % 2)) == emitted[n]
  {
    assert (4 * (2 * place + n % 2)) / 8 == place;
  }

  /** The ring place of a flushed sample holds that sample. */
  lemma {:induction false} FlushedSample(ins: seq<W.Input<Word>>, emitted: seq<Sample>,
                      idWidth: nat, depth: nat, initial: W.Ram<Word>, n: nat)
    requires var w := WriterConfig(idWidth, depth);
             && W.OrderedRun(w, ins) && W.After(w, ins).taken <= Pack(emitted)
             && n / 2 < |W.After(w, ins).ws| <= n / 2 + RING_WORDS
    ensures n < |emitted|
    ensures var s := W.After(WriterConfig(idWidth, depth), ins);
            ReadSample(W.Stored(initial, s.aws, s.ws), 4 * Wrap(n, RING_SAMPLES)) == emitted[n]
  {
    hide W.After, W.OrderedRun, W.Stored, Wrap, ReadSample;
    var s := W.After(WriterConfig(idWidth, depth), ins);
    FlushedWord(ins, emitted, idWidth, depth, initial, n / 2);
    WrapHalf(n, RING_WORDS);
    ReadFromPlace(W.Stored(initial, s.aws, s.ws), Wrap(n / 2, RING_WORDS), emitted, n);
  }

  /** The stream index of sample i of the window. */
  function StreamIndex(beats: seq<O.Input<Sample>>, i: nat): int {
    var t := O.TriggerAt(SCOPE, beats);
    t - t % 64 - 1024 + i
  }

  /** Read i of the program is the sample of the stream it stands for. */
  predicate ReadsBackAt(ram: W.Ram<Word>, status: nat, beats: seq<O.Input<Sample>>, i: nat) {
    var n := StreamIndex(beats, i);
    && 0 <= n < |beats|
    && ReadSample(ram, ByteOffset(WindowStart(status), i)) == beats[n].data
  }

  /** A finished capture has at most one ring of words after the start of its window. */
  lemma WindowInRing(t: nat, i: nat, emitted: nat, flushed: nat)
    requires 1024 <= t && emitted == t - t % 64 + WINDOW - 1022 && flushed <= emitted / 2
    ensures flushed <= (t - t % 64 - 1024 + i) / 2 + RING_WORDS
  {
    HalfApart(t - t % 64 - 1024, i, WINDOW + 2);
  }

  lemma HalfApart(first: nat, i: nat, d: nat)
    ensures (first + d) / 2 <= (first + i) / 2 + d / 2 + 1
  {
  }

  lemma {:induction false} TakenBounds(w: W.Config, ins: seq<W.Input<Word>>)
    requires w.Valid() && W.OrderedRun(w, ins)
    ensures |W.After(w, ins).ws| <= |W.After(w, ins).taken|
  {
    W.RunKeepsInv(w, ins);
    hide W.After, W.OrderedRun;
  }

  /** Where read i of the program looks. */
  lemma {:induction false} ReadOffset(scopeIns: seq<O.Input<Sample>>, i: nat)
    requires O.OneRun(SCOPE, scopeIns) && O.Started(scopeIns) && O.After(SCOPE, scopeIns).phase.Idle?
    requires i < WINDOW
    ensures var n := StreamIndex(O.Beats(scopeIns), i);
            && 0 <= n
            && ByteOffset(WindowStart(O.Status(O.After(SCOPE, scopeIns))), i) == 4 * Wrap(n, RING_SAMPLES)
  {
    var t := O.TriggerAt(SCOPE, O.Beats(scopeIns));
    hide O.After, O.Emitted, O.Beats, O.TriggerAt, O.OneRun, O.Started, O.Status;
    hide Wrap, Pow2, BitAnd, WindowStart, ByteOffset;
    ScopeSide(scopeIns);
    WindowStartFound(t);
    OffsetOfSample(t - t % 64 - 1024, i);
  }

  /** What read i returns, written or not: the latest stream sample at its ring place that
      has reached the RAM. */
  lemma {:induction false} ReadSeesLatest(
    scopeIns: seq<O.Input<Sample>>, writerIns: seq<W.Input<Word>>,
    idWidth: nat, depth: nat, initial: W.Ram<Word>, i: nat, latest: nat)
    requires O.OneRun(SCOPE, scopeIns) && O.Started(scopeIns) && O.After(SCOPE, scopeIns).phase.Idle?
    requires var w := WriterConfig(idWidth, depth);
             && W.OrderedRun(w, writerIns)
             && W.After(w, writerIns).taken <= Pack(O.Emitted(SCOPE, scopeIns))
             && latest / 2 < |W.After(w, writerIns).ws| <= latest / 2 + RING_WORDS
    requires var n := StreamIndex(O.Beats(scopeIns), i);
             0 <= n && Wrap(latest, RING_SAMPLES) == Wrap(n, RING_SAMPLES)
    requires i < WINDOW
    ensures var s := W.After(WriterConfig(idWidth, depth), writerIns);
            var start := WindowStart(O.Status(O.After(SCOPE, scopeIns)));
            && latest < |O.Beats(scopeIns)|
            && ReadSample(W.Stored(initial, s.aws, s.ws), ByteOffset(start, i)) == O.Beats(scopeIns)[latest].data
  {
    hide O.After, O.Emitted, O.Beats, O.TriggerAt, O.OneRun, O.Started, O.Status, StreamIndex;
    hide W.After, W.OrderedRun, W.Stored, Wrap, Pow2, BitAnd, WindowStart, ByteOffset, ReadSample;
    ScopeSide(scopeIns);
    ReadOffset(scopeIns, i);
    FlushedSample(writerIns, O.Emitted(SCOPE, scopeIns), idWidth, depth, initial, latest);
  }

  /** End to end, read by read: whatever the samples, the trigger index and the handshake
      schedules, once the capture has stopped, read i of the program returns sample
      t - t mod 64 - 1024 + i of the stream that follows run_flag as soon as the word that
      holds it has been written, however often the counter and the ring have wrapped. */
  lemma {:induction false} FlushedSampleIsRead(
    scopeIns: seq<O.Input<Sample>>, writerIns: seq<W.Input<Word>>,
    idWidth: nat, depth: nat, initial: W.Ram<Word>, i: nat)
    requires O.OneRun(SCOPE, scopeIns) && O.Started(scopeIns) && O.After(SCOPE, scopeIns).phase.Idle?
    requires var w := WriterConfig(idWidth, depth);
             && W.OrderedRun(w, writerIns)
             && W.After(w, writerIns).taken <= Pack(O.Emitted(SCOPE, scopeIns))
             && StreamIndex(O.Beats(scopeIns), i) / 2 < |W.After(w, writerIns).ws|
    requires i < WINDOW
    ensures var s := W.After(WriterConfig(idWidth, depth), writerIns);
            ReadsBackAt(W.Stored(initial, s.aws, s.ws), O.Status(O.After(SCOPE, scopeIns)), O.Beats(scopeIns), i)
    ensures 1024 <= O.TriggerAt(SCOPE, O.Beats(scopeIns)) < |O.Beats(scopeIns)|
  {
    var emitted := O.Emitted(SCOPE, scopeIns);
    var t := O.TriggerAt(SCOPE, O.Beats(scopeIns));
    hide O.After, O.Emitted, O.Beats, O.TriggerAt, O.OneRun, O.Started, O.Status;
    hide W.After, W.OrderedRun, W.Stored, Wrap, Pow2, BitAnd, WindowStart, ByteOffset, ReadSample;
    ScopeSide(scopeIns);
    var w := WriterConfig(idWidth, depth);
    WriterConfigValid(idWidth, depth);
    TakenBounds(w, writerIns);
    WindowInRing(t, i, |emitted|, |W.After(w, writerIns).ws|);
    ReadSeesLatest(scopeIns, writerIns, idWidth, depth, initial, i, t - t % 64 - 1024 + i);
  }

  /** The other direction: a read that comes before its word is written returns the sample
      of one ring turn earlier, or, while the writer is in its first turn and has not come
      to that place, what the RAM held before. */
  lemma {:induction false} EarlyReadIsStale(
    scopeIns: seq<O.Input<Sample>>, writerIns: seq<W.Input<Word>>,
    idWidth: nat, depth: nat, initial: W.Ram<Word>, i: nat)
    requires O.OneRun(SCOPE, scopeIns) && O.Started(scopeIns) && O.After(SCOPE, scopeIns).phase.Idle?
    requires var w := WriterConfig(idWidth, depth);
             && W.OrderedRun(w, writerIns)
             && W.After(w, writerIns).taken <= Pack(O.Emitted(SCOPE, scopeIns))
             && |W.After(w, writerIns).ws| <= StreamIndex(O.Beats(scopeIns), i) / 2
    requires i < WINDOW
    ensures var s := W.After(WriterConfig(idWidth, depth), writerIns);
            var offset := ByteOffset(WindowStart(O.Status(O.After(SCOPE, scopeIns))), i);
            var read := ReadSample(W.Stored(initial, s.aws, s.ws), offset);
            var n := StreamIndex(O.Beats(scopeIns), i);
            && 0 <= n
            && (RING_SAMPLES <= n && (n - RING_SAMPLES) / 2 < |s.ws| ==>
                  n - RING_SAMPLES < |O.Beats(scopeIns)| && read == O.Beats(scopeIns)[n - RING_SAMPLES].data)
            && (|s.ws| <= Wrap(n, RING_SAMPLES) / 2 ==> read == ReadSample(initial, offset))
  {
    hide O.After, O.Emitted, O.Beats, O.TriggerAt, O.OneRun, O.Started, O.Status, StreamIndex;
    hide W.After, W.OrderedRun, W.Stored, Pow2, BitAnd, WindowStart, ByteOffset, ReadSample, Pack;
    ReadOffset(scopeIns, i);
    var n: nat := StreamIndex(O.Beats(scopeIns), i);
    var flushed := |W.After(WriterConfig(idWidth, depth), writerIns).ws|;
    if RING_SAMPLES <= n && (n - RING_SAMPLES) / 2 < flushed {
      OneTurnEarlier(n);
      hide Wrap;
      ReadSeesLatest(scopeIns, writerIns, idWidth, depth, initial, i, n - RING_SAMPLES);
    }
    hide Wrap;
    if flushed <= Wrap(n, RING_SAMPLES) / 2 {
      UntouchedSample(writerIns, idWidth, depth, initial, Wrap(n, RING_SAMPLES));
    }
  }

  lemma OneTurnEarlier(n: nat)
    requires RING_SAMPLES <= n
    ensures Wrap(n - RING_SAMPLES, RING_SAMPLES) == Wrap(n, RING_SAMPLES)
    ensures (n - RING_SAMPLES) / 2 == n / 2 - RING_WORDS
  {
  }

  lemma {:induction false} UntouchedSample(
    ins: seq<W.Input<Word>>, idWidth: nat, depth: nat, initial: W.Ram<Word>, place: nat)
    requires var w := WriterConfig(idWidth, depth);
             W.OrderedRun(w, ins) && |W.After(w, ins).ws| <= place / 2 && place < RING_SAMPLES
    ensures var s := W.After(WriterConfig(idWidth, depth), ins);
            ReadSample(W.Stored(initial, s.aws, s.ws), 4 * place) == ReadSample(initial, 4 * place)
  {
    var w := WriterConfig(idWidth, depth);
    assert 4 * place / 8 == place / 2 < RING_WORDS;
    Pow2Values();
    hide W.After, W.OrderedRun, W.Stored, Pow2;
    W.UntouchedPlace(w, initial, ins, place / 2);
  }

  lemma WriterConfigValid(idWidth: nat, depth: nat)
    ensures WriterConfig(idWidth, depth).Valid()
  {
  }

  /** An idle writer has written the whole window. */
  lemma {:induction false} CapturedWindowIsRead(
    scopeIns: seq<O.Input<Sample>>, writerIns: seq<W.Input<Word>>,
    idWidth: nat, depth: nat, initial: W.Ram<Word>, i: nat)
    requires O.OneRun(SCOPE, scopeIns) && O.Started(scopeIns) && O.After(SCOPE, scopeIns).phase.Idle?
    requires var w := WriterConfig(idWidth, depth);
             && W.OrderedRun(w, writerIns)
             && W.After(w, writerIns).regs.Idle(w)
             && W.After(w, writerIns).taken == Pack(O.Emitted(SCOPE, scopeIns))
    requires i < WINDOW
    ensures var s := W.After(WriterConfig(idWidth, depth), writerIns);
            ReadsBackAt(W.Stored(initial, s.aws, s.ws), O.Status(O.After(SCOPE, scopeIns)), O.Beats(scopeIns), i)
  {
    hide O.After, O.Emitted, O.Beats, O.TriggerAt, O.OneRun, O.Started, O.Status,
         W.After, W.OrderedRun, W.Stored, ReadsBackAt, Pack;
    OneWordStranded(scopeIns, writerIns, idWidth, depth);
    FlushedSampleIsRead(scopeIns, writerIns, idWidth, depth, initial, i);
  }

  // ------------------------------------------------------------- wired together

  /** One cycle of the block design: the stream side and the two slave readies. */
  datatype ChainInput = ChainInput(scope: O.Input<Sample>, awready: bool, wready: bool)

  function ScopeIns(ins: seq<ChainInput>): seq<O.Input<Sample>> {
    if ins == [] then [] else ScopeIns(ins[..|ins|-1]) + [ins[|ins|-1].scope]
  }

  /** What the writer sees when the converter hands a word over as soon as its second
      beat arrives. */
  function WriterInput(c: O.Config, before: seq<ChainInput>, i: ChainInput): W.Input<Word> {
    var sent := O.Emitted(c, ScopeIns(before));
    var second := O.After(c, ScopeIns(before)).enbl && i.scope.valid && |sent| % 2 == 1;
    W.Input(i.awready, i.wready, second,
            Word(if second then sent[|sent|-1] else i.scope.data, i.scope.data))
  }

  function WriterIns(c: O.Config, ins: seq<ChainInput>): seq<W.Input<Word>> {
    if ins == [] then []
    else WriterIns(c, ins[..|ins|-1]) + [WriterInput(c, ins[..|ins|-1], ins[|ins|-1])]
  }

  /** The FIFO has room whenever a word arrives: the oscilloscope cannot wait. */
  predicate NeverFull(c: O.Config, w: W.Config, ins: seq<ChainInput>) {
    ins == [] ||
    var before := ins[..|ins|-1];
    && NeverFull(c, w, before)
    && (WriterInput(c, before, ins[|ins|-1]).svalid ==> W.After(w, WriterIns(c, before)).regs.Ready(w))
  }

  lemma {:induction false} PackStep(s: seq<Sample>, x: Sample)
    ensures Pack(s + [x]) == Pack(s) + if |s| % 2 == 1 then [Word(s[|s|-1], x)] else []
  {
  }

  /** Without overflow the writer accepts exactly the packed capture. */
  lemma {:induction false} NothingLost(c: O.Config, w: W.Config, ins: seq<ChainInput>)
    requires NeverFull(c, w, ins)
    ensures W.After(w, WriterIns(c, ins)).taken == Pack(O.Emitted(c, ScopeIns(ins)))
  {
    if ins == [] {
    } else {
      var before, i := ins[..|ins|-1], ins[|ins|-1];
      NothingLost(c, w, before);
      var wi := WriterInput(c, before, i);
      var sent := O.Emitted(c, ScopeIns(before));
      assert ScopeIns(ins) == ScopeIns(before) + [i.scope];
      assert WriterIns(c, ins) == WriterIns(c, before) + [wi];
      TakenStep(c, w, before, i);
      var forwarded := O.After(c, ScopeIns(before)).enbl && i.scope.valid;
      assert wi.svalid <==> forwarded && |sent| % 2 == 1;
      assert wi.svalid ==> wi.sdata == Word(sent[|sent|-1], i.scope.data);
      hide *;
      O.Unroll(c, ScopeIns(before), i.scope);
      PackStep(sent, i.scope.data);
      assert sent + [] == sent && Pack(sent) + [] == Pack(sent);
    }
  }

  lemma {:induction false} TakenStep(c: O.Config, w: W.Config, before: seq<ChainInput>, i: ChainInput)
    requires var s := W.After(w, WriterIns(c, before));
             WriterInput(c, before, i).svalid ==> s.regs.Ready(w)
    ensures var wi := WriterInput(c, before, i);
            W.After(w, WriterIns(c, before) + [wi]).taken
            == W.After(w, WriterIns(c, before)).taken + if wi.svalid then [wi.sdata] else []
  {
    hide O.After, O.Emitted, W.Next;
    W.Unroll(w, WriterIns(c, before), WriterInput(c, before, i));
    hide W.After;
  }

  /** A finished capture of the wired cores, the writer's slave ordered so far. */
  ghost predicate Finished(w: W.Config, ins: seq<ChainInput>) {
    var s := ScopeIns(ins);
    && O.OneRun(SCOPE, s) && O.Started(s) && O.After(SCOPE, s).phase.Idle?
    && NeverFull(SCOPE, w, ins) && W.OrderedRun(w, WriterIns(SCOPE, ins))
  }

  /** What the RAM holds after a run of the wired cores. */
  function RamAfter(w: W.Config, ins: seq<ChainInput>, initial: W.Ram<Word>): W.Ram<Word> {
    var s := W.After(w, WriterIns(SCOPE, ins));
    W.Stored(initial, s.aws, s.ws)
  }

  /** Word k has been written. */
  predicate Written(w: W.Config, ins: seq<ChainInput>, k: int) {
    k < |W.After(w, WriterIns(SCOPE, ins)).ws|
  }

  /** The end-to-end result for the wired cores, clocked together from reset: no
      hypothesis is left but an ordered slave, a FIFO that never fills, and one run. */
  lemma {:induction false} WiredSampleIsRead(
    ins: seq<ChainInput>, idWidth: nat, depth: nat, initial: W.Ram<Word>, i: nat)
    requires var w := WriterConfig(idWidth, depth);
             Finished(w, ins) && Written(w, ins, StreamIndex(O.Beats(ScopeIns(ins)), i) / 2)
    requires i < WINDOW
    ensures ReadsBackAt(RamAfter(WriterConfig(idWidth, depth), ins, initial),
                        O.Status(O.After(SCOPE, ScopeIns(ins))), O.Beats(ScopeIns(ins)), i)
    ensures var b := O.Beats(ScopeIns(ins)); 1024 <= O.TriggerAt(SCOPE, b) < |b|
  {
    hide O.After, O.Emitted, O.Beats, O.TriggerAt, O.OneRun, O.Started, O.Status,
         W.After, W.OrderedRun, W.Stored, ReadsBackAt, Pack, ScopeIns, WriterIns, NeverFull, StreamIndex;
    NothingLost(SCOPE, WriterConfig(idWidth, depth), ins);
    FlushedSampleIsRead(ScopeIns(ins), WriterIns(SCOPE, ins), idWidth, depth, initial, i);
  }

  lemma {:induction false} WiredCaptureIsRead(
    ins: seq<ChainInput>, idWidth: nat, depth: nat, initial: W.Ram<Word>, i: nat)
    requires var w := WriterConfig(idWidth, depth);
             Finished(w, ins) && W.After(w, WriterIns(SCOPE, ins)).regs.Idle(w)
    requires i < WINDOW
    ensures ReadsBackAt(RamAfter(WriterConfig(idWidth, depth), ins, initial),
                        O.Status(O.After(SCOPE, ScopeIns(ins))), O.Beats(ScopeIns(ins)), i)
  {
    hide O.After, O.Emitted, O.Beats, O.TriggerAt, O.OneRun, O.Started, O.Status,
         W.After, W.OrderedRun, W.Stored, ReadsBackAt, Pack, ScopeIns, WriterIns, NeverFull;
    NothingLost(SCOPE, WriterConfig(idWidth, depth), ins);
    CapturedWindowIsRead(ScopeIns(ins), WriterIns(SCOPE, ins), idWidth, depth, initial, i);
  }

  // ------------------------------------------------------------ after the capture

  lemma {:induction false} ChainSnoc(c: O.Config, w: W.Config, before: seq<ChainInput>, i: ChainInput)
    ensures ScopeIns(before + [i]) == ScopeIns(before) + [i.scope]
    ensures WriterIns(c, before + [i]) == WriterIns(c, before) + [WriterInput(c, before, i)]
    ensures NeverFull(c, w, before + [i]) <==>
            NeverFull(c, w, before)
            && (WriterInput(c, before, i).svalid ==> W.After(w, WriterIns(c, before)).regs.Ready(w))
  {
    hide WriterInput, W.After;
    assert (before + [i])[..|before|] == before;
  }

  /** No new capture is started and the slave is ready; the stream goes on as it likes. */
  predicate LetsDrain(more: seq<ChainInput>) {
    forall k :: 0 <= k < |more| ==> !more[k].scope.run && more[k].awready && more[k].wready
  }

  /** Cycles the writer still needs, at most. */
  function Work(r: W.Registers<Word>): nat {
    2 * |r.fifo| + Bit(!r.wvalid)
  }

  /** What a further cycle keeps of a finished capture, and what it does to the writer. */
  lemma {:induction false} DrainCycle(w: W.Config, before: seq<ChainInput>, i: ChainInput)
    requires w.Valid() && Finished(w, before) && LetsDrain([i])
    ensures var ins := before + [i];
            var s, s' := W.After(w, WriterIns(SCOPE, before)), W.After(w, WriterIns(SCOPE, ins));
            && Finished(w, ins)
            && O.After(SCOPE, ScopeIns(ins)) == O.After(SCOPE, ScopeIns(before))
            && O.Beats(ScopeIns(before)) <= O.Beats(ScopeIns(ins))
            && (if s.regs.Idle(w) then s' == s else Work(s'.regs) < Work(s.regs))
  {
    var wi := WriterInput(SCOPE, before, i);
    O.EnableBit(SCOPE, ScopeIns(before));
    assert [i][0] == i;
    assert wi == W.Draining(wi.sdata);
    hide WriterInput, WriterIns, ScopeIns, NeverFull, W.After, W.OrderedRun, W.Draining, W.Inv, W.Tick,
         O.After, O.Beats, O.OneRun, O.Started;
    ChainSnoc(SCOPE, w, before, i);
    O.IdleCycle(SCOPE, ScopeIns(before), i.scope);
    W.RunKeepsInv(w, WriterIns(SCOPE, before));
    W.OrderedSnoc(w, WriterIns(SCOPE, before), wi);
    W.Unroll(w, WriterIns(SCOPE, before), wi);
    WriterCycle(w, W.After(w, WriterIns(SCOPE, before)), wi.sdata);
  }

  lemma WriterCycle(w: W.Config, s: W.Sim<Word>, x: Word)
    requires w.Valid() && W.Inv(w, s)
    ensures W.Ordered(s.regs, W.Draining(x))
    ensures var s' := W.Tick(w, s, W.Draining(x));
            if s.regs.Idle(w) then s' == s else Work(s'.regs) < Work(s.regs)
    ensures !W.Draining(x).svalid
  {
    hide W.Inv, W.Tick;
    if s.regs.Idle(w) {
      W.IdleStays(w, s, W.Draining(x));
    } else {
      W.DrainStep(w, s, x);
    }
  }

  /** Over any such continuation the capture stays as it is and the writer comes to rest. */
  lemma {:induction false} DrainRun(w: W.Config, ins: seq<ChainInput>, more: seq<ChainInput>)
    requires w.Valid() && Finished(w, ins) && LetsDrain(more)
    ensures var all := ins + more;
            var r, r' := W.After(w, WriterIns(SCOPE, ins)).regs, W.After(w, WriterIns(SCOPE, all)).regs;
            && Finished(w, all)
            && O.After(SCOPE, ScopeIns(all)) == O.After(SCOPE, ScopeIns(ins))
            && O.Beats(ScopeIns(ins)) <= O.Beats(ScopeIns(all))
            && (r'.Idle(w) || Work(r') + |more| <= Work(r))
  {
    hide Finished, WriterIns, ScopeIns, W.After, O.After, O.Beats, Work;
    if more == [] {
      assert ins + more == ins;
    } else {
      var front, i := more[..|more|-1], more[|more|-1];
      assert ins + more == (ins + front) + [i];
      assert LetsDrain(front) && LetsDrain([i]);
      DrainRun(w, ins, front);
      DrainCycle(w, ins + front, i);
    }
  }

  /** Every read is the sample it stands for, whatever the RAM held before. */
  ghost predicate ReadsBack(w: W.Config, ins: seq<ChainInput>) {
    forall initial: W.Ram<Word>, i: nat :: i < WINDOW ==>
      ReadsBackAt(RamAfter(w, ins, initial), O.Status(O.After(SCOPE, ScopeIns(ins))), O.Beats(ScopeIns(ins)), i)
  }

  /** A finished capture can always be read: over every continuation that starts no other
      one and lets the writer drain, whether the stream pauses or goes on, all reads are
      right from a bounded number of cycles on, and they stay so. */
  lemma {:induction false} FinishedCaptureIsReadable(
    ins: seq<ChainInput>, more: seq<ChainInput>, idWidth: nat, depth: nat)
    requires Finished(WriterConfig(idWidth, depth), ins) && LetsDrain(more)
    requires 2 * |W.After(WriterConfig(idWidth, depth), WriterIns(SCOPE, ins)).regs.fifo| + 1 <= |more|
    ensures O.After(SCOPE, ScopeIns(ins + more)) == O.After(SCOPE, ScopeIns(ins))
    ensures O.Beats(ScopeIns(ins)) <= O.Beats(ScopeIns(ins + more))
    ensures ReadsBack(WriterConfig(idWidth, depth), ins + more)
  {
    var w := WriterConfig(idWidth, depth);
    hide Finished, LetsDrain, WriterIns, ScopeIns, W.After, O.After, O.Beats, RamAfter, ReadsBackAt, WriterConfig;
    WriterConfigValid(idWidth, depth);
    DrainRun(w, ins, more);
    WorkLeft(w, ins);
    WorkLeft(w, ins + more);
    forall initial: W.Ram<Word>, i: nat | i < WINDOW
      ensures ReadsBackAt(RamAfter(w, ins + more, initial), O.Status(O.After(SCOPE, ScopeIns(ins + more))),
                          O.Beats(ScopeIns(ins + more)), i)
    {
      WiredCaptureIsRead(ins + more, idWidth, depth, initial, i);
    }
  }

  lemma {:induction false} WorkLeft(w: W.Config, ins: seq<ChainInput>)
    requires w.Valid() && Finished(w, ins)
    ensures var r := W.After(w, WriterIns(SCOPE, ins)).regs; 1 <= Work(r) <= 2 * |r.fifo| + 1
  {
    W.RunKeepsInv(w, WriterIns(SCOPE, ins));
    hide W.After, WriterIns, NeverFull, O.OneRun, O.Started, O.After, ScopeIns, Wrap, Pow2;
  }

  /** A slave that is always ready on both channels. */
  predicate ReadySlave(ins: seq<ChainInput>) {
    forall k :: 0 <= k < |ins| ==> ins[k].awready && ins[k].wready
  }

  lemma {:induction false} ReadyWriter(c: O.Config, ins: seq<ChainInput>)
    requires ReadySlave(ins)
    ensures W.AlwaysReady(WriterIns(c, ins))
  {
    hide O.After, O.Emitted;
    if ins == [] {
    } else {
      ReadyWriter(c, ins[..|ins|-1]);
    }
  }

  /** It is ordered, and a FIFO of more than eighteen words never fills. */
  lemma {:induction false} ReadySlaveSuffices(c: O.Config, w: W.Config, ins: seq<ChainInput>)
    requires ReadySlave(ins) && w.threshold + 2 < w.depth
    ensures NeverFull(c, w, ins) && W.OrderedRun(w, WriterIns(c, ins))
  {
    hide WriterInput, W.After, W.OrderedRun;
    ReadyWriter(c, ins);
    W.ReadyRunBounded(w, WriterIns(c, ins));
    if ins == [] {
    } else {
      var before := ins[..|ins|-1];
      ReadySlaveSuffices(c, w, before);
      ReadyWriter(c, before);
      W.ReadyRunBounded(w, WriterIns(c, before));
    }
  }

  /** With a slave that is always ready, every finished capture is read back from the
      37th cycle on, over every continuation that starts no other capture. */
  lemma {:induction false} ReadySlaveReadsBack(ins: seq<ChainInput>, more: seq<ChainInput>, idWidth: nat, depth: nat)
    requires var s := ScopeIns(ins); O.OneRun(SCOPE, s) && O.Started(s) && O.After(SCOPE, s).phase.Idle?
    requires ReadySlave(ins) && 18 < depth
    requires LetsDrain(more) && 37 <= |more|
    ensures O.After(SCOPE, ScopeIns(ins + more)) == O.After(SCOPE, ScopeIns(ins))
    ensures O.Beats(ScopeIns(ins)) <= O.Beats(ScopeIns(ins + more))
    ensures ReadsBack(WriterConfig(idWidth, depth), ins + more)
  {
    hide ScopeIns, WriterIns, ReadsBack, NeverFull, ReadySlave, LetsDrain,
         O.OneRun, O.Started, O.After, O.Beats, W.After, W.OrderedRun;
    var w := WriterConfig(idWidth, depth);
    ReadySlaveSuffices(SCOPE, w, ins);
    ReadyWriter(SCOPE, ins);
    W.ReadyRunBounded(w, WriterIns(SCOPE, ins));
    FinishedCaptureIsReadable(ins, more, idWidth, depth);
  }

  // ------------------------------------------------------------ the program's run

  lemma {:induction false} ScopePrefix(ins: seq<ChainInput>, n: nat)
    requires n <= |ins|
    ensures |ScopeIns(ins)| == |ins| && ScopeIns(ins[..n]) == ScopeIns(ins)[..n]
    ensures forall k :: 0 <= k < |ins| ==> ScopeIns(ins)[k] == ins[k].scope
  {
    if n == |ins| {
      assert ins[..n] == ins;
      if ins != [] {
        ScopePrefix(ins[..n - 1], n - 1);
      }
      assert ScopeIns(ins)[..n] == ScopeIns(ins);
    } else {
      ScopePrefix(ins[..|ins|-1], n);
      assert ins[..|ins|-1][..n] == ins[..n];
    }
  }

  lemma {:induction false} WriterPrefix(w: W.Config, ins: seq<ChainInput>, n: nat)
    requires NeverFull(SCOPE, w, ins) && W.OrderedRun(w, WriterIns(SCOPE, ins)) && n <= |ins|
    ensures NeverFull(SCOPE, w, ins[..n]) && W.OrderedRun(w, WriterIns(SCOPE, ins[..n]))
  {
    hide WriterInput, W.After;
    if n == |ins| {
      assert ins[..n] == ins;
    } else {
      var before := ins[..|ins|-1];
      var feed := WriterIns(SCOPE, ins);
      W.OrderedPrefix(w, feed, |feed| - 1);
      assert feed[..|feed| - 1] == WriterIns(SCOPE, before);
      WriterPrefix(w, before, n);
      assert before[..n] == ins[..n];
    }
  }

  /** A run in which the capture is over at cycle e. */
  ghost predicate OverAt(w: W.Config, ins: seq<ChainInput>, e: nat) {
    && e <= |ins| && O.OneRun(SCOPE, ScopeIns(ins))
    && NeverFull(SCOPE, w, ins) && W.OrderedRun(w, WriterIns(SCOPE, ins))
    && O.Started(ScopeIns(ins[..e])) && O.After(SCOPE, ScopeIns(ins[..e])).phase.Idle?
  }

  /** From then on the capture is finished, its status stays, and so does the window. */
  lemma {:induction false} StaysOver(w: W.Config, ins: seq<ChainInput>, e: nat, n: nat)
    requires OverAt(w, ins, e) && e <= n <= |ins|
    ensures Finished(w, ins[..n])
    ensures O.After(SCOPE, ScopeIns(ins[..n])) == O.After(SCOPE, ScopeIns(ins[..e]))
    ensures O.Beats(ScopeIns(ins[..n])) <= O.Beats(ScopeIns(ins))
    ensures forall i: nat :: StreamIndex(O.Beats(ScopeIns(ins[..n])), i) == StreamIndex(O.Beats(ScopeIns(ins)), i)
  {
    var s := ScopeIns(ins);
    ScopePrefix(ins, e);
    ScopePrefix(ins, n);
    WriterPrefix(w, ins, n);
    hide ScopeIns, WriterIns, NeverFull, W.OrderedRun, W.After, O.OneRun, O.Started, O.After, O.Beats, O.TriggerAt,
         O.Emitted, O.CaptureLength;
    O.IdleForGood(SCOPE, s, e, n);
    ScopeValid();
    O.StopsExactly(SCOPE, s[..n]);
    assert s[..n] == s[..|s|][..n] && s[..|s|] == s;
    O.IdleForGood(SCOPE, s, n, |s|);
    O.TriggerKept(SCOPE, O.Beats(s[..n]), O.Beats(s));
  }

  lemma ScopeValid()
    ensures SCOPE.Valid()
  {
    Pow2Values();
  }

  /** One read of the program: the second status read at cycle `at`, the RAM at cycle r. */
  lemma {:induction false} ProgramRead(ins: seq<ChainInput>, idWidth: nat, depth: nat, initial: W.Ram<Word>,
                    e: nat, at: nat, r: nat, i: nat)
    requires var w := WriterConfig(idWidth, depth);
             && OverAt(w, ins, e) && e <= at <= r <= |ins| && i < WINDOW
             && Written(w, ins[..r], StreamIndex(O.Beats(ScopeIns(ins)), i) / 2)
    ensures ReadsBackAt(RamAfter(WriterConfig(idWidth, depth), ins[..r], initial),
                        O.Status(O.After(SCOPE, ScopeIns(ins[..at]))), O.Beats(ScopeIns(ins)), i)
  {
    var w := WriterConfig(idWidth, depth);
    hide OverAt, Finished, Written, ScopeIns, StreamIndex, WriterConfig, RamAfter,
         O.After, O.Beats, O.Status, O.TriggerAt, WindowStart, ByteOffset, ReadSample;
    StaysOver(w, ins, e, at);
    StaysOver(w, ins, e, r);
    WiredSampleIsRead(ins[..r], idWidth, depth, initial, i);
  }

  /** The polls show the status at their cycles, all after the capture was started. */
  ghost predicate Polled(ins: seq<ChainInput>, polled: seq<nat>, polls: seq<nat>) {
    && |polls| == |polled|
    && forall j :: 0 <= j < |polled| ==>
         && polled[j] <= |ins| && O.Started(ScopeIns(ins[..polled[j]]))
         && polls[j] == O.Status(O.After(SCOPE, ScopeIns(ins[..polled[j]])))
  }

  /** The second status read comes after the polls, read i at cycle read(i) after it. */
  ghost predicate Timeline(w: W.Config, ins: seq<ChainInput>, initial: W.Ram<Word>, polled: seq<nat>, at: nat,
                           read: nat -> nat, ram: nat -> W.Ram<Word>) {
    && (forall j :: 0 <= j < |polled| ==> polled[j] <= at) && at <= |ins|
    && forall i :: 0 <= i < WINDOW ==>
         at <= read(i) <= |ins| && ram(i) == RamAfter(w, ins[..read(i)], initial)
  }

  /** The window of a run: sample i is stream sample t - t mod 64 - 1024 + i. */
  predicate IsWindow(beats: seq<O.Input<Sample>>, window: seq<Sample>) {
    |window| == WINDOW &&
    forall i :: 0 <= i < WINDOW ==>
      0 <= StreamIndex(beats, i) < |beats| && window[i] == beats[StreamIndex(beats, i)].data
  }

  /** The program waits while the capture runs, and returns the captured window if each
      word has been written by the time it is read. */
  lemma {:induction false} ProgramReturnsWindow(
    ins: seq<ChainInput>, idWidth: nat, depth: nat, initial: W.Ram<Word>,
    polled: seq<nat>, polls: seq<nat>, at: nat, read: nat -> nat, ram: nat -> W.Ram<Word>,
    values: Option<seq<Sample>>)
    requires var w := WriterConfig(idWidth, depth);
             && O.OneRun(SCOPE, ScopeIns(ins)) && NeverFull(SCOPE, w, ins) && W.OrderedRun(w, WriterIns(SCOPE, ins))
             && Polled(ins, polled, polls) && Timeline(w, ins, initial, polled, at, read, ram)
             && (values.Some? ==> forall i :: 0 <= i < WINDOW ==>
                   Written(w, ins[..read(i)], StreamIndex(O.Beats(ScopeIns(ins)), i) / 2))
    requires Recorded(polls, O.Status(O.After(SCOPE, ScopeIns(ins[..at]))), ram, values)
    ensures values.None? <==>
            forall j :: 0 <= j < |polled| ==> !O.After(SCOPE, ScopeIns(ins[..polled[j]])).phase.Idle?
    ensures values.Some? ==> IsWindow(O.Beats(ScopeIns(ins)), values.value)
  {
    var w := WriterConfig(idWidth, depth);
    hide ScopeIns, WriterIns, NeverFull, Written, StreamIndex, WriterConfig, RamAfter, ReadSample, WindowStart,
         ByteOffset, O.OneRun, O.Started, O.After, O.Beats, O.Status, W.OrderedRun;
    forall j | 0 <= j < |polled|
      ensures polls[j] % 2 == 1 <==> !O.After(SCOPE, ScopeIns(ins[..polled[j]])).phase.Idle?
    {
      O.EnableBit(SCOPE, ScopeIns(ins[..polled[j]]));
    }
    if values.Some? {
      var k :| 0 <= k < |polls| && polls[k] % 2 == 0;
      assert OverAt(w, ins, polled[k]);
      hide OverAt;
      forall i: nat | i < WINDOW
        ensures ReadsBackAt(ram(i), O.Status(O.After(SCOPE, ScopeIns(ins[..at]))), O.Beats(ScopeIns(ins)), i)
      {
        ProgramRead(ins, idWidth, depth, initial, polled[k], at, read(i), i);
      }
    }
  }

  /** An idle writer has written every word of the window. */
  lemma {:induction false} IdleHasWritten(ins: seq<ChainInput>, idWidth: nat, depth: nat, i: nat)
    requires var w := WriterConfig(idWidth, depth);
             Finished(w, ins) && W.After(w, WriterIns(SCOPE, ins)).regs.Idle(w) && i < WINDOW
    ensures Written(WriterConfig(idWidth, depth), ins, StreamIndex(O.Beats(ScopeIns(ins)), i) / 2)
  {
    hide O.After, O.Emitted, O.Beats, O.TriggerAt, O.OneRun, O.Started, W.After, W.OrderedRun,
         Pack, ScopeIns, WriterIns, NeverFull;
    NothingLost(SCOPE, WriterConfig(idWidth, depth), ins);
    OneWordStranded(ScopeIns(ins), WriterIns(SCOPE, ins), idWidth, depth);
  }

  lemma {:induction false} LetsDrainFrom(w: W.Config, ins: seq<ChainInput>, e: nat, r: nat)
    requires OverAt(w, ins, e) && ReadySlave(ins) && e <= r <= |ins|
    ensures LetsDrain(ins[e..r])
  {
    var s := ScopeIns(ins);
    ScopePrefix(ins, e);
    hide ScopeIns, WriterIns, NeverFull, W.OrderedRun, O.OneRun, O.Started, O.After, O.Beats;
    forall k | e <= k < r
      ensures !ins[k].scope.run
    {
      O.IdleForGood(SCOPE, s, e, k);
      O.OneRunAt(SCOPE, s, k);
    }
  }

  lemma ReadyPrefix(w: W.Config, ins: seq<ChainInput>, e: nat)
    requires OverAt(w, ins, e) && ReadySlave(ins)
    ensures e <= |ins| && ReadySlave(ins[..e])
  {
    hide W.After, O.After, ScopeIns, WriterIns, NeverFull;
  }

  /** A ready slave has taken the whole window 37 cycles after the capture is over. */
  lemma {:induction false} ReadyIsWritten(ins: seq<ChainInput>, idWidth: nat, depth: nat, e: nat, r: nat, i: nat)
    requires OverAt(WriterConfig(idWidth, depth), ins, e) && ReadySlave(ins) && 18 < depth
    requires e + 37 <= r <= |ins| && i < WINDOW
    ensures Written(WriterConfig(idWidth, depth), ins[..r], StreamIndex(O.Beats(ScopeIns(ins)), i) / 2)
  {
    hide OverAt, Finished, ReadySlave, LetsDrain, ScopeIns, WriterIns, Written, StreamIndex, W.After, O.After, O.Beats;
    var w := WriterConfig(idWidth, depth);
    var done, more := ins[..e], ins[e..r];
    assert ins[..r] == done + more;
    ReadyPrefix(w, ins, e);
    LetsDrainFrom(w, ins, e, r);
    StaysOver(w, ins, e, e);
    StaysOver(w, ins, e, r);
    WriterConfigValid(idWidth, depth);
    ReadyWriter(SCOPE, done);
    W.ReadyRunBounded(w, WriterIns(SCOPE, done));
    DrainRun(w, done, more);
    WorkLeft(w, done);
    WorkLeft(w, ins[..r]);
    IdleHasWritten(ins[..r], idWidth, depth, i);
  }

  /** With a ready slave it is enough that the reads start 37 cycles after the second
      status read: the program returns the captured window, whatever the stream does. */
  lemma {:induction false} ReadySlaveProgram(
    ins: seq<ChainInput>, idWidth: nat, depth: nat, initial: W.Ram<Word>,
    polled: seq<nat>, polls: seq<nat>, at: nat, read: nat -> nat, ram: nat -> W.Ram<Word>,
    values: Option<seq<Sample>>)
    requires O.OneRun(SCOPE, ScopeIns(ins)) && ReadySlave(ins) && 18 < depth
    requires var w := WriterConfig(idWidth, depth);
             && Polled(ins, polled, polls) && Timeline(w, ins, initial, polled, at, read, ram)
             && forall i :: 0 <= i < WINDOW ==> at + 37 <= read(i)
    requires Recorded(polls, O.Status(O.After(SCOPE, ScopeIns(ins[..at]))), ram, values)
    ensures values.None? <==>
            forall j :: 0 <= j < |polled| ==> !O.After(SCOPE, ScopeIns(ins[..polled[j]])).phase.Idle?
    ensures values.Some? ==> IsWindow(O.Beats(ScopeIns(ins)), values.value)
  {
    var w := WriterConfig(idWidth, depth);
    hide ScopeIns, WriterIns, NeverFull, Written, StreamIndex, RamAfter, ReadSample, WindowStart, ByteOffset,
         ReadySlave, IsWindow, O.OneRun, O.Started, O.After, O.Beats, O.Status, W.OrderedRun;
    ReadySlaveSuffices(SCOPE, w, ins);
    if values.Some? {
      var k :| 0 <= k < |polls| && polls[k] % 2 == 0;
      O.EnableBit(SCOPE, ScopeIns(ins[..polled[k]]));
      assert OverAt(w, ins, polled[k]);
      hide OverAt;
      forall i: nat | i < WINDOW
        ensures Written(w, ins[..read(i)], StreamIndex(O.Beats(ScopeIns(ins)), i) / 2)
      {
        ReadyIsWritten(ins, idWidth, depth, polled[k], read(i), i);
      }
    }
    ProgramReturnsWindow(ins, idWidth, depth, initial, polled, polls, at, read, ram, values);
  }
}
