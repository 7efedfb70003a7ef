/** The streaming protocol on the real hardware: the RAM writer core is clocked while the
    two processes take their steps. The position the child polls is the writer's beat
    counter, and the ring it copies from is what the writer's slave has stored. */
module HardwareStream {
  import opened Bits
  import P = PingPong
  import W = RamWriter

  /** A clock cycle of the writer or a step of a process, in any order. */
  datatype Event<T> = Cycle(input: W.Input<T>) | Process(step: P.Event<T>)

  /** The writer with what its handshakes have transferred, and the processes. */
  datatype Joint<T> = Joint(writer: W.Sim<T>, procs: P.Sim<T>)

  /** The ring of 2h words as the slave holds it. */
  function Ring<T>(c: W.Config, h: nat, initial: W.Ram<T>, w: W.Sim<T>): (ring: seq<T>)
    ensures |ring| == 2 * h
  {
    seq(2 * h, p requires 0 <= p < 2 * h => W.Stored(initial, w.aws, w.ws)(c.base + W.BEAT_BYTES * p))
  }

  /** The words that have reached the slave. */
  function Flushed<T>(w: W.Sim<T>): seq<T> {
    if |w.ws| <= |w.taken| then w.taken[..|w.ws|] else w.taken
  }

  /** The processes look at the hardware. */
  function Look<T>(c: W.Config, h: nat, initial: W.Ram<T>, w: W.Sim<T>, m: P.Sim<T>): P.Sim<T> {
    m.(s := m.s.(position := w.regs.addr, ring := Ring(c, h, initial, w)), stream := Flushed(w))
  }

  function Tick<T>(c: W.Config, h: nat, initial: W.Ram<T>, j: Joint<T>, e: Event<T>): Joint<T>
    requires P.Shaped(h, j.procs.s)
  {
    match e
    case Cycle(i) =>
      var w := W.Tick(c, j.writer, i);
      Joint(w, Look(c, h, initial, w, j.procs))
    case Process(p) => Joint(j.writer, P.Tick(h, j.procs, p))
  }

  function Start<T>(c: W.Config, h: nat, initial: W.Ram<T>, buf: seq<T>): Joint<T> {
    Joint(W.Reset(), P.Start(h, Ring(c, h, initial, W.Reset()), buf))
  }

  /** The whole system over a sequence of events. */
  function Run<T>(c: W.Config, h: nat, initial: W.Ram<T>, buf: seq<T>, es: seq<Event<T>>): (j: Joint<T>)
    requires 0 < h && c.Ring() == |buf| == 2 * h
    ensures P.Shaped(h, j.procs.s) && j.writer.regs.addr < 2 * h
  {
    if es == [] then Start(c, h, initial, buf)
    else Tick(c, h, initial, Run(c, h, initial, buf, es[..|es|-1]), es[|es|-1])
  }

  /** The slave is ordered, the processes write nothing themselves, and each of their
      steps is timely. */
  predicate Timely<T>(c: W.Config, h: nat, initial: W.Ram<T>, buf: seq<T>, es: seq<Event<T>>)
    requires 0 < h && c.Ring() == |buf| == 2 * h
  {
    es == [] ||
    var before := es[..|es|-1];
    var j := Run(c, h, initial, buf, before);
    && Timely(c, h, initial, buf, before)
    && match es[|es|-1]
       case Cycle(i) => W.Ordered(j.writer.regs, i)
       case Process(p) => !p.Write? && P.Timely(h, j.procs, p)
  }

  /** The protocol event that a joint event amounts to, if any: a data beat is a write. */
  function Projected<T>(w: W.Sim<T>, e: Event<T>): seq<P.Event<T>> {
    match e
    case Cycle(i) =>
      if w.regs.wvalid && i.wready && |w.ws| < |w.taken| then [P.Write(w.taken[|w.ws|])] else []
    case Process(p) => [p]
  }

  function Protocol<T>(c: W.Config, h: nat, initial: W.Ram<T>, buf: seq<T>, es: seq<Event<T>>): seq<P.Event<T>>
    requires 0 < h && c.Ring() == |buf| == 2 * h
  {
    if es == [] then []
    else
      var before := es[..|es|-1];
      Protocol(c, h, initial, buf, before) + Projected(Run(c, h, initial, buf, before).writer, es[|es|-1])
  }

  /** The writer fits the ring. */
  ghost predicate Fits(c: W.Config, h: nat) {
    && c.Valid() && 0 < h && c.Ring() == 2 * h
    && c.base + W.BEAT_BYTES * c.Ring() <= W.ADDRESS_SPACE
  }

  /** The block designs' writer fits the ring of the programs: ADDR_WIDTH 20 at 0x1E000000. */
  lemma DeployedFits(idWidth: nat, depth: nat)
    ensures Fits(W.Config(20, idWidth, 0x1E00_0000, W.BURST, depth), P.HALF)
  {
    Pow2Values();
    assert Pow2(22) == 2 * Pow2(21) == 4 * Pow2(20);
  }

  // ------------------------------------------------------------------- one cycle

  /** Later addresses do not move words that have been stored. */
  lemma {:induction false} StoredStable<T>(initial: W.Ram<T>, aws: seq<W.AwBeat>, aws': seq<W.AwBeat>,
                                           ws: seq<W.WBeat<T>>)
    requires aws <= aws' && forall n :: 0 <= n < |ws| ==> n / W.BURST < |aws|
    ensures W.Stored(initial, aws', ws) == W.Stored(initial, aws, ws)
  {
    if ws == [] {
    } else {
      var n := |ws| - 1;
      assert n / W.BURST < |aws|;
      StoredStable(initial, aws, aws', ws[..n]);
    }
  }

  lemma {:induction false} AddressesFirst<T>(c: W.Config, w: W.Sim<T>)
    requires W.Inv(c, w)
    ensures forall n :: 0 <= n < |w.ws| ==> n / W.BURST < |w.aws|
  {
    hide W.Inv;
    forall n: nat | n < |w.ws|
      ensures n / W.BURST < |w.aws|
    {
      W.AddressTaken(c, w, n);
    }
  }

  /** Whether a cycle transfers a data beat. */
  predicate Beat<T>(w: W.Sim<T>, i: W.Input<T>) {
    w.regs.wvalid && i.wready
  }

  lemma TickTransfers<T>(c: W.Config, w: W.Sim<T>, i: W.Input<T>)
    ensures var w' := W.Tick(c, w, i);
            && w.aws <= w'.aws && w.taken <= w'.taken
            && |w'.ws| == |w.ws| + Bit(Beat(w, i)) && w.ws <= w'.ws
            && w'.regs.addr == if Beat(w, i) then Wrap(w.regs.addr + 1, c.Ring()) else w.regs.addr
  {
    hide Wrap, Pow2;
  }

  lemma InvFacts<T>(c: W.Config, w: W.Sim<T>)
    requires W.Inv(c, w)
    ensures |w.ws| <= |w.taken| && w.regs.addr == Wrap(|w.ws|, c.Ring())
    ensures w.regs.wvalid ==> |w.ws| < |w.taken|
  {
    hide Wrap, Pow2, W.AddressesPaired;
  }

  /** The RAM before a cycle's beat, seen with the addresses after it. */
  lemma RamKept<T>(c: W.Config, initial: W.Ram<T>, w: W.Sim<T>, i: W.Input<T>)
    requires c.Valid() && W.Inv(c, w) && W.Ordered(w.regs, i)
    ensures var w' := W.Tick(c, w, i);
            W.Inv(c, w') && W.Stored(initial, w'.aws, w.ws) == W.Stored(initial, w.aws, w.ws)
  {
    W.StepKeepsInv(c, w, i);
    TickTransfers(c, w, i);
    hide W.Inv, W.Tick, W.Stored, W.Ordered;
    AddressesFirst(c, w);
    StoredStable(initial, w.aws, W.Tick(c, w, i).aws, w.ws);
  }

  /** What a beat adds to it. */
  lemma RamBeat<T>(c: W.Config, h: nat, initial: W.Ram<T>, w: W.Sim<T>, w': W.Sim<T>)
    requires Fits(c, h) && W.Inv(c, w') && w.ws <= w'.ws && |w'.ws| == |w.ws| + 1
    requires w.regs.addr == Wrap(|w.ws|, c.Ring()) && |w.ws| < |w.taken| && w.taken <= w'.taken
    ensures W.Stored(initial, w'.aws, w'.ws)
         == W.Put(W.Stored(initial, w'.aws, w.ws), c.base + W.BEAT_BYTES * w.regs.addr, w.taken[|w.ws|])
  {
    hide W.Inv, W.Stored, W.Put, Wrap, Pow2;
    W.StoredStep(c, initial, w', |w.ws|);
    assert w'.ws[..|w.ws| + 1] == w'.ws && w'.ws[..|w.ws|] == w.ws;
  }

  /** The RAM after a cycle: one more word at the writer's place, or as it was. */
  lemma RamStep<T>(c: W.Config, h: nat, initial: W.Ram<T>, w: W.Sim<T>, i: W.Input<T>)
    requires Fits(c, h) && W.Inv(c, w) && W.Ordered(w.regs, i)
    ensures var w' := W.Tick(c, w, i);
            var ram, ram' := W.Stored(initial, w.aws, w.ws), W.Stored(initial, w'.aws, w'.ws);
            if Beat(w, i)
            then |w.ws| < |w.taken| && w.regs.addr < c.Ring()
                 && ram' == W.Put(ram, c.base + W.BEAT_BYTES * w.regs.addr, w.taken[|w.ws|])
            else ram' == ram
  {
    BeatHappens(w, i);
    hide Fits, W.Inv, W.Tick, W.Stored, W.Put, W.Ordered, Beat, Wrap, Pow2;
    FitsValid(c, h);
    InvFacts(c, w);
    TickTransfers(c, w, i);
    RamKept(c, initial, w, i);
    if Beat(w, i) {
      RamBeat(c, h, initial, w, W.Tick(c, w, i));
    } else {
      assert W.Tick(c, w, i).ws == w.ws;
    }
  }

  lemma BeatHappens<T>(w: W.Sim<T>, i: W.Input<T>)
    ensures Beat(w, i) <==> w.regs.wvalid && i.wready
  {
  }

  lemma RingStep<T>(c: W.Config, h: nat, initial: W.Ram<T>, w: W.Sim<T>, i: W.Input<T>)
    requires Fits(c, h) && W.Inv(c, w) && W.Ordered(w.regs, i)
    ensures var w' := W.Tick(c, w, i);
            if Beat(w, i)
            then w.regs.addr < 2 * h && |w.ws| < |w.taken|
                 && Ring(c, h, initial, w') == Ring(c, h, initial, w)[w.regs.addr := w.taken[|w.ws|]]
            else Ring(c, h, initial, w') == Ring(c, h, initial, w)
  {
    RamStep(c, h, initial, w, i);
    hide W.Inv, W.Tick, W.Stored, W.Ordered, Beat, Wrap, Pow2;
  }

  /** A clock cycle is a write of the next accepted word, or nothing, to the processes. */
  lemma CycleStep<T>(c: W.Config, h: nat, initial: W.Ram<T>, w: W.Sim<T>, m: P.Sim<T>, i: W.Input<T>)
    requires Fits(c, h) && W.Inv(c, w) && W.Ordered(w.regs, i)
    requires P.Shaped(h, m.s) && Look(c, h, initial, w, m) == m
    ensures var m' := Look(c, h, initial, W.Tick(c, w, i), m);
            m' == if Beat(w, i) && |w.ws| < |w.taken| then P.Tick(h, m, P.Write(w.taken[|w.ws|])) else m
  {
    W.StepKeepsInv(c, w, i);
    hide W.Inv, W.Tick, W.Ordered, Ring, Beat, Wrap, Pow2;
    InvFacts(c, w);
    InvFacts(c, W.Tick(c, w, i));
    TickTransfers(c, w, i);
    RingStep(c, h, initial, w, i);
    var w' := W.Tick(c, w, i);
    if Beat(w, i) {
      assert Flushed(w') == Flushed(w) + [w.taken[|w.ws|]];
    } else {
      assert Flushed(w') == Flushed(w);
    }
  }

  /** The processes' own steps leave the hardware alone. */
  lemma ProcessStep<T>(c: W.Config, h: nat, initial: W.Ram<T>, w: W.Sim<T>, m: P.Sim<T>, p: P.Event<T>)
    requires P.Shaped(h, m.s) && Look(c, h, initial, w, m) == m && !p.Write?
    ensures Look(c, h, initial, w, P.Tick(h, m, p)) == P.Tick(h, m, p)
  {
    hide Ring, Flushed;
  }

  // ------------------------------------------------------------------ refinement

  lemma {:induction false} Unroll<T>(
    c: W.Config, h: nat, initial: W.Ram<T>, buf: seq<T>, before: seq<Event<T>>, e: Event<T>)
    requires 0 < h && c.Ring() == |buf| == 2 * h
    ensures var j := Run(c, h, initial, buf, before);
            && Run(c, h, initial, buf, before + [e]) == Tick(c, h, initial, j, e)
            && Protocol(c, h, initial, buf, before + [e]) ==
               Protocol(c, h, initial, buf, before) + Projected(j.writer, e)
            && (Timely(c, h, initial, buf, before + [e]) ==>
                  && Timely(c, h, initial, buf, before)
                  && (e.Cycle? ==> W.Ordered(j.writer.regs, e.input))
                  && (e.Process? ==> !e.step.Write? && P.Timely(h, j.procs, e.step)))
  {
    assert (before + [e])[..|before|] == before;
  }

  /** The state of the whole system agrees with the protocol on the projected events. */
  ghost predicate Refines<T>(c: W.Config, h: nat, initial: W.Ram<T>, buf: seq<T>, es: seq<Event<T>>)
    requires 0 < h && c.Ring() == |buf| == 2 * h
  {
    var j, start, ps := Run(c, h, initial, buf, es), Start(c, h, initial, buf).procs, Protocol(c, h, initial, buf, es);
    && W.Inv(c, j.writer) && Look(c, h, initial, j.writer, j.procs) == j.procs
    && P.Shaped(h, start.s) && j.procs == P.Run(h, start, ps) && P.TimelyRun(h, start, ps)
  }

  lemma {:induction false} StartRefines<T>(c: W.Config, h: nat, initial: W.Ram<T>, buf: seq<T>)
    requires Fits(c, h) && |buf| == 2 * h
    ensures Refines(c, h, initial, buf, [])
  {
    hide Ring, Wrap, Pow2;
    assert Wrap(0, c.Ring()) == Wrap(0, c.Ids()) == 0;
  }

  lemma {:induction false} CycleRefines<T>(
    c: W.Config, h: nat, initial: W.Ram<T>, buf: seq<T>, before: seq<Event<T>>, i: W.Input<T>)
    requires Fits(c, h) && |buf| == 2 * h && Refines(c, h, initial, buf, before)
    requires Timely(c, h, initial, buf, before + [Cycle(i)])
    ensures Refines(c, h, initial, buf, before + [Cycle(i)])
  {
    var j := Run(c, h, initial, buf, before);
    var start, ps := Start(c, h, initial, buf).procs, Protocol(c, h, initial, buf, before);
    hide Run, Protocol, Timely, Start, Look, Fits, W.Inv, W.Tick, W.Ordered, P.Tick, P.Run, P.TimelyRun;
    Unroll(c, h, initial, buf, before, Cycle(i));
    FitsValid(c, h);
    W.StepKeepsInv(c, j.writer, i);
    CycleStep(c, h, initial, j.writer, j.procs, i);
    LookTwice(c, h, initial, W.Tick(c, j.writer, i), j.procs);
    if Beat(j.writer, i) && |j.writer.ws| < |j.writer.taken| {
      P.Unroll(h, start, ps, P.Write(j.writer.taken[|j.writer.ws|]));
    } else {
      assert ps + [] == ps;
    }
  }

  lemma FitsValid(c: W.Config, h: nat)
    requires Fits(c, h)
    ensures c.Valid()
  {
  }

  lemma LookTwice<T>(c: W.Config, h: nat, initial: W.Ram<T>, w: W.Sim<T>, m: P.Sim<T>)
    ensures Look(c, h, initial, w, Look(c, h, initial, w, m)) == Look(c, h, initial, w, m)
  {
    hide Ring, Flushed;
  }

  lemma {:induction false} ProcessRefines<T>(
    c: W.Config, h: nat, initial: W.Ram<T>, buf: seq<T>, before: seq<Event<T>>, p: P.Event<T>)
    requires Fits(c, h) && |buf| == 2 * h && Refines(c, h, initial, buf, before)
    requires Timely(c, h, initial, buf, before + [Process(p)])
    ensures Refines(c, h, initial, buf, before + [Process(p)])
  {
    var j := Run(c, h, initial, buf, before);
    var start, ps := Start(c, h, initial, buf).procs, Protocol(c, h, initial, buf, before);
    hide Run, Protocol, Timely, Start, Look, W.Inv, P.Tick, P.Run, P.TimelyRun, P.Timely;
    Unroll(c, h, initial, buf, before, Process(p));
    ProcessStep(c, h, initial, j.writer, j.procs, p);
    P.Unroll(h, start, ps, p);
  }

  /** The system of writer core and processes refines the protocol: every data beat is a
      write of the next accepted word, every other cycle changes nothing. */
  lemma {:induction false} SystemRefinesProtocol<T>(c: W.Config, h: nat, initial: W.Ram<T>, buf: seq<T>,
                                                    es: seq<Event<T>>)
    requires Fits(c, h) && |buf| == 2 * h && Timely(c, h, initial, buf, es)
    ensures Refines(c, h, initial, buf, es)
  {
    hide Refines, Fits;
    if es == [] {
      StartRefines(c, h, initial, buf);
    } else {
      var before, e := es[..|es|-1], es[|es|-1];
      assert es == before + [e];
      SystemRefinesProtocol(c, h, initial, buf, before);
      match e {
        case Cycle(i) => CycleRefines(c, h, initial, buf, before, i);
        case Process(p) => ProcessRefines(c, h, initial, buf, before, p);
      }
    }
  }

  /** Gap-free streaming from the writer's input to the client: what the parent has sent
      is a prefix of the words the writer core has accepted. */
  lemma {:induction false} SentIsAccepted<T>(c: W.Config, h: nat, initial: W.Ram<T>, buf: seq<T>, es: seq<Event<T>>)
    requires Fits(c, h) && |buf| == 2 * h && Timely(c, h, initial, buf, es)
    ensures var j := Run(c, h, initial, buf, es); j.procs.sent <= j.writer.taken
  {
    SystemRefinesProtocol(c, h, initial, buf, es);
    var j, start := Run(c, h, initial, buf, es), Start(c, h, initial, buf).procs;
    var ps := Protocol(c, h, initial, buf, es);
    hide Run, Protocol, Timely, W.Inv, P.Run, P.TimelyRun;
    P.StreamIsGapFree(h, Ring(c, h, initial, W.Reset()), buf, ps);
    SeenIsFlushed(c, h, initial, j);
  }

  lemma SeenIsFlushed<T>(c: W.Config, h: nat, initial: W.Ram<T>, j: Joint<T>)
    requires Look(c, h, initial, j.writer, j.procs) == j.procs
    ensures j.procs.stream <= j.writer.taken
  {
  }
}
