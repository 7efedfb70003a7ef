/** cores/axis_decimator_v1_0: keeps one accepted beat in every cfg + 1. The core takes
    beats without looking at its sink, so a kept word can be replaced before the sink
    has taken it. */
module Decimator {
  import opened Bits
  import opened Streams

  datatype Input = Input(svalid: bool, sdata: nat, mready: bool)

  datatype Registers = Registers(tdata: nat, cntr: nat, tvalid: bool, tready: bool)

  function Next(cfg: nat, r: Registers, i: Input): Registers {
    var comp := r.cntr < cfg;
    var take := r.tready && i.svalid;
    Registers(
      if take && !comp then i.sdata else r.tdata,
      if take then (if comp then r.cntr + 1 else 0) else r.cntr,
      if take && !comp then true else if i.mready && r.tvalid then false else r.tvalid,
      if !r.tready && comp then true else r.tready)
  }

  /** The registers with the beats accepted and transferred so far, the kept words that
      were replaced before the sink took them, and which of the two each kept word that
      has left was: sent or lost. */
  datatype Sim = Sim(regs: Registers, accepted: seq<nat>, sent: seq<nat>, lost: seq<nat>, fates: seq<bool>)

  /** This cycle's capture lands on a word the sink does not take. */
  predicate Overrun(cfg: nat, r: Registers, i: Input) {
    r.tready && i.svalid && r.cntr >= cfg && r.tvalid && !i.mready
  }

  function Tick(cfg: nat, m: Sim, i: Input): Sim {
    var r := m.regs;
    Sim(Next(cfg, r, i),
        m.accepted + if r.tready && i.svalid then [i.sdata] else [],
        m.sent + if r.tvalid && i.mready then [r.tdata] else [],
        m.lost + (if Overrun(cfg, r, i) then [r.tdata] else []),
        m.fates + if r.tvalid && i.mready then [true] else if Overrun(cfg, r, i) then [false] else [])
  }

  function After(cfg: nat, ins: seq<Input>): Sim {
    if ins == [] then Sim(Registers(0, 0, false, false), [], [], [], [])
    else Tick(cfg, After(cfg, ins[..|ins|-1]), ins[|ins|-1])
  }

  lemma Unroll(cfg: nat, before: seq<Input>, i: Input)
    ensures After(cfg, before + [i]) == Tick(cfg, After(cfg, before), i)
  {
    assert (before + [i])[..|before|] == before;
  }

  function Pending(r: Registers): seq<nat> {
    if r.tvalid then [r.tdata] else []
  }

  /** The words of s whose fate is b, in order. */
  function Pick(s: seq<nat>, fates: seq<bool>, b: bool): seq<nat>
    requires |s| == |fates|
  {
    if s == [] then []
    else
      var n := |s| - 1;
      Pick(s[..n], fates[..n], b) + if fates[n] == b then [s[n]] else []
  }

  lemma PickSnoc(s: seq<nat>, fates: seq<bool>, x: nat, fate: bool, b: bool)
    requires |s| == |fates|
    ensures Pick(s + [x], fates + [fate], b) == Pick(s, fates, b) + if fate == b then [x] else []
  {
    assert (s + [x])[..|s|] == s && (fates + [fate])[..|s|] == fates;
  }

  /** Nothing lost, everything sent. */
  lemma {:induction false} PickAll(s: seq<nat>, fates: seq<bool>)
    requires |s| == |fates|
    ensures |Pick(s, fates, true)| + |Pick(s, fates, false)| == |s|
    ensures Pick(s, fates, false) == [] ==> Pick(s, fates, true) == s
  {
    if s == [] {
    } else {
      var n := |s| - 1;
      PickAll(s[..n], fates[..n]);
      assert s == s[..n] + [s[n]];
    }
  }

  /** The kept words are, in order, those that have left and the one still pending; the
      words sent and the words lost are those that left with that fate, in order. */
  ghost predicate Accounted(kept: seq<nat>, m: Sim) {
    && |m.fates| <= |kept| && kept[|m.fates|..] == Pending(m.regs)
    && m.sent == Pick(kept[..|m.fates|], m.fates, true)
    && m.lost == Pick(kept[..|m.fates|], m.fates, false)
  }

  ghost predicate Inv(cfg: nat, m: Sim) {
    m.regs.cntr == Wrap(|m.accepted|, cfg + 1) && Accounted(EveryNth(m.accepted, cfg + 1), m)
  }

  /** A word leaves, a word is kept, or both. */
  lemma AccountedStep(cfg: nat, kept: seq<nat>, m: Sim, i: Input)
    requires Accounted(kept, m)
    ensures var m' := Tick(cfg, m, i);
            Accounted(kept + if m.regs.tready && i.svalid && m.regs.cntr >= cfg then [i.sdata] else [], m')
  {
    hide Pick;
    var r, m' := m.regs, Tick(cfg, m, i);
    var gone := kept[..|m.fates|];
    var kept' := kept + if r.tready && i.svalid && r.cntr >= cfg then [i.sdata] else [];
    if |m'.fates| > |m.fates| {
      var fate := i.mready;
      PickSnoc(gone, m.fates, r.tdata, fate, true);
      PickSnoc(gone, m.fates, r.tdata, fate, false);
      assert kept[|m.fates|..][0] == r.tdata;
      assert kept'[..|m'.fates|] == gone + [r.tdata] && m'.fates == m.fates + [fate];
    } else {
      assert m'.fates == m.fates && m'.sent == m.sent && m'.lost == m.lost;
      assert kept'[..|m'.fates|] == gone;
    }
    assert kept'[|m'.fates|..] == Pending(m'.regs);
  }

  lemma StepKeepsInv(cfg: nat, m: Sim, i: Input)
    requires Inv(cfg, m)
    ensures Inv(cfg, Tick(cfg, m, i))
  {
    hide Wrap, EveryNth, Accounted;
    var r, kept := m.regs, EveryNth(m.accepted, cfg + 1);
    WrapStep(|m.accepted|, cfg + 1);
    CounterWraps(r.cntr, cfg);
    EveryNthSnoc(m.accepted, i.sdata, cfg + 1);
    AccountedStep(cfg, kept, m, i);
    assert m.accepted + [] == m.accepted && kept + [] == kept;
  }

  lemma CounterWraps(cntr: nat, cfg: nat)
    requires cntr <= cfg
    ensures Wrap(cntr + 1, cfg + 1) == if cntr < cfg then cntr + 1 else 0
  {
    assert Wrap(cfg + 1, cfg + 1) == Wrap(0, cfg + 1);
  }

  lemma {:induction false} RunKeepsInv(cfg: nat, ins: seq<Input>)
    ensures Inv(cfg, After(cfg, ins))
  {
    if ins == [] {
    } else {
      RunKeepsInv(cfg, ins[..|ins|-1]);
      StepKeepsInv(cfg, After(cfg, ins[..|ins|-1]), ins[|ins|-1]);
    }
  }

  /** The kept words, accepted beats number k*(cfg+1) + cfg, are those sent, those lost
      and the one pending, each in order; the words that leave are exactly these if and
      only if no capture landed on an unaccepted word. */
  lemma RefinesEveryNth(cfg: nat, ins: seq<Input>)
    ensures var m := After(cfg, ins);
            && Accounted(EveryNth(m.accepted, cfg + 1), m)
            && |m.sent| + |m.lost| + |Pending(m.regs)| == |EveryNth(m.accepted, cfg + 1)|
            && (m.lost == [] <==> m.sent + Pending(m.regs) == EveryNth(m.accepted, cfg + 1))
  {
    RunKeepsInv(cfg, ins);
    hide EveryNth, After, Pick;
    var m := After(cfg, ins);
    var kept := EveryNth(m.accepted, cfg + 1);
    PickAll(kept[..|m.fates|], m.fates);
    assert kept == kept[..|m.fates|] + kept[|m.fates|..];
  }

  /** The core starts to take beats in the second cycle, unless cfg is zero: then it
      never does. */
  lemma {:induction false} ReadyUnlessZero(cfg: nat, ins: seq<Input>)
    ensures After(cfg, ins).regs.tready <==> cfg > 0 && ins != []
    ensures cfg == 0 ==> After(cfg, ins).accepted == []
    ensures ins == [] || !After(cfg, ins).regs.tready ==> After(cfg, ins).regs.cntr == 0
  {
    if ins == [] {
    } else {
      ReadyUnlessZero(cfg, ins[..|ins|-1]);
    }
  }

  /** The core itself; `past` is its input history since reset. */
  class Core {
    const cfg: nat
    var tdata: nat
    var cntr: nat
    var tvalid: bool
    var tready: bool
    ghost var past: seq<Input>

    ghost predicate Valid()
      reads this
    {
      Registers(tdata, cntr, tvalid, tready) == After(cfg, past).regs
    }

    constructor (cfg: nat)
      ensures Valid() && past == [] && this.cfg == cfg
    {
      this.cfg := cfg;
      tdata, cntr, tvalid, tready, past := 0, 0, false, false, [];
    }

    /** One rising clock edge; the results are the outputs before it. */
    method Clock(i: Input) returns (sready: bool, mvalid: bool, mdata: nat)
      requires Valid()
      modifies this
      ensures Valid() && past == old(past) + [i]
      ensures var m, m' := After(cfg, old(past)), After(cfg, past);
              && m'.accepted == m.accepted + (if sready && i.svalid then [i.sdata] else [])
              && m'.sent == m.sent + (if mvalid && i.mready then [mdata] else [])
      ensures var r := After(cfg, old(past)).regs; sready == r.tready && mvalid == r.tvalid && mdata == r.tdata
    {
      Unroll(cfg, past, i);
      hide After;
      sready, mvalid, mdata := tready, tvalid, tdata;
      var comp := cntr < cfg;
      if tready && i.svalid && !comp {
        tdata, tvalid := i.sdata, true;
      } else if i.mready && tvalid {
        tvalid := false;
      }
      if tready && i.svalid {
        cntr := if comp then cntr + 1 else 0;
      }
      if !tready && comp {
        tready := true;
      }
      past := past + [i];
    }
  }
}
