/** cores/axis_packetizer_v1_0: frames a stream into packets of cfg + 1 beats, either
    one packet and then nothing, or packet after packet. */
module Packetizer {
  import opened Bits

  /** The CONTINUOUS generic and the constant cfg_data. */
  datatype Config = Config(continuous: bool, cfg: nat)

  datatype Input = Input(svalid: bool, sdata: nat, mready: bool)

  datatype Registers = Registers(cntr: nat, enbl: bool)

  datatype Beat = Beat(data: nat, last: bool)

  function Next(c: Config, r: Registers, i: Input): Registers {
    var comp := r.cntr < c.cfg;
    var sent := i.mready && r.enbl && i.svalid;
    Registers(
      if sent && comp then r.cntr + 1
      else if sent && c.continuous then 0 else r.cntr,
      if !r.enbl && comp then true
      else if sent && !comp && !c.continuous then false else r.enbl)
  }

  /** The registers with the beats taken on the slave side and sent on the master side. */
  datatype Sim = Sim(regs: Registers, taken: seq<nat>, sent: seq<Beat>)

  function Tick(c: Config, m: Sim, i: Input): Sim {
    var r := m.regs;
    var sready := r.enbl && i.mready;
    var mvalid := r.enbl && i.svalid;
    Sim(Next(c, r, i),
        m.taken + if sready && i.svalid then [i.sdata] else [],
        m.sent + if mvalid && i.mready then [Beat(i.sdata, r.enbl && r.cntr >= c.cfg)] else [])
  }

  function After(c: Config, ins: seq<Input>): Sim {
    if ins == [] then Sim(Registers(0, false), [], [])
    else Tick(c, After(c, ins[..|ins|-1]), ins[|ins|-1])
  }

  lemma Unroll(c: Config, before: seq<Input>, i: Input)
    ensures After(c, before + [i]) == Tick(c, After(c, before), i)
  {
    assert (before + [i])[..|before|] == before;
  }

  /** The registers after n beats and some number of cycles. */
  function Expected(c: Config, started: bool, n: nat): Registers {
    if c.continuous then Registers(Wrap(n, c.cfg + 1), started && c.cfg > 0)
    else Registers(if n <= c.cfg then n else c.cfg, started && c.cfg > 0 && n <= c.cfg)
  }

  ghost predicate Inv(c: Config, started: bool, m: Sim) {
    && m.regs == Expected(c, started, |m.sent|)
    && (!started || c.cfg == 0 ==> m.sent == [])
    && (!c.continuous ==> |m.sent| <= c.cfg + 1)
    && |m.taken| == |m.sent|
    && forall k :: 0 <= k < |m.sent| ==>
         && m.sent[k].data == m.taken[k]
         && (m.sent[k].last <==> Wrap(k + 1, c.cfg + 1) == 0)
  }

  lemma CounterWraps(n: nat, cfg: nat)
    ensures Wrap(n + 1, cfg + 1) == if Wrap(n, cfg + 1) < cfg then Wrap(n, cfg + 1) + 1 else 0
  {
    WrapStep(n, cfg + 1);
    assert Wrap(cfg + 1, cfg + 1) == Wrap(0, cfg + 1);
  }

  lemma StepKeepsInv(c: Config, started: bool, m: Sim, i: Input)
    requires Inv(c, started, m)
    ensures Inv(c, true, Tick(c, m, i))
  {
    hide Wrap;
    CounterWraps(|m.sent|, c.cfg);
  }

  lemma {:induction false} RunKeepsInv(c: Config, ins: seq<Input>)
    ensures Inv(c, ins != [], After(c, ins))
  {
    if ins == [] {
    } else {
      RunKeepsInv(c, ins[..|ins|-1]);
      StepKeepsInv(c, ins[..|ins|-1] != [], After(c, ins[..|ins|-1]), ins[|ins|-1]);
    }
  }

  /** One-shot mode: at most cfg + 1 beats, tlast on the last of them only, then the
      core stays disabled; every beat consumed was forwarded. With cfg zero it never
      starts. */
  lemma OneShotPacket(c: Config, ins: seq<Input>)
    requires !c.continuous
    ensures var m := After(c, ins);
            && |m.sent| <= (if c.cfg == 0 then 0 else c.cfg + 1)
            && |m.taken| == |m.sent|
            && (forall k :: 0 <= k < |m.sent| ==>
                  m.sent[k].data == m.taken[k] && (m.sent[k].last <==> k == c.cfg))
            && (m.regs.enbl <==> ins != [] && c.cfg > 0 && |m.sent| <= c.cfg)
  {
    RunKeepsInv(c, ins);
    var m := After(c, ins);
    forall k | 0 <= k < |m.sent|
      ensures m.sent[k].last <==> k == c.cfg
    {
      CounterWraps(k, c.cfg);
    }
    hide After;
  }

  /** Continuous mode: tlast is on exactly every (cfg+1)-th beat and the core never
      stops once it is enabled. */
  lemma ContinuousPackets(c: Config, ins: seq<Input>)
    requires c.continuous
    ensures var m := After(c, ins);
            && |m.taken| == |m.sent|
            && (forall k :: 0 <= k < |m.sent| ==>
                  m.sent[k].data == m.taken[k] && (m.sent[k].last <==> (k + 1) % (c.cfg + 1) == 0))
            && (m.regs.enbl <==> ins != [] && c.cfg > 0)
            && (c.cfg == 0 ==> m.sent == [])
  {
    RunKeepsInv(c, ins);
    var m := After(c, ins);
    forall k | 0 <= k < |m.sent|
      ensures m.sent[k].last <==> (k + 1) % (c.cfg + 1) == 0
    {
      WrapIsRemainder(k + 1, c.cfg + 1);
    }
    hide After, Wrap;
  }

  /** The core itself; `past` is its input history since reset. */
  class Core {
    const c: Config
    var cntr: nat
    var enbl: bool
    ghost var past: seq<Input>

    ghost predicate Valid()
      reads this
    {
      Registers(cntr, enbl) == After(c, past).regs
    }

    constructor (c: Config)
      ensures Valid() && past == [] && this.c == c
    {
      this.c := c;
      cntr, enbl, past := 0, false, [];
    }

    /** One rising clock edge; the results are the outputs before it. */
    method Clock(i: Input) returns (sready: bool, mvalid: bool, mlast: bool)
      requires Valid()
      modifies this
      ensures Valid() && past == old(past) + [i]
      ensures var m, m' := After(c, old(past)), After(c, past);
              && m'.taken == m.taken + (if sready && i.svalid then [i.sdata] else [])
              && m'.sent == m.sent + (if mvalid && i.mready then [Beat(i.sdata, mlast)] else [])
      ensures var r := After(c, old(past)).regs;
              && (sready <==> r.enbl && i.mready) && (mvalid <==> r.enbl && i.svalid)
              && (mlast <==> r.enbl && r.cntr >= c.cfg)
    {
      Unroll(c, past, i);
      hide After;
      var comp := cntr < c.cfg;
      sready, mvalid, mlast := enbl && i.mready, enbl && i.svalid, enbl && !comp;
      if i.mready && mvalid {
        if comp {
          cntr := cntr + 1;
        } else if c.continuous {
          cntr := 0;
        } else {
          enbl := false;
        }
      } else if !enbl && comp {
        enbl := true;
      }
      past := past + [i];
    }
  }
}
