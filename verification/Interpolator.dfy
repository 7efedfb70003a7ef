/** cores/axis_interpolator_v1_0: repeats each accepted beat cfg + 1 times under
    backpressure. The counter is compared with cfg before it is stepped, so it never
    leaves its register. */
module Interpolator {
  import opened Streams

  datatype Input = Input(svalid: bool, sdata: nat, mready: bool)

  datatype Registers = Registers(tdata: nat, cntr: nat, tvalid: bool)

  function Next(cfg: nat, r: Registers, i: Input): Registers {
    var load := i.svalid && !r.tvalid;
    var sent := i.mready && r.tvalid;
    Registers(
      if load then i.sdata else r.tdata,
      if sent then (if r.cntr < cfg then r.cntr + 1 else 0) else r.cntr,
      if load then true else if sent && r.cntr >= cfg then false else r.tvalid)
  }

  /** The registers with the beats accepted and transferred so far. */
  datatype Sim = Sim(regs: Registers, accepted: seq<nat>, sent: seq<nat>)

  function Tick(cfg: nat, m: Sim, i: Input): Sim {
    Sim(Next(cfg, m.regs, i),
        m.accepted + if !m.regs.tvalid && i.svalid then [i.sdata] else [],
        m.sent + if m.regs.tvalid && i.mready then [m.regs.tdata] else [])
  }

  function After(cfg: nat, ins: seq<Input>): Sim {
    if ins == [] then Sim(Registers(0, 0, false), [], [])
    else Tick(cfg, After(cfg, ins[..|ins|-1]), ins[|ins|-1])
  }

  lemma Unroll(cfg: nat, before: seq<Input>, i: Input)
    ensures After(cfg, before + [i]) == Tick(cfg, After(cfg, before), i)
  {
    assert (before + [i])[..|before|] == before;
  }

  /** The port state is a function of the history: while a beat is in flight, it is the
      last one accepted, and all but its remaining copies have been sent. */
  ghost predicate Inv(cfg: nat, m: Sim) {
    var r, n := m.regs, |m.accepted|;
    if r.tvalid then
      && r.cntr <= cfg && 0 < n && r.tdata == m.accepted[n - 1]
      && m.sent == RepeatEach(m.accepted[..n - 1], cfg + 1) + Copies(r.tdata, r.cntr)
    else
      r.cntr == 0 && m.sent == RepeatEach(m.accepted, cfg + 1)
  }

  lemma StepKeepsInv(cfg: nat, m: Sim, i: Input)
    requires Inv(cfg, m)
    ensures Inv(cfg, Tick(cfg, m, i))
  {
    if m.regs.tvalid {
      BusyStep(cfg, m, i);
    } else {
      FreeStep(cfg, m, i);
    }
  }

  /** A beat is in flight: the sink takes another copy of it, or nothing happens. */
  lemma BusyStep(cfg: nat, m: Sim, i: Input)
    requires Inv(cfg, m) && m.regs.tvalid
    ensures Inv(cfg, Tick(cfg, m, i))
  {
    hide RepeatEach, Copies;
    var r, m' := m.regs, Tick(cfg, m, i);
    var front := m.accepted[..|m.accepted| - 1];
    assert m'.accepted == m.accepted == front + [r.tdata];
    if i.mready {
      RepeatSnoc(front, r.tdata, cfg + 1);
      CopiesSnoc(r.tdata, r.cntr);
      assert m'.sent == RepeatEach(front, cfg + 1) + (Copies(r.tdata, r.cntr) + [r.tdata]);
    } else {
      assert m'.sent == m.sent;
    }
  }

  /** Nothing is in flight: the next beat is accepted, or nothing happens. */
  lemma FreeStep(cfg: nat, m: Sim, i: Input)
    requires Inv(cfg, m) && !m.regs.tvalid
    ensures Inv(cfg, Tick(cfg, m, i))
  {
    hide RepeatEach;
    var m' := Tick(cfg, m, i);
    assert m'.sent == m.sent == m.sent + [];
    if i.svalid {
      assert m'.accepted[..|m.accepted|] == m.accepted;
      assert Copies(i.sdata, 0) == [];
    } else {
      assert m'.accepted == m.accepted;
    }
  }

  lemma CopiesSnoc(x: nat, n: nat)
    ensures Copies(x, n + 1) == Copies(x, n) + [x]
  {
  }

  lemma {:induction false} RunKeepsInv(cfg: nat, ins: seq<Input>)
    ensures Inv(cfg, After(cfg, ins))
  {
    if ins == [] {
    } else {
      RunKeepsInv(cfg, ins[..|ins|-1]);
      StepKeepsInv(cfg, After(cfg, ins[..|ins|-1]), ins[|ins|-1]);
    }
  }

  /** For any source and sink stalls the transferred beats are a prefix of the accepted
      ones each repeated cfg + 1 times; the core takes a new beat exactly when nothing
      is outstanding, so at most one is in flight. */
  lemma RefinesRepeatEach(cfg: nat, ins: seq<Input>)
    ensures var m := After(cfg, ins);
            && m.sent <= RepeatEach(m.accepted, cfg + 1)
            && (!m.regs.tvalid <==> m.sent == RepeatEach(m.accepted, cfg + 1))
            && (m.regs.tvalid ==>
                  && m.accepted != [] && m.regs.tdata == m.accepted[|m.accepted|-1]
                  && RepeatEach(m.accepted[..|m.accepted|-1], cfg + 1) <= m.sent)
  {
    RunKeepsInv(cfg, ins);
    hide RepeatEach, After, Copies;
    var m := After(cfg, ins);
    var r, n := m.regs, |m.accepted|;
    if r.tvalid {
      var front := m.accepted[..n - 1];
      assert m.accepted == front + [r.tdata];
      RepeatSnoc(front, r.tdata, cfg + 1);
      CopiesPrefix(r.tdata, r.cntr, cfg + 1);
      assert |m.sent| < |RepeatEach(m.accepted, cfg + 1)|;
    }
  }

  lemma CopiesPrefix(x: nat, k: nat, n: nat)
    requires k <= n
    ensures Copies(x, k) <= Copies(x, n)
  {
  }

  /** Data never changes while valid is high and ready is low (section 2.2 of ARM IHI
      0051A). */
  lemma StableWhileStalled(cfg: nat, r: Registers, i: Input)
    ensures r.tvalid && !i.mready ==> Next(cfg, r, i) == r
  {
  }

  /** The core itself; `past` is its input history since reset. */
  class Core {
    const cfg: nat
    var tdata: nat
    var cntr: nat
    var tvalid: bool
    ghost var past: seq<Input>

    ghost predicate Valid()
      reads this
    {
      Registers(tdata, cntr, tvalid) == After(cfg, past).regs
    }

    constructor (cfg: nat)
      ensures Valid() && past == [] && this.cfg == cfg
    {
      this.cfg := cfg;
      tdata, cntr, tvalid, past := 0, 0, false, [];
    }

    /** One rising clock edge; the results are the outputs before it. */
    method Clock(i: Input) returns (sready: bool, mvalid: bool, mdata: nat)
      requires Valid()
      modifies this
      ensures Valid() && past == old(past) + [i]
      ensures var m, m' := After(cfg, old(past)), After(cfg, past);
              && m'.accepted == m.accepted + (if sready && i.svalid then [i.sdata] else [])
              && m'.sent == m.sent + (if mvalid && i.mready then [mdata] else [])
      ensures var r := After(cfg, old(past)).regs; sready == !r.tvalid && mvalid == r.tvalid && mdata == r.tdata
    {
      Unroll(cfg, past, i);
      hide After;
      sready, mvalid, mdata := !tvalid, tvalid, tdata;
      if i.svalid && !tvalid {
        tdata, tvalid := i.sdata, true;
      } else if i.mready && tvalid {
        if cntr < cfg {
          cntr := cntr + 1;
        } else {
          cntr, tvalid := 0, false;
        }
      }
      past := past + [i];
    }
  }
}
