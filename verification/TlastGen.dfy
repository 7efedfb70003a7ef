/** cores/axis_tlast_gen_v1_0: passes a stream through and marks every pkt_length-th
    beat. */
module TlastGen {
  import opened Bits
  import P = Packetizer

  /** The generic PKT_CNTR_BITS and the constant pkt_length port. */
  datatype Config = Config(width: nat, pktLength: nat) {
    ghost predicate Valid() {
      pktLength < Modulus()
    }

    function Modulus(): nat {
      Pow2(width)
    }

    /** unsigned(pkt_length) - 1 */
    function Final(): nat {
      Wrap(pktLength + Modulus() - 1, Modulus())
    }

    /** The packet length the core realises. */
    function Length(): nat {
      if pktLength == 0 then Modulus() else pktLength
    }
  }

  type Input = P.Input

  function Next(c: Config, cnt: nat, i: Input): nat {
    if !(i.svalid && i.mready) then cnt
    else if cnt == c.Final() then 0 else Wrap(cnt + 1, c.Modulus())
  }

  datatype Sim = Sim(cnt: nat, sent: seq<P.Beat>)

  function Tick(c: Config, m: Sim, i: Input): Sim {
    Sim(Next(c, m.cnt, i),
        m.sent + if i.svalid && i.mready then [P.Beat(i.sdata, m.cnt == c.Final())] else [])
  }

  function After(c: Config, ins: seq<Input>): Sim {
    if ins == [] then Sim(0, []) else Tick(c, After(c, ins[..|ins|-1]), ins[|ins|-1])
  }

  lemma Unroll(c: Config, before: seq<Input>, i: Input)
    ensures After(c, before + [i]) == Tick(c, After(c, before), i)
  {
    assert (before + [i])[..|before|] == before;
  }

  lemma FinalIsLengthLessOne(c: Config)
    requires c.Valid()
    ensures c.Final() == c.Length() - 1
  {
    if c.pktLength > 0 {
      assert Wrap(c.pktLength + c.Modulus() - 1, c.Modulus()) == Wrap(c.pktLength - 1, c.Modulus());
    }
  }

  ghost predicate Marks(c: Config, m: Sim) {
    && m.cnt == Wrap(|m.sent|, c.Length())
    && forall k :: 0 <= k < |m.sent| ==> (m.sent[k].last <==> Wrap(k + 1, c.Length()) == 0)
  }

  lemma StepKeepsMarks(c: Config, m: Sim, i: Input)
    requires c.Valid() && Marks(c, m)
    ensures Marks(c, Tick(c, m, i))
  {
    var n := |m.sent|;
    FinalIsLengthLessOne(c);
    hide Wrap, Pow2, Config.Final;
    P.CounterWraps(n, c.Length() - 1);
    assert m.cnt < c.Length() <= c.Modulus();
    assert m.cnt != c.Final() ==> Wrap(m.cnt + 1, c.Modulus()) == m.cnt + 1;
  }

  lemma {:induction false} RunKeepsMarks(c: Config, ins: seq<Input>)
    requires c.Valid()
    ensures Marks(c, After(c, ins))
  {
    if ins == [] {
    } else {
      var before, i := ins[..|ins|-1], ins[|ins|-1];
      assert ins == before + [i];
      RunKeepsMarks(c, before);
      Unroll(c, before, i);
      hide After, Tick;
      StepKeepsMarks(c, After(c, before), i);
    }
  }

  /** tlast is on exactly every pkt_length-th beat, for any handshakes; a length port of
      zero counts the full range of the counter. */
  lemma MarksEveryPacket(c: Config, ins: seq<Input>)
    requires c.Valid()
    ensures c.Length() == if c.pktLength == 0 then Pow2(c.width) else c.pktLength
    ensures var m := After(c, ins);
            && m.cnt == |m.sent| % c.Length()
            && forall k :: 0 <= k < |m.sent| ==> (m.sent[k].last <==> (k + 1) % c.Length() == 0)
  {
    RunKeepsMarks(c, ins);
    forall k: nat
      ensures Wrap(k, c.Length()) == k % c.Length()
    {
      WrapIsRemainder(k, c.Length());
    }
    hide After, Wrap, Pow2, Config.Length;
  }

  /** Two framers agree: a continuous packetizer set to L - 1 and the generator set to L
      mark the same beats, whatever the two handshake histories. */
  lemma FramersAgree(c: Config, ins: seq<Input>, pktIns: seq<P.Input>, k: nat)
    requires c.Valid() && 2 <= c.Length()
    requires var p := P.Config(true, c.Length() - 1);
             k < |After(c, ins).sent| && k < |P.After(p, pktIns).sent|
    ensures After(c, ins).sent[k].last == P.After(P.Config(true, c.Length() - 1), pktIns).sent[k].last
  {
    MarksEveryPacket(c, ins);
    P.ContinuousPackets(P.Config(true, c.Length() - 1), pktIns);
    hide After, P.After, Wrap;
  }

  /** So do a one-shot packetizer and the generator on the one packet it forwards: both
      mark its last beat alone. The two drivers write 2^20 - 1 and 2^20. */
  lemma OneShotAgrees(c: Config, ins: seq<Input>, pktIns: seq<P.Input>, k: nat)
    requires c.Valid() && 2 <= c.Length()
    requires var p := P.Config(false, c.Length() - 1);
             k < |After(c, ins).sent| && k < |P.After(p, pktIns).sent|
    ensures k < c.Length()
    ensures After(c, ins).sent[k].last == P.After(P.Config(false, c.Length() - 1), pktIns).sent[k].last
    ensures After(c, ins).sent[k].last <==> k == c.Length() - 1
  {
    RunKeepsMarks(c, ins);
    P.OneShotPacket(P.Config(false, c.Length() - 1), pktIns);
    P.CounterWraps(k, c.Length() - 1);
    hide After, P.After;
  }

  /** Length one is the exception: the generator marks every beat, the packetizer set to
      zero never forwards one. */
  lemma FramersDifferAtOne(c: Config, ins: seq<Input>, pktIns: seq<P.Input>)
    requires c.Valid() && c.Length() == 1
    ensures forall k :: 0 <= k < |After(c, ins).sent| ==> After(c, ins).sent[k].last
    ensures P.After(P.Config(true, 0), pktIns).sent == []
  {
    RunKeepsMarks(c, ins);
    P.ContinuousPackets(P.Config(true, 0), pktIns);
    hide After, P.After;
  }

  /** The core itself; `past` is its input history since reset. */
  class Core {
    const c: Config
    var cnt: nat
    ghost var past: seq<Input>

    ghost predicate Valid()
      reads this
    {
      cnt == After(c, past).cnt
    }

    constructor (c: Config)
      ensures Valid() && past == [] && this.c == c
    {
      this.c := c;
      cnt, past := 0, [];
    }

    /** One rising clock edge; `tlast` is the mark on the beat before it. */
    method Clock(i: Input) returns (tlast: bool)
      requires Valid()
      modifies this
      ensures Valid() && past == old(past) + [i]
      ensures After(c, past).sent ==
              After(c, old(past)).sent + if i.svalid && i.mready then [P.Beat(i.sdata, tlast)] else []
      ensures tlast <==> After(c, old(past)).cnt == c.Final()
    {
      Unroll(c, past, i);
      hide After;
      tlast := cnt == Wrap(c.pktLength + c.Modulus() - 1, c.Modulus());
      if i.svalid && i.mready {
        cnt := if tlast then 0 else Wrap(cnt + 1, c.Modulus());
      }
      past := past + [i];
    }
  }
}
