/** The interpolator wired into the decimator with the same factor: what goes in comes
    out again, in order. */
module RateChain {
  import opened Streams
  import I = Interpolator
  import D = Decimator

  /** One cycle's inputs: the source of the interpolator, the sink of the decimator. */
  datatype Input = Input(svalid: bool, sdata: nat, mready: bool)

  function ToInterpolator(d: D.Registers, i: Input): I.Input {
    I.Input(i.svalid, i.sdata, d.tready)
  }

  function ToDecimator(r: I.Registers, i: Input): D.Input {
    D.Input(r.tvalid, r.tdata, i.mready)
  }

  /** The input histories the two cores see, clocked together. */
  function Feeds(cfg: nat, ins: seq<Input>): (seq<I.Input>, seq<D.Input>) {
    if ins == [] then ([], [])
    else
      var (a, b) := Feeds(cfg, ins[..|ins|-1]);
      var i := ins[|ins|-1];
      (a + [ToInterpolator(D.After(cfg, b).regs, i)], b + [ToDecimator(I.After(cfg, a).regs, i)])
  }

  /** The beats the interpolator sends are the beats the decimator takes. */
  lemma {:induction false} SameBeats(cfg: nat, ins: seq<Input>)
    ensures var (a, b) := Feeds(cfg, ins); I.After(cfg, a).sent == D.After(cfg, b).accepted
  {
    if ins == [] {
    } else {
      var before, i := ins[..|ins|-1], ins[|ins|-1];
      SameBeats(cfg, before);
      var (a, b) := Feeds(cfg, before);
      I.Unroll(cfg, a, ToInterpolator(D.After(cfg, b).regs, i));
      D.Unroll(cfg, b, ToDecimator(I.After(cfg, a).regs, i));
      hide I.After, D.After, I.Next, D.Next;
    }
  }

  /** Round trip: over any schedule in which no kept word is replaced, the words that
      have left, with the one still waiting, are a prefix of the words that went in, and
      all of them whenever the interpolator has nothing in flight. */
  lemma RoundTripInOrder(cfg: nat, ins: seq<Input>)
    requires var (a, b) := Feeds(cfg, ins); D.After(cfg, b).lost == []
    ensures var (a, b) := Feeds(cfg, ins);
            var m, d := I.After(cfg, a), D.After(cfg, b);
            && d.sent + D.Pending(d.regs) <= m.accepted
            && (!m.regs.tvalid ==> d.sent + D.Pending(d.regs) == m.accepted)
  {
    var (a, b) := Feeds(cfg, ins);
    SameBeats(cfg, ins);
    I.RefinesRepeatEach(cfg, a);
    D.RefinesEveryNth(cfg, b);
    var m := I.After(cfg, a);
    RoundTrip(m.sent, m.accepted, cfg + 1);
    hide I.After, D.After, EveryNth, RepeatEach;
  }

  /** A sink that is always ready is such a schedule. */
  lemma {:induction false} ReadySinkLosesNothing(cfg: nat, ins: seq<Input>)
    requires forall k :: 0 <= k < |ins| ==> ins[k].mready
    ensures var (a, b) := Feeds(cfg, ins); D.After(cfg, b).lost == []
  {
    if ins == [] {
    } else {
      var before, i := ins[..|ins|-1], ins[|ins|-1];
      ReadySinkLosesNothing(cfg, before);
      var (a, b) := Feeds(cfg, before);
      D.Unroll(cfg, b, ToDecimator(I.After(cfg, a).regs, i));
      hide I.After, D.After;
    }
  }
}
