/** cores/axis_ram_writer_v1_0: drains a FIFO into a ring of RAM words with 16-beat
    AXI3 bursts. The address channel is driven live from the beat counter, so the
    pairing of addresses with data rests on the order in which the slave takes them. */
module RamWriter {
  import opened Bits
  import opened Options

  const BURST := 16        // m_axi_awlen is 15
  const BEAT_BYTES := 8    // m_axi_awsize is clogb2(8 - 1)
  const ADDRESS_SPACE := 0x1_0000_0000

  /** Generics, the base address on cfg_data, and the abstract FIFO: its almost-empty
      flag is high while it holds at most `threshold` words, its full flag while it
      holds at least `depth`. */
  datatype Config = Config(addrWidth: nat, idWidth: nat, base: nat, threshold: nat, depth: nat) {
    ghost predicate Valid() {
      4 <= addrWidth && BURST <= threshold
    }

    function Ring(): nat {
      Pow2(addrWidth)
    }

    function Ids(): nat {
      Pow2(idWidth)
    }

    /** m_axi_awaddr for a beat counter. */
    function Address(beat: nat): nat {
      Wrap(base + BEAT_BYTES * beat, ADDRESS_SPACE)
    }
  }

  datatype Input<T> = Input(awready: bool, wready: bool, svalid: bool, sdata: T)

  datatype Registers<T> =
    Registers(awvalid: bool, wvalid: bool, addr: nat, wid: nat, fifo: seq<T>) {

    predicate Last() {
      addr % BURST == BURST - 1
    }

    predicate AlmostEmpty(c: Config) {
      |fifo| <= c.threshold
    }

    predicate Idle(c: Config) {
      !wvalid && !awvalid && AlmostEmpty(c)
    }

    predicate Ready(c: Config) {
      |fifo| < c.depth
    }

    /** What the FIFO shows on its output; nothing meaningful when it is empty. */
    function Head(): Option<T> {
      if fifo == [] then None else Some(fifo[0])
    }
  }

  function Next<T>(c: Config, r: Registers<T>, i: Input<T>): Registers<T> {
    var empty := r.AlmostEmpty(c);
    var start := !empty && !r.awvalid && !r.wvalid;
    var read := i.wready && r.wvalid;
    var popped := if read && r.fifo != [] then r.fifo[1..] else r.fifo;
    Registers(
      if start || (i.wready && r.Last() && !empty) then true
      else if i.awready && r.awvalid then false else r.awvalid,
      if start then true
      else if i.wready && r.Last() && empty then false else r.wvalid,
      if read then Wrap(r.addr + 1, c.Ring()) else r.addr,
      if i.wready && r.Last() then Wrap(r.wid + 1, c.Ids()) else r.wid,
      popped + if i.svalid && r.Ready(c) then [i.sdata] else [])
  }

  datatype AwBeat = AwBeat(addr: nat, id: nat)

  datatype WBeat<T> = WBeat(data: Option<T>, id: nat, last: bool)

  /** The registers with everything the handshakes have transferred so far. */
  datatype Sim<T> = Sim(regs: Registers<T>, taken: seq<T>, aws: seq<AwBeat>, ws: seq<WBeat<T>>)

  function Reset<T>(): Sim<T> {
    Sim(Registers(false, false, 0, 0, []), [], [], [])
  }

  function Tick<T>(c: Config, s: Sim<T>, i: Input<T>): Sim<T> {
    var r := s.regs;
    Sim(Next(c, r, i),
        s.taken + if i.svalid && r.Ready(c) then [i.sdata] else [],
        s.aws + if r.awvalid && i.awready then [AwBeat(c.Address(r.addr), r.wid)] else [],
        s.ws + if r.wvalid && i.wready then [WBeat(r.Head(), r.wid, r.Last())] else [])
  }

  function After<T>(c: Config, ins: seq<Input<T>>): Sim<T> {
    if ins == [] then Reset() else Tick(c, After(c, ins[..|ins|-1]), ins[|ins|-1])
  }

  lemma Unroll<T>(c: Config, before: seq<Input<T>>, i: Input<T>)
    ensures After(c, before + [i]) == Tick(c, After(c, before), i)
  {
    assert (before + [i])[..|before|] == before;
  }

  /** The slave takes a data beat while an address waits only together with it. */
  predicate Ordered<T>(r: Registers<T>, i: Input<T>) {
    r.awvalid && r.wvalid && i.wready ==> i.awready
  }

  predicate OrderedRun<T>(c: Config, ins: seq<Input<T>>) {
    ins == [] ||
    var before := ins[..|ins|-1];
    OrderedRun(c, before) && Ordered(After(c, before).regs, ins[|ins|-1])
  }

  // ---------------------------------------------------------------- invariant

  /** The k-th address beat belongs to the k-th group of sixteen words. */
  ghost predicate AddressesPaired(c: Config, aws: seq<AwBeat>) {
    forall k {:trigger aws[k]} :: 0 <= k < |aws| ==>
      aws[k] == AwBeat(c.Address(Wrap(BURST * k, c.Ring())), Wrap(k, c.Ids()))
  }

  /** The data beats are the accepted words in order, framed in sixteens. */
  ghost predicate DataFaithful<T>(c: Config, taken: seq<T>, ws: seq<WBeat<T>>) {
    && |ws| <= |taken|
    && forall n {:trigger ws[n]} :: 0 <= n < |ws| ==>
         ws[n] == WBeat(Some(taken[n]), Wrap(n / BURST, c.Ids()), n % BURST == BURST - 1)
  }

  /** The registers after n data beats and h address beats. */
  ghost predicate Control<T>(c: Config, r: Registers<T>, n: nat, h: nat) {
    && r.addr == Wrap(n, c.Ring())
    && r.wid == Wrap(n / BURST, c.Ids())
    && (r.awvalid ==> r.wvalid && n % BURST == 0)
    && (!r.wvalid ==> n % BURST == 0)
    && (r.wvalid ==> |r.fifo| >= BURST - n % BURST)
    && h + Bit(r.awvalid) == n / BURST + Bit(r.wvalid)
  }

  ghost predicate Inv<T>(c: Config, s: Sim<T>) {
    && Control(c, s.regs, |s.ws|, |s.aws|)
    && AddressesPaired(c, s.aws)
    && DataFaithful(c, s.taken, s.ws)
    && s.regs.fifo == s.taken[|s.ws|..]
  }

  lemma LastOfBurst<T>(c: Config, r: Registers<T>, n: nat)
    requires c.Valid() && r.addr == Wrap(n, c.Ring())
    ensures r.Last() <==> n % BURST == BURST - 1
  {
    Pow2Sixteen(c.addrWidth);
    WrapLowBits16(n, Pow2(c.addrWidth - 4));
  }

  lemma ControlStep<T>(c: Config, r: Registers<T>, n: nat, h: nat, i: Input<T>)
    requires c.Valid() && Control(c, r, n, h) && Ordered(r, i)
    ensures Control(c, Next(c, r, i), n + Bit(r.wvalid && i.wready), h + Bit(r.awvalid && i.awready))
  {
    hide Wrap, Pow2;
    LastOfBurst(c, r, n);
    WrapStep(n, c.Ring());
    WrapStep(n / BURST, c.Ids());
    NextBeat(n);
  }

  lemma NextBeat(n: nat)
    ensures n % 16 == 15 ==> (n + 1) / 16 == n / 16 + 1 && (n + 1) % 16 == 0
    ensures n % 16 < 15 ==> (n + 1) / 16 == n / 16 && (n + 1) % 16 == n % 16 + 1
  {
  }

  lemma AddressStep<T>(c: Config, s: Sim<T>, i: Input<T>)
    requires c.Valid() && Inv(c, s)
    ensures AddressesPaired(c, Tick(c, s, i).aws)
  {
    hide Wrap, Pow2, Next;
  }

  lemma DataStep<T>(c: Config, s: Sim<T>, i: Input<T>)
    requires c.Valid() && Inv(c, s)
    ensures var s' := Tick(c, s, i);
            DataFaithful(c, s'.taken, s'.ws) && s'.regs.fifo == s'.taken[|s'.ws|..]
  {
    LastOfBurst(c, s.regs, |s.ws|);
    hide Wrap, Pow2;
  }

  lemma TickLengths<T>(c: Config, s: Sim<T>, i: Input<T>)
    ensures var r, s' := s.regs, Tick(c, s, i);
            && s'.regs == Next(c, r, i)
            && |s'.ws| == |s.ws| + Bit(r.wvalid && i.wready)
            && |s'.aws| == |s.aws| + Bit(r.awvalid && i.awready)
  {
  }

  lemma StepKeepsInv<T>(c: Config, s: Sim<T>, i: Input<T>)
    requires c.Valid() && Inv(c, s) && Ordered(s.regs, i)
    ensures Inv(c, Tick(c, s, i))
  {
    hide Next, Control, AddressesPaired, DataFaithful;
    ControlStep(c, s.regs, |s.ws|, |s.aws|, i);
    AddressStep(c, s, i);
    DataStep(c, s, i);
    TickLengths(c, s, i);
    hide Tick;
  }

  /** Every reachable state keeps the interlocking invariant. */
  lemma {:induction false} RunKeepsInv<T>(c: Config, ins: seq<Input<T>>)
    requires c.Valid() && OrderedRun(c, ins)
    ensures Inv(c, After(c, ins))
  {
    if ins == [] {
    } else {
      RunKeepsInv(c, ins[..|ins|-1]);
      StepKeepsInv(c, After(c, ins[..|ins|-1]), ins[|ins|-1]);
    }
  }

  // ------------------------------------------------------------ main theorems

  /** Address and data channels agree: the k-th address handshake carries ID k and the
      byte address of word 16 k of the ring, the data beats are the accepted words with
      the ID of their group of sixteen, and wlast closes each group. */
  ghost predicate Paired<T>(c: Config, s: Sim<T>) {
    && |s.aws| + Bit(s.regs.awvalid) == |s.ws| / 16 + Bit(s.regs.wvalid)
    && (forall k :: 0 <= k < |s.aws| ==>
          && s.aws[k].addr == BurstAddress(c, k) == (c.base + 8 * (16 * k % Pow2(c.addrWidth))) % 0x1_0000_0000
          && s.aws[k].id == k % Pow2(c.idWidth))
    && (forall n :: 0 <= n < |s.ws| ==>
          && n < |s.taken| && s.ws[n].data == Some(s.taken[n])
          && (s.ws[n].last <==> n % 16 == 15)
          && n / 16 < |s.aws|
          && s.ws[n].id == n / 16 % Pow2(c.idWidth))
    && |s.ws| <= |s.taken|
    && s.regs.fifo == s.taken[|s.ws|..]
  }

  /** They agree on every run with an ordered slave. */
  lemma AddressDataPairing<T>(c: Config, ins: seq<Input<T>>)
    requires c.Valid() && OrderedRun(c, ins)
    ensures Paired(c, After(c, ins))
  {
    hide *;
    RunKeepsInv(c, ins);
    InvPaired(c, After(c, ins));
  }

  lemma InvPaired<T>(c: Config, s: Sim<T>)
    requires Inv(c, s)
    ensures Paired(c, s)
  {
    hide Inv, Wrap, Pow2, BurstAddress, Config.Address, Config.Ids, Config.Ring;
    Counted(c, s);
    forall k | 0 <= k < |s.aws|
      ensures s.aws[k].addr == BurstAddress(c, k) == (c.base + 8 * (16 * k % Pow2(c.addrWidth))) % 0x1_0000_0000
      ensures s.aws[k].id == k % Pow2(c.idWidth)
    {
      PairedAddress(c, s, k);
    }
    forall n | 0 <= n < |s.ws|
      ensures n < |s.taken| && s.ws[n].data == Some(s.taken[n])
      ensures s.ws[n].last <==> n % 16 == 15
      ensures n / 16 < |s.aws| && s.ws[n].id == n / 16 % Pow2(c.idWidth)
    {
      FramedData(c, s, n);
    }
  }

  lemma Counted<T>(c: Config, s: Sim<T>)
    requires Inv(c, s)
    ensures |s.aws| + Bit(s.regs.awvalid) == |s.ws| / 16 + Bit(s.regs.wvalid)
    ensures |s.ws| <= |s.taken| && s.regs.fifo == s.taken[|s.ws|..]
  {
    hide Wrap, Pow2, AddressesPaired;
  }

  lemma PairedAddress<T>(c: Config, s: Sim<T>, k: nat)
    requires Inv(c, s) && k < |s.aws|
    ensures s.aws[k].addr == BurstAddress(c, k) == (c.base + 8 * (16 * k % Pow2(c.addrWidth))) % 0x1_0000_0000
    ensures s.aws[k].id == k % Pow2(c.idWidth)
  {
    AddressNumbers(c, k);
    assert s.aws[k] == AwBeat(c.Address(Wrap(BURST * k, c.Ring())), Wrap(k, c.Ids()));
    hide *;
  }

  lemma FramedData<T>(c: Config, s: Sim<T>, n: nat)
    requires Inv(c, s) && n < |s.ws|
    ensures n < |s.taken| && s.ws[n].data == Some(s.taken[n])
    ensures s.ws[n].last <==> n % 16 == 15
    ensures n / 16 < |s.aws| && s.ws[n].id == n / 16 % Pow2(c.idWidth)
  {
    AddressTaken(c, s, n);
    AddressNumbers(c, n / 16);
    hide Control, AddressesPaired, Wrap, Pow2, Config.Address, Config.Ids, Config.Ring;
  }

  /** Address and ID of the k-th burst, written out. */
  lemma AddressNumbers(c: Config, k: nat)
    ensures c.Address(Wrap(BURST * k, c.Ring())) == (c.base + 8 * (16 * k % Pow2(c.addrWidth))) % 0x1_0000_0000
    ensures BurstAddress(c, k) == c.Address(Wrap(BURST * k, c.Ring()))
    ensures Wrap(k, c.Ids()) == k % Pow2(c.idWidth)
  {
    WrapIsRemainder(16 * k, c.Ring());
    WrapIsRemainder(k, c.Ids());
    WrapIsRemainder(c.base + BEAT_BYTES * Wrap(BURST * k, c.Ring()), ADDRESS_SPACE);
    hide Wrap, Pow2;
  }

  lemma AddressTaken<T>(c: Config, s: Sim<T>, n: nat)
    requires Inv(c, s) && n < |s.ws|
    ensures n / BURST < |s.aws|
  {
    var all := |s.ws|;
    if all % BURST == 0 {
      assert all == BURST * (all / BURST);
    }
  }

  /** A waiting address and a waiting data beat do not change (sections A3.2.1 and
      A3.2.2 of ARM IHI 0022). */
  lemma StableWhileWaiting<T>(c: Config, s: Sim<T>, i: Input<T>)
    requires c.Valid() && Inv(c, s) && Ordered(s.regs, i)
    ensures var r, r' := s.regs, Next(c, s.regs, i);
            && (r.awvalid && !i.awready ==> r'.awvalid && r'.addr == r.addr && r'.wid == r.wid)
            && (r.wvalid && !i.wready ==>
                  && r'.wvalid && r.Head().Some? && r'.Head() == r.Head()
                  && r'.wid == r.wid && r'.Last() == r.Last())
  {
    LastOfBurst(c, s.regs, |s.ws|);
  }

  /** The byte address of the k-th burst. */
  function BurstAddress(c: Config, k: nat): nat {
    c.Address(Wrap(BURST * k, c.Ring()))
  }

  predicate StaysInPage(start: nat) {
    start % 4096 + BURST * BEAT_BYTES <= 4096
  }

  lemma AlignedStart(base: nat, beat: nat)
    requires base % 128 == 0 && beat % 16 == 0
    ensures StaysInPage((base + 8 * beat) % ADDRESS_SPACE)
  {
    hide StaysInPage;
    var a := base + 8 * beat;
    PageRoom(a % ADDRESS_SPACE);
    PageOffset(a);
    LastAligned(base, beat);
  }

  lemma LastAligned(base: nat, beat: nat)
    requires base % 128 == 0 && beat % 16 == 0
    ensures (base + 8 * beat) % 4096 <= 3968
  {
    assert base + 8 * beat == 128 * (base / 128 + beat / 16);
  }

  /** Wrapping a 32-bit address does not move it in its page. */
  lemma PageOffset(a: nat)
    ensures (a % 0x1_0000_0000) % 4096 == a % 4096
  {
    var q, r := a / 0x1_0000_0000, a % 0x1_0000_0000;
    assert a == 4096 * (0x10_0000 * q) + r;
    AddPages(0x10_0000 * q, r);
  }

  lemma AddPages(k: nat, r: nat)
    ensures (4096 * k + r) % 4096 == r % 4096
  {
  }

  lemma PageRoom(start: nat)
    ensures StaysInPage(start) <==> start % 4096 <= 3968
  {
  }

  lemma AlignedBurst(c: Config, k: nat)
    requires 4 <= c.addrWidth && c.base % 128 == 0
    ensures StaysInPage(BurstAddress(c, k))
  {
    hide Wrap, StaysInPage;
    var beat := BurstBeat(c, k);
    WrapIsRemainder(c.base + BEAT_BYTES * beat, ADDRESS_SPACE);
    AlignedStart(c.base, beat);
  }

  /** The beat counter at the start of the k-th burst. */
  lemma BurstBeat(c: Config, k: nat) returns (beat: nat)
    requires 4 <= c.addrWidth
    ensures beat == Wrap(BURST * k, c.Ring()) && beat % 16 == 0 && beat + 16 <= c.Ring()
  {
    hide Wrap;
    Pow2Sixteen(c.addrWidth);
    hide Pow2;
    WrapLowBits16(BURST * k, Pow2(c.addrWidth - 4));
    beat := Wrap(BURST * k, c.Ring());
    Multiples16(beat, Pow2(c.addrWidth - 4));
  }

  lemma Multiples16(beat: nat, q: nat)
    requires beat % 16 == 0 && beat < 16 * q
    ensures beat + 16 <= 16 * q
  {
  }

  /** A ring that lies inside one page keeps every burst there, aligned or not. */
  lemma InsideBurst(c: Config, k: nat)
    requires 4 <= c.addrWidth && c.base % 4096 + BEAT_BYTES * c.Ring() <= 4096
    ensures StaysInPage(BurstAddress(c, k))
  {
    var beat := BurstBeat(c, k);
    hide Wrap, Pow2, StaysInPage;
    WrapIsRemainder(c.base + BEAT_BYTES * beat, ADDRESS_SPACE);
    InPage(c.base, 8 * beat);
    PageOffset(c.base + 8 * beat);
    PageRoom((c.base + 8 * beat) % ADDRESS_SPACE);
  }

  lemma UnalignedStart(base: nat, k: nat)
    requires base % 128 != 0 && k == (4095 - base % 4096) / 128
    ensures base % 4096 + 128 * k < 4096 && !StaysInPage((base + 8 * (16 * k)) % ADDRESS_SPACE)
  {
    hide StaysInPage;
    var r := base % 4096;
    OffPage(base);
    LastStart(r, k);
    InPage(base, 128 * k);
    PageOffset(base + 128 * k);
    PageRoom((base + 128 * k) % ADDRESS_SPACE);
  }

  lemma OffPage(base: nat)
    requires base % 128 != 0
    ensures (base % 4096) % 128 != 0
  {
    var q, r := base / 4096, base % 4096;
    assert base == 128 * (32 * q) + r;
    AddLines(32 * q, r);
  }

  lemma AddLines(k: nat, r: nat)
    ensures (128 * k + r) % 128 == r % 128
  {
  }

  lemma LastStart(r: nat, k: nat)
    requires r < 4096 && r % 128 != 0 && k == (4095 - r) / 128
    ensures k < 32 && 3968 < r + 128 * k < 4096
  {
  }

  lemma InPage(base: nat, d: nat)
    requires base % 4096 + d < 4096
    ensures (base + d) % 4096 == base % 4096 + d
  {
  }

  /** An unaligned base crosses at the last burst that starts in its page, if the ring
      reaches that far. */
  lemma UnalignedBurst(c: Config) returns (k: nat)
    requires c.base % 128 != 0 && c.base % 4096 + BEAT_BYTES * c.Ring() > 4096
    ensures !StaysInPage(BurstAddress(c, k))
  {
    hide Wrap, StaysInPage, Pow2;
    k := (4095 - c.base % 4096) / 128;
    UnalignedStart(c.base, k);
    assert Wrap(BURST * k, c.Ring()) == BURST * k;
    WrapIsRemainder(c.base + BEAT_BYTES * (BURST * k), ADDRESS_SPACE);
  }

  /** No burst crosses a 4 KB boundary (section A3.4.1 of ARM IHI 0022) exactly when the
      base is 128-byte aligned or the whole ring lies inside one page. */
  lemma BurstsStayInPage(c: Config)
    requires 4 <= c.addrWidth
    ensures (forall k: nat :: StaysInPage(BurstAddress(c, k)))
       <==> c.base % 128 == 0 || c.base % 4096 + BEAT_BYTES * c.Ring() <= 4096
  {
    if c.base % 128 == 0 {
      forall k: nat
        ensures StaysInPage(BurstAddress(c, k))
      {
        AlignedBurst(c, k);
      }
    } else if c.base % 4096 + BEAT_BYTES * c.Ring() <= 4096 {
      forall k: nat
        ensures StaysInPage(BurstAddress(c, k))
      {
        InsideBurst(c, k);
      }
    } else {
      var k := UnalignedBurst(c);
    }
  }

  // ---------------------------------------------------------------- RAM image

  /** RAM contents by byte address of the 8-byte word. */
  type Ram<T> = nat -> T

  function Put<T>(m: Ram<T>, a: nat, v: T): Ram<T> {
    (x: nat) => if x == a then v else m(x)
  }

  /** What the slave stores: beat n of the data channel goes to place n mod 16 of the
      burst whose address is the (n / 16)-th on the address channel. */
  function Stored<T>(initial: Ram<T>, aws: seq<AwBeat>, ws: seq<WBeat<T>>): Ram<T> {
    if ws == [] then initial
    else
      var n := |ws| - 1;
      var m := Stored(initial, aws, ws[..n]);
      if n / BURST < |aws| && ws[n].data.Some?
      then Put(m, aws[n / BURST].addr + BEAT_BYTES * (n % BURST), ws[n].data.value) else m
  }

  /** Counting on inside a burst does not leave the ring. */
  lemma WrapInBurst(c: Config, k: nat, j: nat)
    requires c.Valid() && j < BURST
    ensures Wrap(BURST * k + j, c.Ring()) == Wrap(BURST * k, c.Ring()) + j
  {
    hide Wrap;
    Pow2Sixteen(c.addrWidth);
    hide Pow2;
    WrapLowBits16(BURST * k, Pow2(c.addrWidth - 4));
    WrapAdd(BURST * k, j, c.Ring());
    assert Wrap(BURST * k, c.Ring()) % 16 == 0;
  }

  lemma BeatPlace(c: Config, aws: seq<AwBeat>, k: nat, j: nat)
    requires c.Valid() && AddressesPaired(c, aws) && k < |aws| && j < BURST
    requires c.base + BEAT_BYTES * c.Ring() <= ADDRESS_SPACE
    ensures aws[k].addr + BEAT_BYTES * j == c.base + BEAT_BYTES * Wrap(BURST * k + j, c.Ring())
  {
    assert aws[k].addr == c.Address(Wrap(BURST * k, c.Ring()));
    hide Wrap, Pow2, Config.Address, AddressesPaired;
    WrapInBurst(c, k, j);
    AddressInside(c, Wrap(BURST * k, c.Ring()));
  }

  lemma AddressInside(c: Config, beat: nat)
    requires c.base + BEAT_BYTES * c.Ring() <= ADDRESS_SPACE && beat < c.Ring()
    ensures c.Address(beat) == c.base + BEAT_BYTES * beat
  {
  }

  /** One more data beat is one more word at its ring place. */
  lemma StoredStep<T>(c: Config, initial: Ram<T>, s: Sim<T>, n: nat)
    requires c.Valid() && Inv(c, s) && c.base + BEAT_BYTES * c.Ring() <= ADDRESS_SPACE
    requires n < |s.ws|
    ensures n < |s.taken|
    ensures Stored(initial, s.aws, s.ws[..n + 1])
         == Put(Stored(initial, s.aws, s.ws[..n]), c.base + BEAT_BYTES * Wrap(n, c.Ring()), s.taken[n])
  {
    hide Wrap, Pow2, Control, Config.Address;
    var ws := s.ws[..n + 1];
    assert ws[..n] == s.ws[..n] && ws[n] == s.ws[n] && ws[n].data == Some(s.taken[n]);
    AddressTaken(c, s, n);
    BeatPlace(c, s.aws, n / BURST, n % BURST);
    assert BURST * (n / BURST) + n % BURST == n;
  }

  lemma {:induction false} PrefixImage<T>(c: Config, initial: Ram<T>, s: Sim<T>, n: nat, k: nat)
    requires c.Valid() && Inv(c, s) && c.base + BEAT_BYTES * c.Ring() <= ADDRESS_SPACE
    requires k < n <= |s.ws| && n <= k + c.Ring()
    ensures k < |s.taken|
    ensures Stored(initial, s.aws, s.ws[..n])(c.base + BEAT_BYTES * Wrap(k, c.Ring())) == s.taken[k]
  {
    var last := n - 1;
    hide Wrap, Pow2, Control, Stored, Inv;
    StoredStep(c, initial, s, last);
    if k == last {
    } else {
      PrefixImage(c, initial, s, last, k);
      WrapInjective(k, last, c.Ring());
    }
  }

  /** RAM is the ring image of the accepted words: the word accepted as number k sits
      at ring place k until the writer has gone all the way around. */
  lemma RingImage<T>(c: Config, initial: Ram<T>, ins: seq<Input<T>>, k: nat)
    requires c.Valid() && OrderedRun(c, ins)
    requires c.base + BEAT_BYTES * c.Ring() <= ADDRESS_SPACE
    requires var n := |After(c, ins).ws|; k < n <= k + c.Ring()
    ensures var s := After(c, ins);
            && k < |s.taken|
            && Stored(initial, s.aws, s.ws)(c.base + BEAT_BYTES * Wrap(k, c.Ring())) == s.taken[k]
  {
    RunKeepsInv(c, ins);
    var s := After(c, ins);
    assert s.ws[..|s.ws|] == s.ws;
    PrefixImage(c, initial, s, |s.ws|, k);
  }

  lemma {:induction false} PrefixUntouched<T>(c: Config, initial: Ram<T>, s: Sim<T>, n: nat, place: nat)
    requires c.Valid() && Inv(c, s) && c.base + BEAT_BYTES * c.Ring() <= ADDRESS_SPACE
    requires n <= |s.ws| && n <= place < c.Ring()
    ensures Stored(initial, s.aws, s.ws[..n])(c.base + BEAT_BYTES * place) == initial(c.base + BEAT_BYTES * place)
  {
    hide Stored, Inv, Put, Wrap, Pow2;
    if n == 0 {
      assert s.ws[..0] == [];
      NothingStored(initial, s.aws);
    } else {
      StoredStep(c, initial, s, n - 1);
      assert Wrap(n - 1, c.Ring()) == n - 1;
      PutElsewhere(Stored(initial, s.aws, s.ws[..n - 1]), c.base, n - 1, place, s.taken[n - 1]);
      PrefixUntouched(c, initial, s, n - 1, place);
    }
  }

  lemma NothingStored<T>(initial: Ram<T>, aws: seq<AwBeat>)
    ensures Stored(initial, aws, []) == initial
  {
  }

  lemma PutElsewhere<T>(m: Ram<T>, base: nat, place: nat, other: nat, v: T)
    requires place != other
    ensures Put(m, base + BEAT_BYTES * place, v)(base + BEAT_BYTES * other) == m(base + BEAT_BYTES * other)
  {
  }

  /** A place the writer has not reached in its first turn keeps what it held. */
  lemma UntouchedPlace<T>(c: Config, initial: Ram<T>, ins: seq<Input<T>>, place: nat)
    requires c.Valid() && OrderedRun(c, ins)
    requires c.base + BEAT_BYTES * c.Ring() <= ADDRESS_SPACE
    requires |After(c, ins).ws| <= place < c.Ring()
    ensures var s := After(c, ins);
            Stored(initial, s.aws, s.ws)(c.base + BEAT_BYTES * place) == initial(c.base + BEAT_BYTES * place)
  {
    RunKeepsInv(c, ins);
    var s := After(c, ins);
    assert s.ws[..|s.ws|] == s.ws;
    PrefixUntouched(c, initial, s, |s.ws|, place);
  }

  // ----------------------------------------------------------------- draining

  /** Words arrive while the slave takes nothing, and the other way around. */
  function Stalled<T>(x: T): Input<T> {
    Input(false, false, true, x)
  }

  function Draining<T>(x: T): Input<T> {
    Input(true, true, false, x)
  }

  function Repeat<T>(i: Input<T>, n: nat): seq<Input<T>> {
    if n == 0 then [] else Repeat(i, n - 1) + [i]
  }

  lemma {:induction false} RepeatCons<T>(i: Input<T>, n: nat)
    ensures Repeat(i, n + 1) == [i] + Repeat(i, n)
  {
    if n == 0 {
      assert Repeat(i, 1) == Repeat(i, 0) + [i];
    } else {
      RepeatCons(i, n - 1);
    }
  }

  lemma OrderedSnoc<T>(c: Config, ins: seq<Input<T>>, i: Input<T>)
    ensures OrderedRun(c, ins + [i]) <==> OrderedRun(c, ins) && Ordered(After(c, ins).regs, i)
  {
    assert (ins + [i])[..|ins|] == ins;
  }

  /** A quiet cycle starts a burst or takes a word out of the FIFO. */
  lemma DrainStep<T>(c: Config, s: Sim<T>, x: T)
    requires c.Valid() && Inv(c, s) && !s.regs.Idle(c)
    ensures var r, s' := s.regs, Tick(c, s, Draining(x));
            && Ordered(r, Draining(x)) && s'.taken == s.taken
            && 2 * |s'.regs.fifo| + Bit(!s'.regs.wvalid) < 2 * |r.fifo| + Bit(!r.wvalid)
  {
    hide Wrap, Pow2, AddressesPaired, DataFaithful;
  }

  /** A writer that is idle stays so until a word arrives. */
  lemma IdleStays<T>(c: Config, s: Sim<T>, i: Input<T>)
    requires c.Valid() && Inv(c, s) && s.regs.Idle(c) && !i.svalid
    ensures Tick(c, s, i) == s
  {
    LastOfBurst(c, s.regs, |s.ws|);
    hide Wrap, Pow2, AddressesPaired, DataFaithful;
    assert s.regs.fifo + [] == s.regs.fifo && s.taken + [] == s.taken;
    assert s.aws + [] == s.aws && s.ws + [] == s.ws;
  }

  lemma {:induction false} OrderedPrefix<T>(c: Config, ins: seq<Input<T>>, n: nat)
    requires OrderedRun(c, ins) && n <= |ins|
    ensures OrderedRun(c, ins[..n])
  {
    if n == |ins| {
      assert ins[..n] == ins;
    } else {
      hide After;
      OrderedPrefix(c, ins[..|ins|-1], n);
      assert ins[..|ins|-1][..n] == ins[..n];
    }
  }

  /** With both readies high and no new words, the writer becomes idle, at most the
      almost-empty threshold of words behind, in a bounded number of cycles. */
  lemma {:induction false} DrainsToIdle<T>(c: Config, ins: seq<Input<T>>, x: T) returns (cycles: nat)
    requires c.Valid() && OrderedRun(c, ins)
    ensures var r := After(c, ins).regs; cycles <= 2 * |r.fifo| + Bit(!r.wvalid)
    ensures var more := ins + Repeat(Draining(x), cycles);
            && OrderedRun(c, more)
            && After(c, more).regs.Idle(c)
            && |After(c, more).regs.fifo| <= c.threshold
            && After(c, more).taken == After(c, ins).taken
    decreases var r := After(c, ins).regs; 2 * |r.fifo| + Bit(!r.wvalid)
  {
    hide After, OrderedRun, Inv, Tick, Draining;
    RunKeepsInv(c, ins);
    if After(c, ins).regs.Idle(c) {
      cycles := 0;
      assert ins + Repeat(Draining(x), 0) == ins;
    } else {
      var quiet := Draining(x);
      OrderedSnoc(c, ins, quiet);
      Unroll(c, ins, quiet);
      DrainStep(c, After(c, ins), x);
      hide Repeat;
      var rest := DrainsToIdle(c, ins + [quiet], x);
      cycles := rest + 1;
      RepeatCons(quiet, rest);
      assert ins + Repeat(quiet, cycles) == (ins + [quiet]) + Repeat(quiet, rest);
    }
  }

  /** Both readies are held high. */
  predicate AlwaysReady<T>(ins: seq<Input<T>>) {
    forall k :: 0 <= k < |ins| ==> ins[k].awready && ins[k].wready
  }

  /** Such a slave is ordered, and the FIFO never passes its almost-empty threshold by
      more than the two cycles it takes to start a burst. */
  lemma {:induction false} ReadyRunBounded<T>(c: Config, ins: seq<Input<T>>)
    requires AlwaysReady(ins)
    ensures OrderedRun(c, ins)
    ensures var r := After(c, ins).regs;
            && |r.fifo| <= c.threshold + 2
            && (!r.wvalid ==> !r.awvalid && |r.fifo| <= c.threshold + 1)
  {
    if ins == [] {
    } else {
      var before, i := ins[..|ins|-1], ins[|ins|-1];
      assert ins == before + [i] && i.awready && i.wready;
      ReadyRunBounded(c, before);
      Unroll(c, before, i);
      hide After, Wrap, Pow2;
    }
  }

  /** An idle writer has flushed whole bursts: when the threshold is one burst, at most
      sixteen of the accepted words are left, congruent to their number. */
  lemma IdleRemainder<T>(c: Config, ins: seq<Input<T>>)
    requires c.Valid() && OrderedRun(c, ins) && c.threshold == BURST
    requires After(c, ins).regs.Idle(c)
    ensures var s := After(c, ins);
            && |s.ws| % BURST == 0
            && |s.taken| - BURST <= |s.ws| <= |s.taken|
  {
    RunKeepsInv(c, ins);
  }

  // ---------------------------------------------------------------- underflow

  /** Every data beat carried a word that was in the FIFO. */
  predicate NoUnderflow<T>(s: Sim<T>) {
    forall n :: 0 <= n < |s.ws| ==> s.ws[n].data.Some?
  }

  lemma RepeatSnoc<T>(c: Config, ins: seq<Input<T>>, i: Input<T>, n: nat)
    ensures After(c, ins + Repeat(i, n + 1)) == Tick(c, After(c, ins + Repeat(i, n)), i)
    ensures OrderedRun(c, ins + Repeat(i, n + 1)) <==>
            OrderedRun(c, ins + Repeat(i, n)) && Ordered(After(c, ins + Repeat(i, n)).regs, i)
  {
    var before := ins + Repeat(i, n);
    assert ins + Repeat(i, n + 1) == before + [i];
    assert (before + [i])[..|before|] == before;
  }

  /** After an ordered run the writer has sent so many beats, holds so many words, and
      is inside a burst or between two. */
  predicate At<T>(c: Config, ins: seq<Input<T>>, beats: nat, words: nat, busy: bool) {
    OrderedRun(c, ins) && Stands(c, After(c, ins), beats, words, busy)
  }

  predicate Stands<T>(c: Config, s: Sim<T>, beats: nat, words: nat, busy: bool) {
    var r := s.regs;
    && |s.ws| == beats && r.addr == Wrap(beats, c.Ring()) && |r.fifo| == words
    && r.wvalid == busy && (!busy ==> !r.awvalid)
  }

  /** A word arrives while the slave stalls. */
  lemma StallStep<T>(c: Config, s: Sim<T>, x: T, beats: nat, words: nat, busy: bool)
    requires Stands(c, s, beats, words, busy) && words < c.depth && (busy || words <= c.threshold)
    ensures Stands(c, Tick(c, s, Stalled(x)), beats, words + 1, busy) && Ordered(s.regs, Stalled(x))
  {
    hide Wrap, Pow2;
  }

  lemma {:induction false} StallPhase<T>(
    c: Config, ins: seq<Input<T>>, x: T, beats: nat, words: nat, busy: bool, n: nat)
    requires At(c, ins, beats, words, busy) && words + n <= c.depth
    requires busy || words + n <= c.threshold + 1
    ensures At(c, ins + Repeat(Stalled(x), n), beats, words + n, busy)
  {
    hide After, OrderedRun, Stands, Repeat, Tick, Ordered, Stalled;
    if n == 0 {
      NoCycles(ins, Stalled(x));
    } else {
      StallPhase(c, ins, x, beats, words, busy, n - 1);
      RepeatSnoc(c, ins, Stalled(x), n - 1);
      StallStep(c, After(c, ins + Repeat(Stalled(x), n - 1)), x, beats, words + n - 1, busy);
    }
  }

  lemma RepeatGrows<T>(ins: seq<Input<T>>, i: Input<T>, n: nat)
    ensures ins + Repeat(i, n + 1) == (ins + Repeat(i, n)) + [i]
  {
  }

  lemma InsideBurst16(beats: nat, k: nat)
    requires beats % 16 + k < 15
    ensures (beats + k) % 16 == beats % 16 + k
  {
  }

  lemma NoCycles<T>(ins: seq<Input<T>>, i: Input<T>)
    ensures ins + Repeat(i, 0) == ins
  {
  }

  lemma LastBeat(c: Config, beats: nat)
    requires 4 <= c.addrWidth
    ensures Wrap(beats, c.Ring()) % 16 == beats % 16
  {
    Pow2Sixteen(c.addrWidth);
    WrapLowBits16(beats, Pow2(c.addrWidth - 4));
  }

  /** A ready slave takes a beat; at the end of a burst the next one starts if the FIFO is
      above its threshold. */
  lemma BeatStep<T>(c: Config, s: Sim<T>, x: T, beats: nat, words: nat)
    requires 4 <= c.addrWidth && Stands(c, s, beats, words, true) && 0 < words
    requires beats % 16 == 15 ==> c.threshold < words
    ensures Stands(c, Tick(c, s, Draining(x)), beats + 1, words - 1, true) && Ordered(s.regs, Draining(x))
  {
    LastBeat(c, beats);
    WrapStep(beats, c.Ring());
    hide Wrap, Pow2;
  }

  lemma BeatCycle<T>(c: Config, ins: seq<Input<T>>, x: T, beats: nat, words: nat)
    requires 4 <= c.addrWidth && At(c, ins, beats, words, true) && 0 < words
    requires beats % 16 == 15 ==> c.threshold < words
    ensures At(c, ins + [Draining(x)], beats + 1, words - 1, true)
  {
    hide After, OrderedRun, Stands, Tick, Ordered, Draining;
    OrderedSnoc(c, ins, Draining(x));
    Unroll(c, ins, Draining(x));
    BeatStep(c, After(c, ins), x, beats, words);
  }

  /** Beats up to, but not including, the last of a burst. */
  lemma {:induction false} BeatPhase<T>(c: Config, ins: seq<Input<T>>, x: T, beats: nat, words: nat, n: nat)
    requires 4 <= c.addrWidth && At(c, ins, beats, words, true) && n <= words
    requires beats % 16 + n <= 15
    ensures At(c, ins + Repeat(Draining(x), n), beats + n, words - n, true)
  {
    hide At, Repeat, Draining;
    if n == 0 {
      NoCycles(ins, Draining(x));
    } else {
      BeatPhase(c, ins, x, beats, words, n - 1);
      RepeatGrows(ins, Draining(x), n - 1);
      InsideBurst16(beats, n - 1);
      BeatCycle(c, ins + Repeat(Draining(x), n - 1), x, beats + n - 1, words - (n - 1));
    }
  }

  /** Between bursts, a FIFO above its threshold starts one. */
  lemma StartCycle<T>(c: Config, ins: seq<Input<T>>, x: T, words: nat)
    requires 4 <= c.addrWidth && At(c, ins, 0, words, false) && c.threshold < words
    ensures At(c, ins + [Draining(x)], 0, words, true)
  {
    OrderedSnoc(c, ins, Draining(x));
    Unroll(c, ins, Draining(x));
    LastBeat(c, 0);
    hide After, OrderedRun, Wrap, Pow2;
  }

  /** A beat taken from an empty FIFO. */
  lemma EmptyBeat<T>(c: Config, ins: seq<Input<T>>, x: T, beats: nat)
    requires At(c, ins, beats, 0, true)
    ensures OrderedRun(c, ins + [Draining(x)]) && !NoUnderflow(After(c, ins + [Draining(x)]))
  {
    OrderedSnoc(c, ins, Draining(x));
    Unroll(c, ins, Draining(x));
    hide After, OrderedRun, Wrap, Pow2, Next;
    assert After(c, ins + [Draining(x)]).ws[beats].data.None?;
  }

  /** The FIFO fills to one word above the threshold and a burst starts. */
  lemma FilledStart<T>(c: Config, x: T) returns (ins: seq<Input<T>>)
    requires 4 <= c.addrWidth && c.threshold < c.depth
    ensures At(c, ins, 0, c.threshold + 1, true)
  {
    EmptyRun<T>(c);
    hide At;
    StallPhase(c, [], x, 0, 0, false, c.threshold + 1);
    StartCycle(c, [] + Repeat(Stalled(x), c.threshold + 1), x, c.threshold + 1);
    ins := ([] + Repeat(Stalled(x), c.threshold + 1)) + [Draining(x)];
  }

  lemma EmptyRun<T>(c: Config)
    ensures At<T>(c, [], 0, 0, false)
  {
  }

  /** A burst with fewer words than beats left, and no more arriving, runs dry. */
  lemma RunsDry<T>(c: Config, start: seq<Input<T>>, x: T, beats: nat, words: nat) returns (ins: seq<Input<T>>)
    requires 4 <= c.addrWidth && At(c, start, beats, words, true) && beats % 16 + words <= 15
    ensures OrderedRun(c, ins) && !NoUnderflow(After(c, ins))
  {
    hide At, Draining, OrderedRun, After, NoUnderflow, Repeat;
    BeatPhase(c, start, x, beats, words, words);
    var dry := start + Repeat(Draining(x), words);
    EmptyBeat(c, dry, x, beats + words);
    ins := dry + [Draining(x)];
  }

  /** With sixteen words at the start, fifteen beats leave one; the FIFO is refilled while
      the slave stalls on the last beat, and the next burst starts with fifteen. */
  lemma SecondBurst<T>(c: Config, start: seq<Input<T>>, x: T) returns (ins: seq<Input<T>>)
    requires 4 <= c.addrWidth && At(c, start, 0, 16, true) && c.threshold == 15 < c.depth
    ensures At(c, ins, 16, 15, true)
  {
    hide At, Draining, Stalled, Repeat;
    BeatPhase(c, start, x, 0, 16, 15);
    var last := start + Repeat(Draining(x), 15);
    StallPhase(c, last, x, 15, 1, true, 15);
    var full := last + Repeat(Stalled(x), 15);
    BeatCycle(c, full, x, 15, 16);
    ins := full + [Draining(x)];
  }

  /** A threshold below one burst lets some run read an empty FIFO: below fifteen in the
      first burst, at fifteen in the second. */
  lemma UnderflowRun<T>(c: Config, x: T) returns (ins: seq<Input<T>>)
    requires 4 <= c.addrWidth && c.threshold < BURST && c.threshold < c.depth
    ensures OrderedRun(c, ins) && !NoUnderflow(After(c, ins))
  {
    hide At, OrderedRun, After, NoUnderflow;
    var start := FilledStart(c, x);
    if c.threshold < 15 {
      ins := RunsDry(c, start, x, 0, c.threshold + 1);
    } else {
      var second := SecondBurst(c, start, x);
      ins := RunsDry(c, second, x, 16, 15);
    }
  }

  /** A FIFO that cannot rise above its threshold never starts a burst. */
  lemma {:induction false} NeverStarts<T>(c: Config, ins: seq<Input<T>>)
    requires 4 <= c.addrWidth && c.depth <= c.threshold
    ensures Stands(c, After(c, ins), 0, |After(c, ins).regs.fifo|, false)
    ensures |After(c, ins).regs.fifo| <= c.depth
  {
    if ins == [] {
    } else {
      var before, i := ins[..|ins|-1], ins[|ins|-1];
      assert ins == before + [i];
      NeverStarts(c, before);
      Unroll(c, before, i);
      LastBeat(c, 0);
      hide After, Wrap, Pow2;
    }
  }

  /** No ordered run reads an empty FIFO exactly when the almost-empty threshold is at
      least one burst (ALMOST_EMPTY_OFFSET X"000F", output word included) or the FIFO is
      too small to rise above it and nothing is ever written. */
  lemma UnderflowThreshold<T(!new)>(c: Config, x: T)
    requires 4 <= c.addrWidth
    ensures (forall ins: seq<Input<T>> :: OrderedRun(c, ins) ==> NoUnderflow(After(c, ins)))
       <==> BURST <= c.threshold || c.depth <= c.threshold
  {
    if BURST <= c.threshold {
      forall ins: seq<Input<T>> | OrderedRun(c, ins)
        ensures NoUnderflow(After(c, ins))
      {
        RunKeepsInv(c, ins);
      }
    } else if c.depth <= c.threshold {
      forall ins: seq<Input<T>> | OrderedRun(c, ins)
        ensures NoUnderflow(After(c, ins))
      {
        NeverStarts(c, ins);
      }
    } else {
      var ins := UnderflowRun(c, x);
      assert OrderedRun(c, ins) && !NoUnderflow(After(c, ins));
    }
  }

  // ------------------------------------------------------------------ the core

  /** The core itself; `past` is its input history since reset. */
  class Writer<T> {
    const cfg: Config
    var awvalid: bool
    var wvalid: bool
    var addr: nat
    var wid: nat
    var fifo: seq<T>
    ghost var past: seq<Input<T>>

    ghost predicate Valid()
      reads this
    {
      Regs() == After(cfg, past).regs
    }

    function Regs(): Registers<T>
      reads this
    {
      Registers(awvalid, wvalid, addr, wid, fifo)
    }

    constructor (cfg: Config)
      ensures Valid() && past == [] && this.cfg == cfg
    {
      this.cfg := cfg;
      awvalid, wvalid, addr, wid, fifo := false, false, 0, 0, [];
      past := [];
    }

    /** The two valid registers of one cycle, from its almost-empty and last flags. */
    method Valids(i: Input<T>, empty: bool, last: bool)
      modifies this`awvalid, this`wvalid
      ensures var start := !empty && !old(awvalid) && !old(wvalid);
              && awvalid == (if start || (i.wready && last && !empty) then true
                             else if i.awready && old(awvalid) then false else old(awvalid))
              && wvalid == (if start then true
                            else if i.wready && last && empty then false else old(wvalid))
    {
      var start := !empty && !awvalid && !wvalid;
      if start || (i.wready && last && !empty) {
        awvalid := true;
      } else if i.awready && awvalid {
        awvalid := false;
      }
      if start {
        wvalid := true;
      } else if i.wready && last && empty {
        wvalid := false;
      }
    }

    /** All registers take their next value. */
    method Edge(i: Input<T>)
      modifies this
      ensures Regs() == Next(cfg, old(Regs()), i) && past == old(past)
    {
      hide Wrap, Pow2;
      var last := addr % BURST == BURST - 1;
      var empty := |fifo| <= cfg.threshold;
      var sready := |fifo| < cfg.depth;
      var read := i.wready && wvalid;
      Valids(i, empty, last);
      if i.wready && last {
        wid := Wrap(wid + 1, cfg.Ids());
      }
      if read {
        addr := Wrap(addr + 1, cfg.Ring());
        if fifo != [] {
          fifo := fifo[1..];
        }
      }
      if sready && i.svalid {
        fifo := fifo + [i.sdata];
      }
    }

    /** One rising clock edge; the results are the three channels before it, in stalled
        cycles too. */
    method Clock(i: Input<T>) returns (aw: Option<AwBeat>, w: Option<WBeat<T>>, sready: bool)
      requires Valid()
      modifies this
      ensures Valid() && past == old(past) + [i]
      ensures var s, s' := After(cfg, old(past)), After(cfg, past);
              && s'.aws == s.aws + (if aw.Some? && i.awready then [aw.value] else [])
              && s'.ws == s.ws + (if w.Some? && i.wready then [w.value] else [])
              && s'.taken == s.taken + (if sready && i.svalid then [i.sdata] else [])
      ensures var r := After(cfg, old(past)).regs;
              && aw == (if r.awvalid then Some(AwBeat(cfg.Address(r.addr), r.wid)) else None)
              && w == (if r.wvalid then Some(WBeat(r.Head(), r.wid, r.addr % 16 == 15)) else None)
              && (sready <==> |r.fifo| < cfg.depth)
    {
      hide After, Next, Wrap, Pow2, Config.Ring, Config.Ids, Config.Address;
      Unroll(cfg, past, i);
      sready := |fifo| < cfg.depth;
      aw := if awvalid then Some(AwBeat(cfg.Address(addr), wid)) else None;
      w := if wvalid then Some(WBeat(if fifo == [] then None else Some(fifo[0]), wid, addr % BURST == BURST - 1))
           else None;
      Edge(i);
      past := past + [i];
    }
  }
}
