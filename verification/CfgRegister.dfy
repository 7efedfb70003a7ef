/** cores/axi_cfg_register_v1_0: a file of 32-bit configuration words behind an
    AXI4-Lite slave, written through byte strobes. */
module CfgRegister {
  import opened Bits
  import opened Options

  const LANES := 4     // AXI_DATA_WIDTH / 8

  type Word = s: seq<nat> | |s| == 4 witness [0, 0, 0, 0]

  type Strobe = s: seq<bool> | |s| == 4 witness [false, false, false, false]

  const ZERO: Word := [0, 0, 0, 0]

  /** CFG_SIZE words, selected by CFG_WIDTH address bits above the byte lanes. */
  datatype Config = Config(words: nat, width: nat) {
    ghost predicate Valid() {
      && 1 <= words
      && if words == 1 then width == 1
         else 1 <= width && Pow2(width - 1) <= words - 1 < Pow2(width)
    }

    /** Which word an address selects; past the last word when their number is no power
        of two. */
    function Index(addr: nat): nat {
      Wrap(addr / LANES, Pow2(width))
    }
  }

  /** The elaboration-time sizing of the address field. */
  method SizeAddress(words: nat) returns (c: Config)
    requires 1 <= words
    ensures c.Valid() && c.words == words
    ensures words - 1 < Pow2(c.width) && (c.width > 1 ==> Pow2(c.width - 1) <= words - 1) && c.width >= 1
  {
    var width := 1;
    if words > 1 {
      width := Clogb2(words - 1);
    }
    c := Config(words, width);
  }

  datatype Input = Input(
    awvalid: bool, awaddr: nat, wvalid: bool, wdata: Word, wstrb: Strobe, bready: bool,
    arvalid: bool, araddr: nat, rready: bool)

  /** rdata is None when the address selected no word: the value is unspecified. */
  datatype Registers = Registers(mem: seq<Word>, bvalid: bool, rvalid: bool, rdata: Option<Word>)

  /** Address and data are taken together. */
  predicate Writes(i: Input) {
    i.awvalid && i.wvalid
  }

  function Merge(w: Word, i: Input): Word {
    seq(LANES, b requires 0 <= b < LANES => if i.wstrb[b] then i.wdata[b] else w[b])
  }

  function Next(c: Config, r: Registers, i: Input): (r': Registers)
    ensures |r'.mem| == |r.mem|
  {
    var w, a := c.Index(i.awaddr), c.Index(i.araddr);
    Registers(
      if Writes(i) && w < |r.mem| then r.mem[w := Merge(r.mem[w], i)] else r.mem,
      if Writes(i) then true else if i.bready && r.bvalid then false else r.bvalid,
      if i.arvalid then true else if i.rready && r.rvalid then false else r.rvalid,
      if !i.arvalid then r.rdata else if a < |r.mem| then Some(r.mem[a]) else None)
  }

  function Zeros(n: nat): (s: seq<Word>)
    ensures |s| == n && forall k :: 0 <= k < n ==> s[k] == ZERO
  {
    if n == 0 then [] else Zeros(n - 1) + [ZERO]
  }

  function After(c: Config, ins: seq<Input>): (r: Registers)
    ensures |r.mem| == c.words
  {
    if ins == [] then Registers(Zeros(c.words), false, false, Some(ZERO))
    else Next(c, After(c, ins[..|ins|-1]), ins[|ins|-1])
  }

  lemma Unroll(c: Config, before: seq<Input>, i: Input)
    ensures After(c, before + [i]) == Next(c, After(c, before), i)
  {
    assert (before + [i])[..|before|] == before;
  }

  // ----------------------------------------------------------------- byte contents

  /** Address and data are both there, and the strobe covers byte b of word j. */
  predicate Covers(c: Config, i: Input, j: nat, b: nat)
    requires b < 4
  {
    i.awvalid && i.wvalid && i.awaddr / 4 % Pow2(c.width) == j && i.wstrb[b]
  }

  /** The word an address selects: byte offsets and the bits above the field are ignored. */
  lemma SelectedWord(c: Config, addr: nat)
    ensures c.Index(addr) == addr / 4 % Pow2(c.width)
  {
    WrapIsRemainder(addr / 4, Pow2(c.width));
  }

  /** An address without data, or data without an address, writes nothing and raises no
      response; both together raise one. */
  lemma WriteNeedsBoth(c: Config, ins: seq<Input>, i: Input)
    ensures var r, r' := After(c, ins), After(c, ins + [i]);
            if i.awvalid && i.wvalid then r'.bvalid
            else r'.mem == r.mem && r'.bvalid == (r.bvalid && !i.bready)
  {
    Unroll(c, ins, i);
    hide After, Config.Index;
  }

  /** The last such write of a history; the length of the history when there is none. */
  function LastCover(c: Config, ins: seq<Input>, j: nat, b: nat): (k: nat)
    requires b < 4
    ensures k <= |ins|
    ensures k < |ins| ==> Covers(c, ins[k], j, b)
    ensures forall l :: 0 <= l < |ins| && (k < l || k == |ins|) ==> !Covers(c, ins[l], j, b)
  {
    if ins == [] then 0
    else
      var n := |ins| - 1;
      if Covers(c, ins[n], j, b) then n
      else
        var k := LastCover(c, ins[..n], j, b);
        if k < n then k else |ins|
  }

  /** After any run each configuration byte is that of the last cycle in which a write
      covered it. */
  lemma {:induction false} ByteIsLastWrite(c: Config, ins: seq<Input>, j: nat, b: nat)
    requires j < c.words && b < 4
    ensures var k := LastCover(c, ins, j, b);
            After(c, ins).mem[j][b] == if k < |ins| then ins[k].wdata[b] else 0
  {
    if ins == [] {
    } else {
      ByteIsLastWrite(c, ins[..|ins|-1], j, b);
      SelectedWord(c, ins[|ins|-1].awaddr);
      hide Config.Index, Pow2;
    }
  }

  // ------------------------------------------------------------------------- reads

  /** A read returns the word as of its address cycle, untouched by later writes, and
      stays on offer until the first ready cycle. */
  lemma {:induction false} ReadReturnsWord(c: Config, ins: seq<Input>, k: nat)
    requires k < |ins| && ins[k].arvalid
    requires forall l :: k < l < |ins| ==> !ins[l].arvalid
    ensures var a := ins[k].araddr / 4 % Pow2(c.width);
            && (a < c.words ==> After(c, ins).rdata == Some(After(c, ins[..k]).mem[a]))
            && (After(c, ins).rvalid <==> forall l :: k < l < |ins| ==> !ins[l].rready)
  {
    var n := |ins| - 1;
    var before := ins[..n];
    SelectedWord(c, ins[k].araddr);
    hide Config.Index, Pow2;
    if k == n {
    } else {
      ReadReturnsWord(c, before, k);
      assert before[..k] == ins[..k];
      assert (forall l :: k < l < n ==> !before[l].rready) <==> (forall l :: k < l < n ==> !ins[l].rready);
      assert !ins[n].arvalid;
    }
  }

  // -------------------------------------------------------------------- accounting

  /** How many writes were accepted, how many responses taken, and how many writes
      replaced a response that was still waiting. */
  datatype Counts = Counts(accepted: nat, responses: nat, replaced: nat)

  predicate WritesOverResponse(r: Registers, i: Input) {
    i.awvalid && i.wvalid && r.bvalid && !i.bready
  }

  function CountsAfter(c: Config, ins: seq<Input>): Counts {
    if ins == [] then Counts(0, 0, 0)
    else
      var m, r, i := CountsAfter(c, ins[..|ins|-1]), After(c, ins[..|ins|-1]), ins[|ins|-1];
      Counts(m.accepted + Bit(i.awvalid && i.wvalid),
             m.responses + Bit(r.bvalid && i.bready),
             m.replaced + Bit(WritesOverResponse(r, i)))
  }

  lemma {:induction false} ResponsesBalance(c: Config, ins: seq<Input>)
    ensures var m, r := CountsAfter(c, ins), After(c, ins);
            m.accepted == m.responses + Bit(r.bvalid) + m.replaced
  {
    if ins == [] {
    } else {
      ResponsesBalance(c, ins[..|ins|-1]);
      hide Config.Index;
    }
  }

  /** The master never writes over a stalled response. */
  predicate Patient(c: Config, ins: seq<Input>) {
    forall k :: 0 <= k < |ins| ==> !WritesOverResponse(After(c, ins[..k]), ins[k])
  }

  lemma {:induction false} ReplacedUnlessPatient(c: Config, ins: seq<Input>)
    ensures CountsAfter(c, ins).replaced == 0 <==> Patient(c, ins)
  {
    hide After, WritesOverResponse;
    if ins == [] {
    } else {
      var n := |ins| - 1;
      var before := ins[..n];
      ReplacedUnlessPatient(c, before);
      assert forall k :: 0 <= k < n ==> before[..k] == ins[..k] && before[k] == ins[k];
      assert Patient(c, ins) ==> Patient(c, before);
    }
  }

  /** Every accepted write is answered, waiting to be answered, or has had its response
      replaced: accepted writes are responses plus pending exactly when the master never
      writes over a stalled response (section A3.4.3 of ARM IHI 0022). */
  lemma WritesAccounted(c: Config, ins: seq<Input>)
    ensures var m, r := CountsAfter(c, ins), After(c, ins);
            && m.accepted == m.responses + Bit(r.bvalid) + m.replaced
            && (m.accepted == m.responses + Bit(r.bvalid) <==> Patient(c, ins))
  {
    ResponsesBalance(c, ins);
    ReplacedUnlessPatient(c, ins);
    hide After, CountsAfter, Patient;
  }

  /** The same for reads: every cycle with a read address is accepted. */
  predicate ReadsOverResponse(r: Registers, i: Input) {
    i.arvalid && r.rvalid && !i.rready
  }

  function ReadCountsAfter(c: Config, ins: seq<Input>): Counts {
    if ins == [] then Counts(0, 0, 0)
    else
      var m, r, i := ReadCountsAfter(c, ins[..|ins|-1]), After(c, ins[..|ins|-1]), ins[|ins|-1];
      Counts(m.accepted + Bit(i.arvalid),
             m.responses + Bit(r.rvalid && i.rready),
             m.replaced + Bit(ReadsOverResponse(r, i)))
  }

  lemma {:induction false} ReadResponsesBalance(c: Config, ins: seq<Input>)
    ensures var m, r := ReadCountsAfter(c, ins), After(c, ins);
            m.accepted == m.responses + Bit(r.rvalid) + m.replaced
  {
    if ins == [] {
    } else {
      ReadResponsesBalance(c, ins[..|ins|-1]);
      hide Config.Index;
    }
  }

  /** The master never reads over a stalled response. */
  predicate PatientReads(c: Config, ins: seq<Input>) {
    forall k :: 0 <= k < |ins| ==> !ReadsOverResponse(After(c, ins[..k]), ins[k])
  }

  lemma {:induction false} ReadReplacedUnlessPatient(c: Config, ins: seq<Input>)
    ensures ReadCountsAfter(c, ins).replaced == 0 <==> PatientReads(c, ins)
  {
    hide After, ReadsOverResponse;
    if ins == [] {
    } else {
      var n := |ins| - 1;
      var before := ins[..n];
      ReadReplacedUnlessPatient(c, before);
      assert forall k :: 0 <= k < n ==> before[..k] == ins[..k] && before[k] == ins[k];
      assert PatientReads(c, ins) ==> PatientReads(c, before);
    }
  }

  /** Every accepted read is answered, waiting to be answered, or has had its response
      replaced; accepted reads are responses plus pending exactly when the master never
      reads over a stalled response. */
  lemma ReadsAccounted(c: Config, ins: seq<Input>)
    ensures var m, r := ReadCountsAfter(c, ins), After(c, ins);
            && m.accepted == m.responses + Bit(r.rvalid) + m.replaced
            && (m.accepted == m.responses + Bit(r.rvalid) <==> PatientReads(c, ins))
  {
    ReadResponsesBalance(c, ins);
    ReadReplacedUnlessPatient(c, ins);
    hide After, ReadCountsAfter, PatientReads;
  }

  // -------------------------------------------------------------------- addressing

  /** Every word has an address, and every address a word exactly when the words fill
      the address field. */
  lemma AddressesReachWords(c: Config)
    requires c.Valid()
    ensures forall j :: 0 <= j < c.words ==> c.Index(4 * j) == j
    ensures (forall addr: nat :: c.Index(addr) < c.words) <==> c.words == Pow2(c.width)
  {
    assert Pow2(1) == 2;
    var last := LANES * (Pow2(c.width) - 1);
    assert c.Index(last) == Pow2(c.width) - 1;
  }

  // ---------------------------------------------------------------------- the core

  /** The core itself; `past` is its input history since reset. */
  class Core {
    const c: Config
    var mem: seq<Word>
    var bvalid: bool
    var rvalid: bool
    var rdata: Option<Word>
    ghost var past: seq<Input>

    ghost predicate Valid()
      reads this
    {
      Registers(mem, bvalid, rvalid, rdata) == After(c, past)
    }

    constructor (c: Config)
      ensures Valid() && past == [] && this.c == c
    {
      this.c := c;
      mem, bvalid, rvalid, rdata, past := Zeros(c.words), false, false, Some(ZERO), [];
    }

    /** One rising clock edge; `ready` is awready and wready, the rest the responses
        offered before it. */
    method Clock(i: Input) returns (ready: bool, bresp: bool, rresp: bool, data: Option<Word>)
      requires Valid()
      modifies this
      ensures Valid() && past == old(past) + [i]
      ensures ready <==> i.awvalid && i.wvalid
      ensures bresp == After(c, old(past)).bvalid && rresp == After(c, old(past)).rvalid
      ensures data == After(c, old(past)).rdata
    {
      Unroll(c, past, i);
      hide After;
      ready, bresp, rresp, data := i.awvalid && i.wvalid, bvalid, rvalid, rdata;
      if i.arvalid {
        var a := c.Index(i.araddr);
        rdata := if a < |mem| then Some(mem[a]) else None;
        rvalid := true;
      } else if i.rready && rvalid {
        rvalid := false;
      }
      if ready {
        var w := c.Index(i.awaddr);
        if w < |mem| {
          mem := mem[w := Merge(mem[w], i)];
        }
        bvalid := true;
      } else if i.bready && bvalid {
        bvalid := false;
      }
      past := past + [i];
    }
  }
}
