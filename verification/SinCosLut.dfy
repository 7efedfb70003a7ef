/** cores/axis_signal_gen_v1_0/sincos_lut_14: a quarter-wave table behind three pipeline
    stages. The table contents are an arbitrary function; the two peaks, which the
    table does not hold, are constants. */
module SinCosLut {

  const QUARTER := 4096
  const TURN := 16384            // fourteen address bits, and fourteen output bits
  const PEAK := 0x1FFF
  const NEGATIVE_PEAK := 0x2001

  /** The 4096-entry ROM; only the low fourteen bits of an entry are used. */
  type Rom = nat -> nat

  datatype Registers = Registers(
    pdsAdd: bool, pdcAdd: bool, sAdd: nat, cAdd: nat,
    dsAdd: bool, dcAdd: bool, sAz: bool, cAz: bool, msin: nat, mcos: nat,
    sin: nat, cos: nat)

  /** Two's complement negation in fourteen bits. */
  function Negate(x: nat): nat {
    (TURN - x % TURN) % TURN
  }

  /** The last stage: pick peak or table value and its sign. */
  function Output(negative: bool, peak: bool, value: nat): nat {
    if !negative then (if peak then PEAK else value)
    else if peak then NEGATIVE_PEAK else Negate(value)
  }

  /** The table value at the low twelve bits of an address. */
  function Entry(rom: Rom, addr: nat): nat {
    rom(addr % QUARTER) % TURN
  }

  /** The quadrant bits and the table index of the sine, mirrored in odd quadrants. */
  function SinAddr(addr: nat): nat {
    var quadrant, low := addr / QUARTER % 4, addr % QUARTER;
    quadrant * QUARTER + if quadrant % 2 == 1 then (QUARTER - low) % QUARTER else low
  }

  /** The same for the cosine, mirrored in even quadrants. */
  function CosAddr(addr: nat): nat {
    var quadrant, low := addr / QUARTER % 4, addr % QUARTER;
    quadrant * QUARTER + if quadrant % 2 == 1 then low else (QUARTER - low) % QUARTER
  }

  predicate SinNegative(addr: nat) {
    addr / QUARTER % 4 >= 2
  }

  predicate CosNegative(addr: nat) {
    addr / QUARTER % 4 in {1, 2}
  }

  function Next(rom: Rom, r: Registers, addr: nat): Registers {
    Registers(
      SinNegative(addr), CosNegative(addr), SinAddr(addr), CosAddr(addr),
      r.pdsAdd, r.pdcAdd,
      r.sAdd == QUARTER || r.sAdd == 3 * QUARTER, r.cAdd == 0 || r.cAdd == 2 * QUARTER,
      Entry(rom, r.sAdd), Entry(rom, r.cAdd),
      Output(r.dsAdd, r.sAz, r.msin), Output(r.dcAdd, r.cAz, r.mcos))
  }

  /** The registers have no reset: `init` is whatever they power up with. */
  function After(rom: Rom, init: Registers, addrs: seq<nat>): Registers {
    if addrs == [] then init else Next(rom, After(rom, init, addrs[..|addrs|-1]), addrs[|addrs|-1])
  }

  lemma Unroll(rom: Rom, init: Registers, before: seq<nat>, addr: nat)
    ensures After(rom, init, before + [addr]) == Next(rom, After(rom, init, before), addr)
  {
    assert (before + [addr])[..|before|] == before;
  }

  /** One turn of the wave from its first quarter: mirrored in odd quadrants, where the
      table is read backwards and the peak added, and negated in the second half. */
  function Wave(rom: Rom, a: nat): nat
    requires a < TURN
  {
    var low := a % QUARTER;
    var size := if a / QUARTER % 2 == 0 then rom(low) % TURN
                else if low == 0 then PEAK else rom(QUARTER - low) % TURN;
    if a < TURN / 2 then size else Negate(size)
  }

  /** What the three stages make of an address, sine side. */
  function SinPath(rom: Rom, a: nat): nat {
    var s := SinAddr(a);
    Output(SinNegative(a), s == QUARTER || s == 3 * QUARTER, Entry(rom, s))
  }

  function CosPath(rom: Rom, a: nat): nat {
    var c := CosAddr(a);
    Output(CosNegative(a), c == 0 || c == 2 * QUARTER, Entry(rom, c))
  }

  lemma ThreeStages(rom: Rom, r: Registers, a: nat, b: nat, c: nat)
    ensures var r' := Next(rom, Next(rom, Next(rom, r, a), b), c);
            r'.sin == SinPath(rom, a) && r'.cos == CosPath(rom, a)
  {
    hide SinAddr, CosAddr, SinNegative, CosNegative, Output, Entry;
  }

  lemma Split(a: nat) returns (quadrant: nat, low: nat)
    requires a < TURN
    ensures quadrant == a / QUARTER % 4 == a / QUARTER && low == a % QUARTER
    ensures quadrant in {0, 1, 2, 3} && a == QUARTER * quadrant + low
    ensures (QUARTER - low) % QUARTER == if low == 0 then 0 else QUARTER - low
    ensures (a + QUARTER) % TURN == if quadrant == 3 then low else a + QUARTER
  {
    quadrant, low := a / QUARTER, a % QUARTER;
  }

  lemma SinPathIsWave(rom: Rom, a: nat)
    requires a < TURN
    ensures SinPath(rom, a) == Wave(rom, a)
  {
    var q, low := Split(a);
    hide Negate;
  }

  lemma CosPathIsWave(rom: Rom, a: nat)
    requires a < TURN
    ensures CosPath(rom, a) == Wave(rom, (a + QUARTER) % TURN)
  {
    var q, low := Split(a);
    var b := (a + QUARTER) % TURN;
    var q', low' := Split(b);
    hide Negate;
    assert low' == low && q' == if q == 3 then 0 else q + 1;
  }

  /** For every address stream and any table, the outputs are the wave of the address
      three cycles earlier, the cosine a quarter turn ahead of the sine. */
  lemma PipelineIsWave(rom: Rom, init: Registers, addrs: seq<nat>)
    requires 3 <= |addrs| && addrs[|addrs|-3] < TURN
    ensures var a := addrs[|addrs|-3];
            var r := After(rom, init, addrs);
            && r.sin == Wave(rom, a)
            && r.cos == Wave(rom, (a + 4096) % 16384)
  {
    hide Next, Wave, SinPath, CosPath;
    var n := |addrs|;
    SinPathIsWave(rom, addrs[n - 3]);
    CosPathIsWave(rom, addrs[n - 3]);
    var r := After(rom, init, addrs[..n - 3]);
    ThreeStages(rom, r, addrs[n - 3], addrs[n - 2], addrs[n - 1]);
    assert addrs[..n - 2] == addrs[..n - 3] + [addrs[n - 3]];
    assert addrs[..n - 1] == addrs[..n - 2] + [addrs[n - 2]];
    assert addrs == addrs[..n - 1] + [addrs[n - 1]];
    Unroll(rom, init, addrs[..n - 3], addrs[n - 3]);
    Unroll(rom, init, addrs[..n - 2], addrs[n - 2]);
    Unroll(rom, init, addrs[..n - 1], addrs[n - 1]);
    hide After;
  }

  /** The wave, quarter by quarter: the table up and down, with the peak between, then the
      same values negated in fourteen bits. */
  lemma WaveByQuarter(rom: Rom, a: nat)
    requires a < 16384
    ensures var v := Wave(rom, a);
            && v < 16384
            && (a < 4096 ==> v == rom(a) % 16384)
            && (a == 4096 ==> v == 8191)
            && (4096 < a < 8192 ==> v == rom(8192 - a) % 16384)
            && (8192 <= a < 12288 ==> (v + rom(a - 8192) % 16384) % 16384 == 0)
            && (a == 12288 ==> v == 8193)
            && (12288 < a ==> (v + rom(16384 - a) % 16384) % 16384 == 0)
  {
    var q, low := Split(a);
    var size := if a / QUARTER % 2 == 0 then rom(low) % TURN
                else if low == 0 then PEAK else rom(QUARTER - low) % TURN;
    NegateTwice(size);
    hide Negate;
  }

  /** Half a turn negates the wave in fourteen bits. */
  lemma HalfTurn(rom: Rom, a: nat)
    requires a < 16384
    ensures var v, w := Wave(rom, a), Wave(rom, (a + 8192) % 16384); w < 16384 && (v + w) % 16384 == 0
  {
    hide Wave, Negate;
    OppositeWave(rom, a);
    WaveByQuarter(rom, a);
    NegateTwice(Wave(rom, a));
  }

  lemma OppositeWave(rom: Rom, a: nat)
    requires a < 16384
    ensures Wave(rom, (a + 8192) % 16384) == Negate(Wave(rom, a))
  {
    hide Negate;
    var b := (a + TURN / 2) % TURN;
    OppositePlace(a);
    var low := a % QUARTER;
    var size := if a / QUARTER % 2 == 0 then rom(low) % TURN
                else if low == 0 then PEAK else rom(QUARTER - low) % TURN;
    NegateTwice(size);
  }

  lemma OppositePlace(a: nat)
    requires a < 0x4000
    ensures var b := (a + 0x2000) % 0x4000;
            && b % 4096 == a % 4096 && b / 4096 % 2 == a / 4096 % 2
            && (b < 0x2000 <==> a >= 0x2000)
  {
    assert (a + 0x2000) % 0x4000 == if a < 0x2000 then a + 0x2000 else a - 0x2000;
  }

  /** Negation is the additive inverse, and its own. */
  lemma NegateTwice(x: nat)
    requires x < 16384
    ensures Negate(x) < 16384 && (Negate(x) + x) % 16384 == 0
    ensures Negate(Negate(x)) == x
  {
  }

  /** The wave is symmetric about its peak, at the peak too. */
  lemma MirrorAtPeak(rom: Rom, d: nat)
    requires d < 4096
    ensures Wave(rom, 4096 + d) == if d == 0 then 8191 else Wave(rom, 4096 - d)
  {
  }

  lemma QuadrantCases(addr: nat)
    ensures var quadrant, low := addr / QUARTER % 4, addr % QUARTER;
            var reflected := (QUARTER - low) % QUARTER;
            && (quadrant == 0 ==> SinAddr(addr) == low && CosAddr(addr) == reflected)
            && (quadrant == 1 ==> SinAddr(addr) == QUARTER + reflected && CosAddr(addr) == QUARTER + low)
            && (quadrant == 2 ==> SinAddr(addr) == 2 * QUARTER + low && CosAddr(addr) == 2 * QUARTER + reflected)
            && (quadrant == 3 ==> SinAddr(addr) == 3 * QUARTER + reflected && CosAddr(addr) == 3 * QUARTER + low)
            && quadrant <= 3
            && (SinNegative(addr) <==> quadrant == 2 || quadrant == 3)
            && (CosNegative(addr) <==> quadrant == 1 || quadrant == 2)
  {
  }

  /** The table itself; `past` is its address history. */
  class Lut {
    const rom: Rom
    ghost const init: Registers
    var pdsAdd: bool
    var pdcAdd: bool
    var sAdd: nat
    var cAdd: nat
    var dsAdd: bool
    var dcAdd: bool
    var sAz: bool
    var cAz: bool
    var msin: nat
    var mcos: nat
    var sin: nat
    var cos: nat
    ghost var past: seq<nat>

    ghost predicate Valid()
      reads this
    {
      Regs() == After(rom, init, past)
    }

    ghost function Regs(): Registers
      reads this
    {
      Registers(pdsAdd, pdcAdd, sAdd, cAdd, dsAdd, dcAdd, sAz, cAz, msin, mcos, sin, cos)
    }

    constructor (rom: Rom, init: Registers)
      ensures Valid() && past == [] && this.rom == rom && this.init == init
    {
      this.rom, this.init := rom, init;
      pdsAdd, pdcAdd, sAdd, cAdd := init.pdsAdd, init.pdcAdd, init.sAdd, init.cAdd;
      dsAdd, dcAdd, sAz, cAz := init.dsAdd, init.dcAdd, init.sAz, init.cAz;
      msin, mcos, sin, cos := init.msin, init.mcos, init.sin, init.cos;
      past := [];
    }

    /** The first stage: quadrant signs and mirrored table addresses. */
    method Decode(addr: nat)
      modifies this`pdsAdd, this`pdcAdd, this`sAdd, this`cAdd
      ensures pdsAdd == SinNegative(addr) && pdcAdd == CosNegative(addr)
      ensures sAdd == SinAddr(addr) && cAdd == CosAddr(addr)
    {
      QuadrantCases(addr);
      hide SinAddr, CosAddr, SinNegative, CosNegative;
      var quadrant, low := addr / QUARTER % 4, addr % QUARTER;
      var reflected := (QUARTER - low) % QUARTER;
      if quadrant == 0 {
        pdsAdd, pdcAdd, sAdd, cAdd := false, false, low, reflected;
      } else if quadrant == 1 {
        pdsAdd, pdcAdd, sAdd, cAdd := false, true, QUARTER + reflected, QUARTER + low;
      } else if quadrant == 2 {
        pdsAdd, pdcAdd, sAdd, cAdd := true, true, 2 * QUARTER + low, 2 * QUARTER + reflected;
      } else {
        pdsAdd, pdcAdd, sAdd, cAdd := true, false, 3 * QUARTER + reflected, 3 * QUARTER + low;
      }
    }

    /** All registers take their next value. The stages are assigned last to first, so
        that each reads its predecessor's old value. */
    method Edge(addr: nat)
      modifies this
      ensures Regs() == Next(rom, old(Regs()), addr) && past == old(past)
    {
      hide Entry, Output, SinAddr, CosAddr, SinNegative, CosNegative;
      sin := Output(dsAdd, sAz, msin);
      cos := Output(dcAdd, cAz, mcos);
      dsAdd, dcAdd := pdsAdd, pdcAdd;
      sAz := sAdd == QUARTER || sAdd == 3 * QUARTER;
      cAz := cAdd == 0 || cAdd == 2 * QUARTER;
      msin, mcos := Entry(rom, sAdd), Entry(rom, cAdd);
      Decode(addr);
    }

    /** One rising clock edge. */
    method Clock(addr: nat)
      requires Valid()
      modifies this
      ensures Valid() && past == old(past) + [addr]
    {
      hide After, Next;
      Unroll(rom, init, past, addr);
      Edge(addr);
      past := past + [addr];
    }
  }
}
