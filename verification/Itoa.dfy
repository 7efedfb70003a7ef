/** `itoa` of projects/gpio_led_test: prints a 32-bit integer in any radix from 2 to 36
    through a 33-byte scratch buffer. */
module Itoa {
  import opened Bits

  const UINT32 := 0x1_0000_0000
  const SCRATCH := 33

  predicate Radix(radix: int) {
    2 <= radix <= 36
  }

  function Digit(d: nat): char
    requires d < 36
  {
    if d < 10 then '0' + d as char else 'a' + (d - 10) as char
  }

  /** Only radix 10 prints a sign; otherwise the value is read as unsigned. */
  function Magnitude(value: int, radix: int): nat
    requires -0x8000_0000 <= value < 0x8000_0000
  {
    if value >= 0 then value else if radix == 10 then -value else value + UINT32
  }

  lemma DivSmaller(v: nat, radix: nat)
    requires 2 <= radix
    ensures v / radix <= v / 2
    ensures v >= radix ==> 1 <= v / radix < v
    ensures v == radix * (v / radix) + v % radix
  {
    var q, r := v / radix, v % radix;
    assert v == radix * q + r;
    assert radix * q == 2 * q + (radix - 2) * q;
    assert (radix - 2) * q >= 0;
  }

  /** The digits of v, most significant first. */
  function Digits(v: nat, radix: nat): (s: string)
    requires Radix(radix)
    ensures |s| >= 1
  {
    if v < radix then [Digit(v)]
    else
      DivSmaller(v, radix);
      Digits(v / radix, radix) + [Digit(v % radix)]
  }

  function Printed(value: int, radix: int): string
    requires Radix(radix) && -0x8000_0000 <= value < 0x8000_0000
  {
    (if radix == 10 && value < 0 then "-" else "") + Digits(Magnitude(value, radix), radix)
  }

  // --------------------------------------------------------------------- parsing

  function DigitValue(c: char): nat {
    if '0' <= c <= '9' then (c - '0') as nat else if 'a' <= c <= 'z' then (c - 'a') as nat + 10 else 36
  }

  /** Positional notation. */
  function Value(s: string, radix: nat): nat {
    if s == "" then 0
    else
      var front := Value(s[..|s|-1], radix);
      assert radix * front >= 0;
      radix * front + DigitValue(s[|s|-1])
  }

  function Parse(s: string, radix: nat): int {
    if radix == 10 && s != "" && s[0] == '-' then 0 - Value(s[1..], radix) else Value(s, radix)
  }

  lemma DigitRoundTrip(d: nat)
    requires d < 36
    ensures DigitValue(Digit(d)) == d && Digit(d) != '-'
  {
  }

  lemma {:induction false} ValueOfDigits(v: nat, radix: nat)
    requires Radix(radix)
    ensures Value(Digits(v, radix), radix) == v
    ensures Digits(v, radix)[0] != '-'
    ensures v > 0 ==> Digits(v, radix)[0] != '0'
  {
    hide Digits, Value;
    if v < radix {
      OneDigit(v, radix);
    } else {
      DivSmaller(v, radix);
      ValueOfDigits(v / radix, radix);
      MoreDigits(v, radix);
    }
  }

  lemma OneDigit(v: nat, radix: nat)
    requires Radix(radix) && v < radix
    ensures Value(Digits(v, radix), radix) == v
    ensures Digits(v, radix)[0] != '-' && (v > 0 ==> Digits(v, radix)[0] != '0')
  {
    assert Digits(v, radix) == [Digit(v)];
    hide Digits, Value;
    ValueSnoc("", Digit(v), radix);
    assert "" + [Digit(v)] == [Digit(v)];
    EmptyValue(radix);
    DigitRoundTrip(v);
  }

  lemma EmptyValue(radix: nat)
    ensures Value("", radix) == 0 && radix * Value("", radix) == 0
  {
  }

  lemma DigitsUnroll(v: nat, radix: nat)
    requires Radix(radix) && radix <= v
    ensures 0 < v / radix && v % radix < 36
    ensures Digits(v, radix) == Digits(v / radix, radix) + [Digit(v % radix)]
    ensures v == radix * (v / radix) + v % radix
  {
    DivSmaller(v, radix);
  }

  lemma MoreDigits(v: nat, radix: nat)
    requires Radix(radix) && radix <= v && v / radix >= 0
    requires Value(Digits(v / radix, radix), radix) == v / radix
    requires var front := Digits(v / radix, radix); front[0] != '-' && (v / radix > 0 ==> front[0] != '0')
    ensures Value(Digits(v, radix), radix) == v
    ensures Digits(v, radix)[0] != '-' && Digits(v, radix)[0] != '0'
  {
    DigitsUnroll(v, radix);
    hide Digits, Value, Digit, DigitValue;
    DigitRoundTrip(v % radix);
    ValueSnoc(Digits(v / radix, radix), Digit(v % radix), radix);
  }

  lemma ValueSnoc(front: string, c: char, radix: nat)
    ensures Value(front + [c], radix) == radix * Value(front, radix) + DigitValue(c)
  {
    assert (front + [c])[..|front|] == front;
  }

  /** Parsing what was printed gives the value back: signed in radix 10, modulo 2^32 in
      every other; and after the sign there is no leading zero but in "0" itself, so the
      print is the shortest one. */
  lemma PrintParse(value: int, radix: nat)
    requires Radix(radix) && -0x8000_0000 <= value < 0x8000_0000
    ensures Parse(Printed(value, radix), radix)
         == if radix == 10 || value >= 0 then value else value + UINT32
    ensures value != 0 ==> Printed(value, radix)[if radix == 10 && value < 0 then 1 else 0] != '0'
    ensures radix == 10 && value < 0 <==> Printed(value, radix)[0] == '-'
  {
    hide Digits, Value;
    var m := Magnitude(value, radix);
    ValueOfDigits(m, radix);
    var digits := Digits(m, radix);
    assert ("-" + digits)[1..] == digits;
    assert "" + digits == digits;
  }

  /** n bits print as at most n digits. */
  lemma {:induction false} DigitsFit(v: nat, radix: nat, n: nat)
    requires Radix(radix) && 1 <= n && v < Pow2(n)
    ensures |Digits(v, radix)| <= n
  {
    if v < radix {
    } else {
      DivSmaller(v, radix);
      assert n > 1 by { assert Pow2(1) == 2; }
      DigitsFit(v / radix, radix, n - 1);
    }
  }

  lemma ThirtyTwoBits()
    ensures Pow2(32) == UINT32
  {
    Pow2Values();
    Pow2Sixteen(26);
    Pow2Sixteen(30);
    assert Pow2(32) == 4 * Pow2(30);
  }

  // -------------------------------------------------------------------- the code

  function Reversed(s: string): (r: string)
    ensures |r| == |s|
  {
    if s == "" then "" else [s[|s|-1]] + Reversed(s[..|s|-1])
  }

  /** What is still to be printed of v after at least one digit. */
  function Rest(v: nat, radix: nat): string
    requires Radix(radix)
  {
    if v == 0 then "" else Digits(v, radix)
  }

  lemma SmallQuotient(v: nat, radix: nat, q: nat)
    requires radix * q <= v < radix
    ensures q == 0
  {
    assert radix * q == radix * (q - 1) + radix;
    if q >= 1 {
      MulAtLeast(radix, q);
    }
  }

  lemma RestStep(v: nat, radix: nat)
    requires Radix(radix)
    ensures Digits(v, radix) == Rest(v / radix, radix) + [Digit(v % radix)]
  {
    DivSmaller(v, radix);
    if v < radix {
      SmallQuotient(v, radix, v / radix);
    }
  }

  lemma ReversedSnoc(s: string, c: char)
    ensures Reversed(s + [c]) == [c] + Reversed(s)
  {
    assert (s + [c])[..|s|] == s;
  }

  lemma StepInvariant(all: string, rest: string, c: char, done: string)
    requires all == (rest + [c]) + done
    ensures all == rest + ([c] + done)
  {
  }

  lemma ReversedEmpty(all: string, low: string)
    requires low == ""
    ensures all + Reversed(low) == all && Reversed(low) + all == all
  {
  }

  /** One turn of the fill loop: a digit moves from what is left to the scratch. */
  lemma MoveDigit(all: string, left: string, rest: string, c: char, low: string)
    requires left == rest + [c] && all == left + Reversed(low)
    ensures all == rest + Reversed(low + [c])
    ensures |low| < |all|
  {
    hide Reversed;
    ReversedSnoc(low, c);
    StepInvariant(all, rest, c, Reversed(low));
  }

  /** The digits go least significant first into the scratch buffer. */
  method FillScratch(tmp: array<char>, value: nat, radix: nat) returns (tp: nat)
    requires Radix(radix) && |Digits(value, radix)| <= tmp.Length
    modifies tmp
    ensures tp <= tmp.Length && Reversed(tmp[..tp]) == Digits(value, radix)
  {
    hide Digits, Digit, Reversed;
    tp := 0;
    var v: nat := value;
    ghost var all := Digits(v, radix);
    ReversedEmpty(all, tmp[..0]);
    while v != 0 || tp == 0
      invariant tp <= |all|
      invariant all == (if tp == 0 then Digits(v, radix) else Rest(v, radix)) + Reversed(tmp[..tp])
      decreases v, if tp == 0 then 1 else 0
    {
      ghost var low := tmp[..tp];
      var i, q := v % radix, v / radix;
      RestStep(v, radix);
      DivSmaller(v, radix);
      MoveDigit(all, Digits(v, radix), Rest(q, radix), Digit(i), low);
      tmp[tp] := Digit(i);
      assert tmp[..tp + 1] == low + [Digit(i)];
      v := q;
      tp := tp + 1;
    }
    assert "" + Reversed(tmp[..tp]) == Reversed(tmp[..tp]);
  }

  /** They are copied out in reverse, behind the sign and before the terminator. */
  method CopyOut(tmp: array<char>, n: nat, sign: bool, dest: array<char>)
    requires n <= tmp.Length && tmp != dest && (if sign then 1 else 0) + n < dest.Length
    modifies dest
    ensures var text := (if sign then "-" else "") + Reversed(tmp[..n]);
            && dest[..|text|] == text && dest[|text|] == '\0'
            && dest[|text| + 1..] == old(dest[|text| + 1..])
  {
    hide Reversed;
    ghost var text := (if sign then "-" else "") + Reversed(tmp[..n]);
    var sp := 0;
    if sign {
      dest[0] := '-';
      sp := 1;
    }
    assert text == dest[..sp] + Reversed(tmp[..n]);
    var tp := n;
    while tp > 0
      invariant 0 <= tp <= n && sp + tp == |text|
      invariant dest[..sp] + Reversed(tmp[..tp]) == text
      invariant tmp[..] == old(tmp[..]) && dest[|text|..] == old(dest[|text|..])
    {
      tp := tp - 1;
      ghost var low, done := tmp[..tp], dest[..sp];
      assert tmp[..tp + 1] == low + [tmp[tp]];
      ReversedSnoc(low, tmp[tp]);
      StepBack(done, tmp[tp], Reversed(low));
      dest[sp] := tmp[tp];
      assert dest[..sp + 1] == done + [tmp[tp]];
      sp := sp + 1;
    }
    ReversedEmpty(dest[..sp], tmp[..0]);
    dest[sp] := '\0';
  }

  lemma StepBack(rest: string, c: char, done: string)
    ensures rest + ([c] + done) == (rest + [c]) + done
  {
  }

  /** A radix out of range is refused. Otherwise the text is the printed value and its
      terminator, in the caller's buffer, which must have room, or in a new one of just
      that size; the digits never pass the 32nd of the 33 scratch places. */
  method Itoa(value: int, dest: array?<char>, radix: int) returns (out: array?<char>)
    requires -0x8000_0000 <= value < 0x8000_0000
    requires dest != null && Radix(radix) ==> |Printed(value, radix)| < dest.Length
    modifies dest
    ensures out == null <==> !Radix(radix)
    ensures out != null ==>
              var text := Printed(value, radix);
              && |text| < out.Length && out[..|text|] == text && out[|text|] == '\0'
              && |Digits(Magnitude(value, radix), radix)| <= 32
              && (if dest == null then fresh(out) && out.Length == |text| + 1
                  else out == dest && dest[|text| + 1..] == old(dest[|text| + 1..]))
    ensures out == null && dest != null ==> dest[..] == old(dest[..])
  {
    if radix > 36 || radix <= 1 {
      return null;
    }
    var tmp := new char[SCRATCH];
    var sign := radix == 10 && value < 0;
    var v: nat := if sign then -value else if value < 0 then value + UINT32 else value;
    ThirtyTwoBits();
    DigitsFit(v, radix, 32);
    hide Digits, Pow2, Reversed;
    var tp := FillScratch(tmp, v, radix);
    var buffer: array<char>;
    if dest == null {
      buffer := new char[tp + (if sign then 1 else 0) + 1];
    } else {
      buffer := dest;
    }
    CopyOut(tmp, tp, sign, buffer);
    out := buffer;
  }
}
