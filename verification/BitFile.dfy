/** scripts/fpga-bit-to-bin.py: reads the tag-length-value layout of an FPGA bit file,
    extracts the binary payload, and optionally swaps the bytes of its 32-bit words. */
module BitFile {

  type Byte = b: nat | b < 256

  /** The exceptions the script ends with. */
  datatype Error = ShortRead | NotBitFile | MissingA | UnexpectedEof | OddLength

  datatype Result = Ok(payload: seq<Byte>) | Err(error: Error)

  const HEADER := 9
  const KEY_A: Byte := 97     // 'a'
  const KEY_E: Byte := 101    // 'e'

  // -------------------------------------------------------------------- integers

  function U16(s: seq<Byte>): (n: nat)
    requires |s| == 2
    ensures n < 0x1_0000
  {
    s[0] as int * 256 + s[1] as int
  }

  function U32(s: seq<Byte>): (n: nat)
    requires |s| == 4
    ensures n < 0x1_0000_0000
  {
    U16(s[..2]) * 0x1_0000 + U16(s[2..])
  }

  function Put16(n: nat): (s: seq<Byte>)
    requires n < 0x1_0000
    ensures |s| == 2 && U16(s) == n
  {
    var high: Byte, low: Byte := n / 256, n % 256;
    [high, low]
  }

  function Put32(n: nat): (s: seq<Byte>)
    requires n < 0x1_0000_0000
    ensures |s| == 4 && U32(s) == n
  {
    var s := Put16(n / 0x1_0000) + Put16(n % 0x1_0000);
    assert s[..2] == Put16(n / 0x1_0000) && s[2..] == Put16(n % 0x1_0000);
    s
  }

  lemma U16Unique(s: seq<Byte>, t: seq<Byte>)
    requires |s| == |t| == 2 && U16(s) == U16(t)
    ensures s == t
  {
  }

  lemma U32Unique(s: seq<Byte>, t: seq<Byte>)
    requires |s| == |t| == 4 && U32(s) == U32(t)
    ensures s == t
  {
    assert U16(s[..2]) == U16(t[..2]) && U16(s[2..]) == U16(t[2..]);
    U16Unique(s[..2], t[..2]);
    U16Unique(s[2..], t[2..]);
    assert s == s[..2] + s[2..] && t == t[..2] + t[2..];
  }

  // ----------------------------------------------------------------- byte flipping

  /** Every group of four bytes reversed. */
  function Flip(s: seq<Byte>): (r: seq<Byte>)
    requires |s| % 4 == 0
    ensures |r| == |s|
  {
    if s == [] then [] else [s[3], s[2], s[1], s[0]] + Flip(s[4..])
  }

  /** Flipping twice gives the data back. */
  lemma {:induction false} FlipTwice(s: seq<Byte>)
    requires |s| % 4 == 0
    ensures Flip(Flip(s)) == s
  {
    if s == [] {
    } else {
      FlipTwice(s[4..]);
      assert Flip(s)[4..] == Flip(s[4..]);
      assert s == [s[0], s[1], s[2], s[3]] + s[4..];
    }
  }

  lemma FlipEmpty(s: seq<Byte>)
    requires s == []
    ensures Flip(s) == []
  {
  }

  /** One more word is flipped behind what is already there. */
  lemma {:induction false} FlipSnoc(s: seq<Byte>, w: seq<Byte>)
    requires |s| % 4 == 0 && |w| == 4
    ensures Flip(s + w) == Flip(s) + [w[3], w[2], w[1], w[0]]
  {
    if s == [] {
      assert s + w == w && w[4..] == [];
    } else {
      FlipSnoc(s[4..], w);
      assert (s + w)[4..] == s[4..] + w;
    }
  }

  /** The bytes of each word of four in reverse. */
  ghost predicate Mirrored(s: seq<Byte>, r: seq<Byte>) {
    && |r| == |s| && |s| % 4 == 0
    && forall k :: 0 <= k < |s| ==> r[k] == s[k / 4 * 4 + 3 - k % 4]
  }

  /** Byte k of the result is the byte at the mirrored place of its word. */
  lemma {:induction false} FlipAt(s: seq<Byte>, k: nat)
    requires |s| % 4 == 0 && k < |s|
    ensures Flip(s)[k] == s[k / 4 * 4 + 3 - k % 4]
  {
    MirroredPlace(|s|, k);
    if k < 4 {
      assert Flip(s)[..4] == [s[3], s[2], s[1], s[0]];
    } else {
      FlipAt(s[4..], k - 4);
      assert Flip(s)[4..] == Flip(s[4..]);
    }
  }

  lemma MirroredPlace(n: nat, k: nat)
    requires n % 4 == 0 && k < n
    ensures k / 4 * 4 + 3 - k % 4 < n
    ensures k >= 4 ==> (k - 4) / 4 * 4 + 3 - (k - 4) % 4 + 4 == k / 4 * 4 + 3 - k % 4
    ensures k < 4 ==> k / 4 * 4 + 3 - k % 4 == 3 - k
  {
  }

  lemma FlipWord(s: seq<Byte>, n: nat)
    requires n % 4 == 0 && n + 4 <= |s|
    ensures Flip(s[..n + 4]) == Flip(s[..n]) + [s[n + 3], s[n + 2], s[n + 1], s[n]]
  {
    hide Flip;
    FlipSnoc(s[..n], s[n..n + 4]);
    assert s[..n + 4] == s[..n] + s[n..n + 4];
  }

  /** flip32: fills a fresh buffer word by word; a length that is no multiple of four
      ends in the unpacker's exception. */
  method Flip32(data: seq<Byte>) returns (r: Result)
    ensures |data| % 4 != 0 ==> r == Err(OddLength)
    ensures |data| % 4 == 0 ==> r == Ok(Flip(data))
  {
    hide Flip, Put32, LittleEndian;
    var d := new Byte[|data|];
    var offset := 0;
    FlipEmpty(data[..0]);
    while offset < |data|
      invariant 0 <= offset <= |data| && offset % 4 == 0
      invariant d[..offset] == Flip(data[..offset])
    {
      if offset + 4 > |data| {
        return Err(OddLength);
      }
      ghost var done := d[..offset];
      var w := data[offset..offset + 4];
      var big := Put32(LittleEndian(w));
      SwapsBytes(w);
      d[offset], d[offset + 1], d[offset + 2], d[offset + 3] := big[0], big[1], big[2], big[3];
      FlipWord(data, offset);
      assert d[..offset + 4] == done + [w[3], w[2], w[1], w[0]];
      offset := offset + 4;
    }
    assert data[..|data|] == data && d[..|data|] == d[..];
    r := Ok(d[..]);
  }

  /** The little-endian reading of four bytes. */
  function LittleEndian(w: seq<Byte>): (n: nat)
    requires |w| == 4
    ensures n < 0x1_0000_0000
  {
    ((w[3] as int * 256 + w[2] as int) * 256 + w[1] as int) * 256 + w[0] as int
  }

  /** Unpack little-endian, pack big-endian: the four bytes reversed. */
  lemma SwapsBytes(w: seq<Byte>)
    requires |w| == 4
    ensures Put32(LittleEndian(w)) == [w[3], w[2], w[1], w[0]]
  {
    var r := [w[3], w[2], w[1], w[0]];
    assert r[..2] == [w[3], w[2]] && r[2..] == [w[1], w[0]];
    U32Unique(Put32(LittleEndian(w)), r);
  }

  // ----------------------------------------------------------------------- layout

  datatype Record = Record(key: Byte, data: seq<Byte>) {
    predicate Legal() {
      key != KEY_E && |data| < 0x1_0000
    }
  }

  predicate AllLegal(recs: seq<Record>) {
    forall k :: 0 <= k < |recs| ==> recs[k].Legal()
  }

  /** A 16-bit length and that many bytes, before the rest of the file. */
  function EncodeField(d: seq<Byte>, rest: seq<Byte>): seq<Byte>
    requires |d| < 0x1_0000
  {
    Put16(|d|) + (d + rest)
  }

  /** Tagged records before the rest of the file. */
  function EncodeRecords(recs: seq<Record>, rest: seq<Byte>): seq<Byte>
    requires AllLegal(recs)
  {
    if recs == [] then rest
    else [recs[0].key] + EncodeField(recs[0].data, EncodeRecords(recs[1..], rest))
  }

  function EncodeBody(recs: seq<Record>, n: nat, tail: seq<Byte>): seq<Byte>
    requires AllLegal(recs) && n < 0x1_0000_0000
  {
    EncodeRecords(recs, [KEY_E] + (Put32(n) + tail))
  }

  /** A whole file: header, the key 'a' behind a length of one, the design name, the
      records, and a payload announced as n bytes. */
  function Encode(header: seq<Byte>, design: seq<Byte>, recs: seq<Record>, n: nat, tail: seq<Byte>): seq<Byte>
    requires |header| == HEADER && |design| < 0x1_0000 && n < 0x1_0000_0000 && AllLegal(recs)
  {
    EncodeField(header, EncodeField([KEY_A], EncodeField(design, EncodeBody(recs, n, tail))))
  }

  /** The layout in bytes, lengths most significant byte first: a field of nine, the field
      'a', the design name; each record behind its key; 'e' and four bytes of length
      before the payload. */
  lemma LayoutBytes(header: seq<Byte>, design: seq<Byte>, recs: seq<Record>, n: nat, tail: seq<Byte>)
    requires |header| == 9 && |design| < 0x1_0000 && n < 0x1_0000_0000 && AllLegal(recs)
    ensures Encode(header, design, recs, n, tail)
         == [0, 9] + header + [0, 1, 97] + [|design| / 256, |design| % 256] + design + EncodeBody(recs, n, tail)
    ensures var length := [n / 0x100_0000, n / 0x1_0000 % 256, n / 256 % 256, n % 256];
            recs == [] ==> EncodeBody(recs, n, tail) == [101] + length + tail
    ensures recs != [] ==>
              var d := recs[0].data;
              EncodeBody(recs, n, tail) == [recs[0].key, |d| / 256, |d| % 256] + d + EncodeBody(recs[1..], n, tail)
  {
    LengthBytes(n);
    FieldBytes(header, EncodeField([KEY_A], EncodeField(design, EncodeBody(recs, n, tail))));
    FieldBytes([KEY_A], EncodeField(design, EncodeBody(recs, n, tail)));
    FieldBytes(design, EncodeBody(recs, n, tail));
    if recs == [] {
      assert EncodeBody(recs, n, tail) == [KEY_E] + (Put32(n) + tail);
    } else {
      FieldBytes(recs[0].data, EncodeBody(recs[1..], n, tail));
      assert EncodeBody(recs, n, tail) == [recs[0].key] + EncodeField(recs[0].data, EncodeBody(recs[1..], n, tail));
    }
    hide EncodeBody, EncodeRecords, EncodeField, Put32;
  }

  lemma FieldBytes(d: seq<Byte>, rest: seq<Byte>)
    requires |d| < 0x1_0000
    ensures EncodeField(d, rest) == [|d| / 256, |d| % 256] + d + rest
  {
  }

  lemma LengthBytes(n: nat)
    requires n < 0x1_0000_0000
    ensures Put32(n) == [n / 0x100_0000, n / 0x1_0000 % 256, n / 256 % 256, n % 256]
  {
    HighHalf(n);
    LowHalf(n);
  }

  lemma HighHalf(n: nat)
    ensures n / 0x1_0000 / 256 == n / 0x100_0000
  {
  }

  lemma LowHalf(n: nat)
    ensures n % 0x1_0000 / 256 == n / 256 % 256 && n % 0x1_0000 % 256 == n % 256
  {
    var q, low := n / 0x1_0000, n % 0x1_0000;
    assert n == 256 * (256 * q + low / 256) + low % 256;
  }

  // ---------------------------------------------------------------------- parsing

  /** A file read returns at most n bytes; what is left follows. */
  function Take(s: seq<Byte>, n: nat): seq<Byte> {
    if n <= |s| then s[..n] else s
  }

  function Drop(s: seq<Byte>, n: nat): (r: seq<Byte>)
    ensures |r| <= |s|
  {
    if n <= |s| then s[n..] else []
  }

  datatype Field = Short | Field(length: nat, data: seq<Byte>, rest: seq<Byte>)

  function ParseField(s: seq<Byte>): Field {
    if |s| < 2 then Short
    else Field(U16(s[..2]), Take(s[2..], U16(s[..2])), Drop(s[2..], U16(s[..2])))
  }

  function ParsePayload(s: seq<Byte>): Result {
    if |s| < 4 then Err(ShortRead) else Ok(Take(s[4..], U32(s[..4])))
  }

  /** The loop over the tagged records. */
  function ParseRecords(s: seq<Byte>): Result
    decreases |s|
  {
    if s == [] then Err(UnexpectedEof)
    else if s[0] == KEY_E then ParsePayload(s[1..])
    else
      match ParseField(s[1..])
      case Short => Err(ShortRead)
      case Field(_, _, rest) => ParseRecords(rest)
  }

  function ParseDesign(s: seq<Byte>): Result {
    match ParseField(s)
    case Short => Err(ShortRead)
    case Field(_, _, rest) => ParseRecords(rest)
  }

  function ParseKey(s: seq<Byte>): Result {
    match ParseField(s)
    case Short => Err(ShortRead)
    case Field(_, d, rest) => if d != [KEY_A] then Err(MissingA) else ParseDesign(rest)
  }

  function ParseFile(f: seq<Byte>): Result {
    match ParseField(f)
    case Short => Err(ShortRead)
    case Field(l, _, rest) => if l != HEADER then Err(NotBitFile) else ParseKey(rest)
  }

  // ------------------------------------------------------------------- round trip

  lemma Split(a: seq<Byte>, b: seq<Byte>)
    ensures (a + b)[..|a|] == a && (a + b)[|a|..] == b
    ensures Take(a + b, |a|) == a && Drop(a + b, |a|) == b
  {
  }

  lemma FieldRoundTrip(d: seq<Byte>, rest: seq<Byte>)
    requires |d| < 0x1_0000
    ensures ParseField(EncodeField(d, rest)) == Field(|d|, d, rest)
  {
    hide Take, Drop;
    Split(Put16(|d|), d + rest);
    Split(d, rest);
  }

  lemma PayloadRoundTrip(n: nat, tail: seq<Byte>)
    requires n < 0x1_0000_0000
    ensures ParsePayload(Put32(n) + tail) == Ok(Take(tail, n))
  {
    hide Take, Put32;
    Split(Put32(n), tail);
  }

  /** The loop skips every record with another key than 'e'. */
  lemma {:induction false} RecordsSkipped(recs: seq<Record>, rest: seq<Byte>)
    requires AllLegal(recs)
    ensures ParseRecords(EncodeRecords(recs, rest)) == ParseRecords(rest)
  {
    hide ParseField, EncodeField, ParsePayload;
    if recs == [] {
    } else {
      var more := EncodeRecords(recs[1..], rest);
      var field := EncodeField(recs[0].data, more);
      RecordsSkipped(recs[1..], rest);
      FieldRoundTrip(recs[0].data, more);
      assert ([recs[0].key] + field)[1..] == field;
    }
  }

  lemma BodyRoundTrip(recs: seq<Record>, n: nat, tail: seq<Byte>)
    requires AllLegal(recs) && n < 0x1_0000_0000
    ensures ParseRecords(EncodeBody(recs, n, tail)) == Ok(Take(tail, n))
  {
    hide Take, Put32, ParsePayload, ParseField, EncodeRecords;
    RecordsSkipped(recs, [KEY_E] + (Put32(n) + tail));
    Split([KEY_E], Put32(n) + tail);
    PayloadRoundTrip(n, tail);
  }

  /** For every header, design name, list of records with keys other than 'e', announced
      length and tail, the parser terminates with the announced part of the tail. */
  lemma EncodeParse(header: seq<Byte>, design: seq<Byte>, recs: seq<Record>, n: nat, tail: seq<Byte>)
    requires |header| == HEADER && |design| < 0x1_0000 && n < 0x1_0000_0000 && AllLegal(recs)
    ensures ParseFile(Encode(header, design, recs, n, tail)) == Ok(Take(tail, n))
  {
    hide ParseField, EncodeField, EncodeBody, ParseRecords, Take;
    var body := EncodeBody(recs, n, tail);
    BodyRoundTrip(recs, n, tail);
    FieldRoundTrip(design, body);
    FieldRoundTrip([KEY_A], EncodeField(design, body));
    FieldRoundTrip(header, EncodeField([KEY_A], EncodeField(design, body)));
  }

  /** In particular a complete payload comes back exactly, whatever follows it. */
  lemma PayloadRecovered(header: seq<Byte>, design: seq<Byte>, recs: seq<Record>,
                         payload: seq<Byte>, trailing: seq<Byte>)
    requires |header| == HEADER && |design| < 0x1_0000 && |payload| < 0x1_0000_0000 && AllLegal(recs)
    ensures ParseFile(Encode(header, design, recs, |payload|, payload + trailing)) == Ok(payload)
  {
    hide Encode, ParseFile;
    EncodeParse(header, design, recs, |payload|, payload + trailing);
    Split(payload, trailing);
  }

  // -------------------------------------------------------------------- the converse

  lemma FieldShape(s: seq<Byte>)
    requires var f := ParseField(s); f.Field? && f.rest != []
    ensures var f := ParseField(s); f.length == |f.data| < 0x1_0000 && s == EncodeField(f.data, f.rest)
  {
    var m := U16(s[..2]);
    U16Unique(s[..2], Put16(m));
    assert s == s[..2] + (s[2..][..m] + s[2..][m..]);
  }

  lemma PayloadShape(s: seq<Byte>) returns (n: nat, tail: seq<Byte>)
    requires ParsePayload(s).Ok?
    ensures n < 0x1_0000_0000 && s == Put32(n) + tail && ParsePayload(s) == Ok(Take(tail, n))
  {
    n, tail := U32(s[..4]), s[4..];
    U32Unique(s[..4], Put32(n));
    assert s == s[..4] + s[4..];
  }

  lemma {:induction false} BodyShape(s: seq<Byte>) returns (recs: seq<Record>, n: nat, tail: seq<Byte>)
    requires ParseRecords(s).Ok?
    ensures AllLegal(recs) && n < 0x1_0000_0000
    ensures s == EncodeBody(recs, n, tail) && ParseRecords(s) == Ok(Take(tail, n))
    decreases |s|
  {
    hide Take, Put32, ParsePayload, EncodeField;
    assert s == [s[0]] + s[1..];
    if s[0] == KEY_E {
      n, tail := PayloadShape(s[1..]);
      recs := [];
    } else {
      var f := ParseField(s[1..]);
      FieldShape(s[1..]);
      var more;
      more, n, tail := BodyShape(f.rest);
      var r := Record(s[0], f.data);
      recs := [r] + more;
      assert recs[1..] == more;
    }
  }

  /** Conversely, every file the parser accepts has that layout. The one thing it does
      not check is that the tail is as long as announced: a truncated payload is taken
      as it is. */
  lemma AcceptedShape(f: seq<Byte>)
    returns (header: seq<Byte>, design: seq<Byte>, recs: seq<Record>, n: nat, tail: seq<Byte>)
    requires ParseFile(f).Ok?
    ensures |header| == HEADER && |design| < 0x1_0000 && n < 0x1_0000_0000 && AllLegal(recs)
    ensures f == Encode(header, design, recs, n, tail)
    ensures ParseFile(f) == Ok(Take(tail, n))
  {
    hide ParseField, EncodeField, EncodeBody, Take, U16, U32;
    var h := ParseField(f);
    NonEmptyRest(h.rest);
    FieldShape(f);
    var a := ParseField(h.rest);
    NonEmptyRest(a.rest);
    FieldShape(h.rest);
    var d := ParseField(a.rest);
    FieldShape(a.rest);
    header, design := h.data, d.data;
    recs, n, tail := BodyShape(d.rest);
  }

  /** The errors: a file of less than two bytes is cut short, one that does not begin with
      the length nine is no bit file, the field after the header must be 'a', and a file
      that ends with its records has no payload. */
  lemma RejectedFiles(header: seq<Byte>, key: seq<Byte>, design: seq<Byte>, recs: seq<Record>, rest: seq<Byte>)
    requires |header| == 9 && |key| < 0x1_0000 && |design| < 0x1_0000 && AllLegal(recs)
    ensures |rest| < 2 ==> ParseFile(rest) == Err(ShortRead)
    ensures |rest| >= 2 && rest[0] as int * 256 + rest[1] as int != 9 ==> ParseFile(rest) == Err(NotBitFile)
    ensures key != [97] ==> ParseFile(EncodeField(header, EncodeField(key, rest))) == Err(MissingA)
    ensures ParseFile(EncodeField(header, EncodeField([97], EncodeField(design, EncodeRecords(recs, [])))))
         == Err(UnexpectedEof)
  {
    RecordsSkipped(recs, []);
    hide EncodeField, EncodeRecords, Take, Drop;
    var end := EncodeField(design, EncodeRecords(recs, []));
    FieldRoundTrip(key, rest);
    FieldRoundTrip(header, EncodeField(key, rest));
    FieldRoundTrip(design, EncodeRecords(recs, []));
    FieldRoundTrip([97], end);
    FieldRoundTrip(header, EncodeField([97], end));
  }

  lemma NonEmptyRest(s: seq<Byte>)
    ensures ParseField(s).Field? ==> s != []
  {
  }

  // ----------------------------------------------------------------------- the script

  /** An open file: reads move the cursor and stop at the end. */
  class File {
    const data: seq<Byte>
    var cursor: nat

    ghost predicate Valid()
      reads this
    {
      cursor <= |data|
    }

    ghost function Left(): seq<Byte>
      reads this
      requires Valid()
    {
      data[cursor..]
    }

    constructor (data: seq<Byte>)
      ensures Valid() && this.data == data && Left() == data
    {
      this.data, cursor := data, 0;
    }

    method Read(n: nat) returns (d: seq<Byte>)
      requires Valid()
      modifies this
      ensures Valid() && d == Take(old(Left()), n) && Left() == Drop(old(Left()), n)
      ensures |Left()| + |d| == |old(Left())|
    {
      var end := if cursor + n <= |data| then cursor + n else |data|;
      d := data[cursor..end];
      cursor := end;
    }

    /** A big-endian 16-bit length and that many bytes; None on a short read. */
    method ReadField() returns (f: Field)
      requires Valid()
      modifies this
      ensures Valid() && f == ParseField(old(Left()))
      ensures f.Field? ==> Left() == f.rest && |f.rest| < |old(Left())|
    {
      ghost var s := Left();
      var head := Read(2);
      if |head| < 2 {
        return Short;
      }
      var l := U16(head);
      assert Left() == s[2..];
      var d := Read(l);
      f := Field(l, d, data[cursor..]);
    }
  }

  /** What the script writes: the parsed payload, flipped on request. */
  function Output(r: Result, flip: bool): Result {
    if r.Ok? && flip then
      if |r.payload| % 4 == 0 then Ok(Flip(r.payload)) else Err(OddLength)
    else r
  }

  /** Without the flag nothing is changed; with it each byte goes to the mirrored place of
      its word, and a payload of any other length ends in the unpacker's exception. */
  lemma OutputBytes(r: Result, flip: bool)
    ensures !flip || r.Err? ==> Output(r, flip) == r
    ensures flip && r.Ok? && |r.payload| % 4 != 0 ==> Output(r, flip) == Err(OddLength)
    ensures flip && r.Ok? && |r.payload| % 4 == 0 ==>
              Output(r, flip).Ok? && Mirrored(r.payload, Output(r, flip).payload)
  {
    if flip && r.Ok? && |r.payload| % 4 == 0 {
      forall k | 0 <= k < |r.payload|
        ensures Flip(r.payload)[k] == r.payload[k / 4 * 4 + 3 - k % 4]
      {
        FlipAt(r.payload, k);
      }
    }
    hide Flip;
  }

  /** From a laid-out file to the output: the payload as it is without the flag, word by
      word mirrored with it. */
  lemma EncodedOutput(header: seq<Byte>, design: seq<Byte>, recs: seq<Record>,
                      payload: seq<Byte>, trailing: seq<Byte>)
    requires |header| == HEADER && |design| < 0x1_0000 && |payload| < 0x1_0000_0000 && AllLegal(recs)
    ensures var parsed := ParseFile(Encode(header, design, recs, |payload|, payload + trailing));
            && Output(parsed, false) == Ok(payload)
            && (|payload| % 4 != 0 ==> Output(parsed, true) == Err(OddLength))
            && (|payload| % 4 == 0 ==>
                  Output(parsed, true).Ok? && Mirrored(payload, Output(parsed, true).payload))
  {
    hide *;
    PayloadRecovered(header, design, recs, payload, trailing);
    OutputBytes(Ok(payload), false);
    OutputBytes(Ok(payload), true);
  }

  /** The script from its first read to its output file. */
  method Convert(f: seq<Byte>, flip: bool) returns (r: Result)
    ensures r == Output(ParseFile(f), flip)
    ensures !flip || ParseFile(f).Err? ==> r == ParseFile(f)
    ensures flip && ParseFile(f).Ok? ==>
              var p := ParseFile(f).payload;
              if |p| % 4 != 0 then r == Err(OddLength) else r.Ok? && Mirrored(p, r.payload)
  {
    OutputBytes(ParseFile(f), flip);
    hide Take, Drop, ParseField, ParseRecords, Flip;
    var file := new File(f);
    var header := file.ReadField();
    if header.Short? {
      return Err(ShortRead);
    }
    if header.length != HEADER {
      return Err(NotBitFile);
    }
    var key := file.ReadField();
    if key.Short? {
      return Err(ShortRead);
    }
    if key.data != [KEY_A] {
      return Err(MissingA);
    }
    var design := file.ReadField();
    if design.Short? {
      return Err(ShortRead);
    }
    r := ConvertRecords(file, flip);
  }

  /** The loop over the tagged records. */
  method ConvertRecords(file: File, flip: bool) returns (r: Result)
    requires file.Valid()
    modifies file
    ensures r == Output(ParseRecords(old(file.Left())), flip)
    ensures var parsed := ParseRecords(old(file.Left()));
            && (!flip || parsed.Err? ==> r == parsed)
            && (flip && parsed.Ok? ==>
                  var p := parsed.payload;
                  if |p| % 4 != 0 then r == Err(OddLength) else r.Ok? && Mirrored(p, r.payload))
  {
    OutputBytes(ParseRecords(file.Left()), flip);
    hide ParseField, Flip, U32;
    ghost var start := file.Left();
    while true
      invariant file.Valid() && ParseRecords(file.Left()) == ParseRecords(start)
      decreases |file.Left()|
    {
      ghost var s := file.Left();
      var k := file.Read(1);
      if k == [] {
        return Err(UnexpectedEof);
      }
      assert k == [s[0]] && file.Left() == s[1..];
      if k == [KEY_E] {
        var payload := ReadPayload(file);
        r := payload;
        if r.Ok? && flip {
          r := Flip32(r.payload);
        }
        return;
      }
      var field := file.ReadField();
      if field.Short? {
        return Err(ShortRead);
      }
    }
  }

  method ReadPayload(file: File) returns (r: Result)
    requires file.Valid()
    modifies file
    ensures file.Valid() && r == ParsePayload(old(file.Left()))
  {
    ghost var s := file.Left();
    var long := file.Read(4);
    if |long| < 4 {
      return Err(ShortRead);
    }
    assert file.Left() == s[4..];
    var d := file.Read(U32(long));
    r := Ok(d);
  }
}
