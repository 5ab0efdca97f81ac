/** The mixed-endian GUID codec, over the text of a UUID. */
module Guid {
  import opened Wrappers
  import opened Wire

  predicate IsHex(c: char) {
    '0' <= c <= '9' || 'a' <= c <= 'f' || 'A' <= c <= 'F'
  }

  predicate AllHex(s: string) {
    forall i :: 0 <= i < |s| ==> IsHex(s[i])
  }

  /** Eight, four, four, four and twelve hex digits, with dashes between. */
  predicate IsUuid(s: string) {
    |s| == 36 && forall i :: 0 <= i < 36 ==> if IsDash(i) then s[i] == '-' else IsHex(s[i])
  }

  predicate IsDash(i: int) {
    i == 8 || i == 13 || i == 18 || i == 23
  }

  type Uuid = s: string | IsUuid(s) witness seq(36, i => if IsDash(i) then '-' else '0')

  type Digit = d: int | 0 <= d < 16

  function Nibble(c: char): Digit
    requires IsHex(c)
  {
    if c <= '9' then c as int - '0' as int
    else if c <= 'F' then c as int - 'A' as int + 10
    else c as int - 'a' as int + 10
  }

  /** `parseInt(s, 16)`. */
  function ParseHex(s: string): nat
    requires AllHex(s)
  {
    if s == "" then 0 else 16 * ParseHex(s[..|s| - 1]) + Nibble(s[|s| - 1])
  }

  function HexChar(d: Digit): (c: char)
    ensures IsHex(c) && Nibble(c) == d
  {
    if d < 10 then ('0' as int + d) as char else ('a' as int + d - 10) as char
  }

  /** `v.toString(16)`: no leading zeros. */
  function ToHex(v: nat): (s: string)
    ensures s != ""
  {
    (if v < 16 then "" else ToHex(v / 16)) + [HexChar(v % 16)]
  }

  /** `s.padStart(n, "0")`. */
  function PadStart(s: string, n: nat): string
    decreases n - |s|
  {
    if |s| >= n then s else PadStart("0" + s, n)
  }

  function UpperChar(c: char): char {
    if 'a' <= c <= 'z' then (c as int - 32) as char else c
  }

  function Upper(s: string): (r: string)
    ensures |r| == |s|
  {
    seq(|s|, i requires 0 <= i < |s| => UpperChar(s[i]))
  }

  lemma UpperIsUuid(g: Uuid)
    ensures IsUuid(Upper(g))
  {
  }

  /** `Buffer.from(s, "hex")`. */
  function HexToBytes(s: string): (b: Bytes)
    requires AllHex(s) && |s| % 2 == 0
    ensures |b| == |s| / 2
  {
    if s == "" then [] else [16 * Nibble(s[0]) + Nibble(s[1])] + HexToBytes(s[2..])
  }

  /** `b.toString("hex")`. */
  function BytesToHex(b: Bytes): string {
    if b == [] then "" else [HexChar(b[0] / 16), HexChar(b[0] % 16)] + BytesToHex(b[1..])
  }

  function GuidBytes(g: Uuid): Encoded {
    var d1 :- Unsigned(ParseHex(g[..8]), 4);
    var d2 :- Unsigned(ParseHex(g[9..13]), 2);
    var d3 :- Unsigned(ParseHex(g[14..18]), 2);
    assert AllHex(g[19..23]) && AllHex(g[24..]);
    Ok(d1 + d2 + d3 + HexToBytes(g[19..23] + g[24..]))
  }

  /** The text of a GUID, field by field. */
  function Dashed(p1: string, p2: string, p3: string, p4: string, p5: string): string {
    p1 + "-" + p2 + "-" + p3 + "-" + p4 + "-" + p5
  }

  function GuidText(d1: nat, d2: nat, d3: nat, d4a: Bytes, d4b: Bytes): string {
    Upper(Dashed(PadStart(ToHex(d1), 8), PadStart(ToHex(d2), 4), PadStart(ToHex(d3), 4),
                 BytesToHex(d4a), BytesToHex(d4b)))
  }

  function ReadGuid(s: Bytes): Parsed<Uuid> {
    var (d1, s1) :- ReadUnsigned(s, 4);
    var (d2, s2) :- ReadUnsigned(s1, 2);
    var (d3, s3) :- ReadUnsigned(s2, 2);
    var (d4a, s4) :- ReadBytes(s3, 2);
    var (d4b, s5) :- ReadBytes(s4, 6);
    LEOfFromLE(s[..4]);
    LEOfFromLE(s1[..2]);
    LEOfFromLE(s2[..2]);
    GuidTextIsUuid(d1, d2, d3, d4a, d4b);
    Got(GuidText(d1, d2, d3, d4a, d4b), s5)
  }

  // ----- padding makes hexadecimal fixed-width

  function Pow16(n: nat): nat {
    if n == 0 then 1 else 16 * Pow16(n - 1)
  }

  function FixedHex(v: nat, n: nat): (s: string)
    ensures |s| == n && AllHex(s)
  {
    if n == 0 then "" else FixedHex(v / 16, n - 1) + [HexChar(v % 16)]
  }

  lemma {:induction false} PadStartOfToHex(v: nat, n: nat)
    requires 0 < n && v < Pow16(n)
    ensures PadStart(ToHex(v), n) == FixedHex(v, n)
  {
    if v < 16 {
      assert ToHex(v) == [HexChar(v)];
      PadZeros([HexChar(v)], n);
    } else {
      PadStartOfToHex(v / 16, n - 1);
      PadAppend(ToHex(v / 16), HexChar(v % 16), n);
    }
  }

  lemma {:induction false} PadAppend(s: string, c: char, n: nat)
    requires 0 < n
    ensures PadStart(s + [c], n) == PadStart(s, n - 1) + [c]
    decreases n - |s|
  {
    if |s| < n - 1 {
      assert "0" + (s + [c]) == ("0" + s) + [c];
      PadAppend("0" + s, c, n);
    }
  }

  lemma {:induction false} PadZeros(s: string, n: nat)
    requires |s| <= n
    ensures PadStart(s, n) == FixedHex(0, n - |s|) + s
    decreases n - |s|
  {
    if |s| < n {
      PadZeros("0" + s, n);
      FixedZeros(n - |s| - 1);
      FixedZeros(n - |s|);
    }
  }

  lemma {:induction false} FixedZeros(n: nat)
    ensures FixedHex(0, n) == seq(n, _ => '0')
  {
    if n > 0 {
      FixedZeros(n - 1);
    }
  }

  lemma UpperOfConcat(a: string, b: string)
    ensures Upper(a + b) == Upper(a) + Upper(b)
  {
  }

  lemma UpperOfHex(s: string)
    requires AllHex(s)
    ensures AllHex(Upper(s))
  {
  }

  lemma UpperOfDashed(p1: string, p2: string, p3: string, p4: string, p5: string)
    ensures Upper(Dashed(p1, p2, p3, p4, p5)) == Dashed(Upper(p1), Upper(p2), Upper(p3), Upper(p4), Upper(p5))
  {
    assert Upper("-") == "-";
    UpperOfConcat(p1, "-");
    UpperOfConcat(p1 + "-", p2);
    UpperOfConcat(p1 + "-" + p2, "-");
    UpperOfConcat(p1 + "-" + p2 + "-", p3);
    UpperOfConcat(p1 + "-" + p2 + "-" + p3, "-");
    UpperOfConcat(p1 + "-" + p2 + "-" + p3 + "-", p4);
    UpperOfConcat(p1 + "-" + p2 + "-" + p3 + "-" + p4, "-");
    UpperOfConcat(p1 + "-" + p2 + "-" + p3 + "-" + p4 + "-", p5);
  }

  lemma DashedIsUuid(p1: string, p2: string, p3: string, p4: string, p5: string)
    requires |p1| == 8 && |p2| == |p3| == |p4| == 4 && |p5| == 12
    requires AllHex(p1) && AllHex(p2) && AllHex(p3) && AllHex(p4) && AllHex(p5)
    ensures IsUuid(Dashed(p1, p2, p3, p4, p5))
  {
  }

  lemma GuidTextIsUuid(d1: nat, d2: nat, d3: nat, d4a: Bytes, d4b: Bytes)
    requires d1 < Pow256(4) && d2 < Pow256(2) && d3 < Pow256(2) && |d4a| == 2 && |d4b| == 6
    ensures IsUuid(GuidText(d1, d2, d3, d4a, d4b))
    ensures GuidText(d1, d2, d3, d4a, d4b)
         == Dashed(Upper(FixedHex(d1, 8)), Upper(FixedHex(d2, 4)), Upper(FixedHex(d3, 4)),
                   Upper(BytesToHex(d4a)), Upper(BytesToHex(d4b)))
  {
    assert Pow16(8) == Pow256(4) == 0x1_0000_0000;
    assert Pow16(4) == Pow256(2) == 0x1_0000;
    PadStartOfToHex(d1, 8);
    PadStartOfToHex(d2, 4);
    PadStartOfToHex(d3, 4);
    BytesToHexIsHex(d4a);
    BytesToHexIsHex(d4b);
    var p1, p2, p3 := FixedHex(d1, 8), FixedHex(d2, 4), FixedHex(d3, 4);
    var p4, p5 := BytesToHex(d4a), BytesToHex(d4b);
    UpperOfDashed(p1, p2, p3, p4, p5);
    UpperOfHex(p1);
    UpperOfHex(p2);
    UpperOfHex(p3);
    UpperOfHex(p4);
    UpperOfHex(p5);
    DashedIsUuid(Upper(p1), Upper(p2), Upper(p3), Upper(p4), Upper(p5));
  }

  lemma {:induction false} BytesToHexIsHex(b: Bytes)
    ensures |BytesToHex(b)| == 2 * |b| && AllHex(BytesToHex(b))
  {
    if b != [] {
      BytesToHexIsHex(b[1..]);
    }
  }

  // ----- the round trip

  lemma {:induction false} FixedHexOfParseHex(s: string)
    requires AllHex(s)
    ensures ParseHex(s) < Pow16(|s|)
    ensures Upper(FixedHex(ParseHex(s), |s|)) == Upper(s)
  {
    if s != "" {
      var init, last := s[..|s| - 1], s[|s| - 1];
      FixedHexOfParseHex(init);
      assert ParseHex(s) / 16 == ParseHex(init) && ParseHex(s) % 16 == Nibble(last);
      var f := FixedHex(ParseHex(init), |s| - 1);
      forall i | 0 <= i < |s|
        ensures UpperChar((f + [HexChar(Nibble(last))])[i]) == UpperChar(s[i])
      {
        if i < |s| - 1 {
          assert UpperChar(f[i]) == Upper(f)[i] == Upper(init)[i];
        }
      }
    }
  }

  lemma HexOfByte(c: char, d: char)
    requires IsHex(c) && IsHex(d)
    ensures var a: int, b: int := Nibble(c), Nibble(d);
            Upper([HexChar((16 * a + b) / 16), HexChar((16 * a + b) % 16)]) == Upper([c, d])
  {
    var a: int, b: int := Nibble(c), Nibble(d);
    assert (16 * a + b) / 16 == a && (16 * a + b) % 16 == b;
  }

  lemma BytesToHexOfCons(n: Byte, b: Bytes)
    ensures BytesToHex([n] + b) == [HexChar(n / 16), HexChar(n % 16)] + BytesToHex(b)
  {
    hide HexChar;
    assert ([n] + b)[1..] == b;
  }

  lemma {:induction false} BytesToHexOfHexToBytes(s: string)
    requires AllHex(s) && |s| % 2 == 0
    ensures Upper(BytesToHex(HexToBytes(s))) == Upper(s)
  {
    if s != "" {
      var n: int, rest := 16 * Nibble(s[0]) + Nibble(s[1]), s[2..];
      BytesToHexOfHexToBytes(rest);
      HexOfByte(s[0], s[1]);
      hide Nibble, HexChar, Upper;
      var pair := [HexChar(n / 16), HexChar(n % 16)];
      assert HexToBytes(s) == [n] + HexToBytes(rest);
      BytesToHexOfCons(n, HexToBytes(rest));
      UpperOfConcat(pair, BytesToHex(HexToBytes(rest)));
      UpperOfConcat([s[0], s[1]], rest);
      assert s == [s[0], s[1]] + rest;
    }
  }

  lemma {:induction false} HexToBytesOfConcat(a: string, b: string)
    requires AllHex(a) && AllHex(b) && |a| % 2 == 0 && |b| % 2 == 0
    ensures HexToBytes(a + b) == HexToBytes(a) + HexToBytes(b)
  {
    if a == "" {
      assert a + b == b;
    } else {
      assert (a + b)[2..] == a[2..] + b;
      HexToBytesOfConcat(a[2..], b);
    }
  }

  lemma ReadGuidFields(v1: nat, v2: nat, v3: nat, d4a: Bytes, d4b: Bytes, rest: Bytes)
    requires v1 < Pow256(4) && v2 < Pow256(2) && v3 < Pow256(2) && |d4a| == 2 && |d4b| == 6
    ensures IsUuid(GuidText(v1, v2, v3, d4a, d4b))
    ensures ReadGuid(LE(v1, 4) + LE(v2, 2) + LE(v3, 2) + (d4a + d4b) + rest)
         == Got(GuidText(v1, v2, v3, d4a, d4b), rest)
  {
    GuidTextIsUuid(v1, v2, v3, d4a, d4b);
    hide FromLE, LE, GuidText, Pow256, IsUuid, ReadUnsigned, ReadBytes;
    var t4 := d4b + rest;
    var t3 := d4a + t4;
    var t2 := LE(v3, 2) + t3;
    var t1 := LE(v2, 2) + t2;
    Regroup(LE(v1, 4) + LE(v2, 2) + LE(v3, 2), d4a + d4b, rest);
    Regroup(d4a, d4b, rest);
    Regroup(LE(v1, 4) + LE(v2, 2), LE(v3, 2), t3);
    Regroup(LE(v1, 4), LE(v2, 2), t2);
    UnsignedAt(v1, 4, t1);
    UnsignedAt(v2, 2, t2);
    UnsignedAt(v3, 2, t3);
    ReadBytesRoundTrip(d4a, t4);
    ReadBytesRoundTrip(d4b, rest);
  }

  lemma UnsignedAt(v: nat, n: nat, rest: Bytes)
    requires v < Pow256(n)
    ensures ReadUnsigned(LE(v, n) + rest, n) == Got(v, rest)
  {
    UnsignedRoundTrip(v, n, rest);
  }

  lemma GuidTextOfHex(p1: string, p2: string, p3: string, p4: string, p5: string)
    requires |p1| == 8 && |p2| == |p3| == |p4| == 4 && |p5| == 12
    requires AllHex(p1) && AllHex(p2) && AllHex(p3) && AllHex(p4) && AllHex(p5)
    ensures ParseHex(p1) < Pow256(4) && ParseHex(p2) < Pow256(2) && ParseHex(p3) < Pow256(2)
    ensures GuidText(ParseHex(p1), ParseHex(p2), ParseHex(p3), HexToBytes(p4), HexToBytes(p5))
         == Upper(Dashed(p1, p2, p3, p4, p5))
  {
    assert Pow16(8) == Pow256(4) == 0x1_0000_0000;
    assert Pow16(4) == Pow256(2) == 0x1_0000;
    FixedHexOfParseHex(p1);
    FixedHexOfParseHex(p2);
    FixedHexOfParseHex(p3);
    BytesToHexOfHexToBytes(p4);
    BytesToHexOfHexToBytes(p5);
    GuidTextIsUuid(ParseHex(p1), ParseHex(p2), ParseHex(p3), HexToBytes(p4), HexToBytes(p5));
    UpperOfDashed(p1, p2, p3, p4, p5);
  }

  lemma UuidParts(g: Uuid)
    ensures AllHex(g[..8]) && AllHex(g[9..13]) && AllHex(g[14..18]) && AllHex(g[19..23]) && AllHex(g[24..])
    ensures g == Dashed(g[..8], g[9..13], g[14..18], g[19..23], g[24..])
  {
  }

  /** Any UUID text is written, and reads back as the same digits in upper case. */
  lemma GuidRoundTrip(g: Uuid, rest: Bytes)
    ensures GuidBytes(g).Ok?
    ensures ReadGuid(GuidBytes(g).value + rest) == Got(Upper(g), rest)
  {
    var (p1, p2, p3, p4, p5) := (g[..8], g[9..13], g[14..18], g[19..23], g[24..]);
    hide FromLE, LE, GuidText, ReadGuid, HexToBytes, ParseHex;
    UuidParts(g);
    GuidTextOfHex(p1, p2, p3, p4, p5);
    HexToBytesOfConcat(p4, p5);
    var d4 := HexToBytes(p4) + HexToBytes(p5);
    assert GuidBytes(g) == Ok(LE(ParseHex(p1), 4) + LE(ParseHex(p2), 2) + LE(ParseHex(p3), 2) + d4);
    ReadGuidFields(ParseHex(p1), ParseHex(p2), ParseHex(p3), HexToBytes(p4), HexToBytes(p5), rest);
  }

  /** Writing does not see the case of the digits, so a UUID read back is written as the same bytes. */
  lemma GuidBytesOfUpper(g: Uuid)
    ensures IsUuid(Upper(g)) && GuidBytes(Upper(g)) == GuidBytes(g)
  {
    UpperIsUuid(g);
    hide Upper, ParseHex, HexToBytes, Unsigned;
    var u := Upper(g);
    UuidParts(g);
    UpperSlice(g, 0, 8);
    UpperSlice(g, 9, 13);
    UpperSlice(g, 14, 18);
    UpperSlice(g, 19, 23);
    UpperSlice(g, 24, 36);
    UpperOfConcat(g[19..23], g[24..]);
    ParseHexOfUpper(g[..8]);
    ParseHexOfUpper(g[9..13]);
    ParseHexOfUpper(g[14..18]);
    HexToBytesOfUpper(g[19..23] + g[24..]);
    assert g[0..8] == g[..8] && u[0..8] == u[..8] && g[24..36] == g[24..] && u[24..36] == u[24..];
  }

  lemma UpperSlice(s: string, i: nat, j: nat)
    requires i <= j <= |s|
    ensures Upper(s)[i..j] == Upper(s[i..j])
  {
    hide UpperChar;
  }

  lemma {:induction false} ParseHexOfUpper(s: string)
    requires AllHex(s)
    ensures AllHex(Upper(s)) && ParseHex(Upper(s)) == ParseHex(s)
  {
    if s != "" {
      ParseHexOfUpper(s[..|s| - 1]);
      assert Upper(s)[..|s| - 1] == Upper(s[..|s| - 1]);
    }
  }

  lemma {:induction false} HexToBytesOfUpper(s: string)
    requires AllHex(s) && |s| % 2 == 0
    ensures AllHex(Upper(s)) && HexToBytes(Upper(s)) == HexToBytes(s)
  {
    if s != "" {
      HexToBytesOfUpper(s[2..]);
      assert Upper(s)[2..] == Upper(s[2..]);
    }
  }
}
