/**
 Bytes, little-endian integers, and the reading half of a byte cursor.

 A byte is an integer below 256. The bitwise OR of disjoint masks is written as their sum, and a mask
 test as a division and a remainder.
 */
module Wire {
  import opened Wrappers

  type Byte = b: int | 0 <= b < 256

  type Bytes = seq<Byte>

  /** The errors thrown by the encoder, the decoder, and Node's own range checks. */
  datatype Error =
    | Truncated                    // UADP_DECODE_TRUNCATED
    | OutOfRange                   // ERR_OUT_OF_RANGE of Node's Buffer writers
    | TypeMismatch                 // a value of another kind than its declared type
    | UnknownType                  // UADP_VARIANT_UNKNOWN_TYPE
    | UnsupportedBuiltInType       // UADP_VARIANT_UNSUPPORTED_BUILTIN_TYPE
    | InvalidPublisherId           // UADP_ENCODE_INVALID_PUBLISHER_ID
    | PublisherIdTooLarge          // UADP_ENCODE_PUBLISHER_ID_TOO_LARGE
    | UnsupportedPublisherId       // UADP_ENCODE_PUBLISHER_ID_TYPE
    | InvalidPublisherIdType       // UADP_DECODE_INVALID_PUBLISHER_ID_TYPE
    | UnsupportedVersion           // UADP_DECODE_UNSUPPORTED_VERSION
    | RawDataUnknownType           // UADP_RAWDATA_UNKNOWN_TYPE
    | RawDataNeedsMetadata         // UADP_RAWDATA_DECODE_REQUIRES_METADATA
    | PromotedFieldsNotImplemented // UADP_ENCODE_/UADP_DECODE_NOT_YET_IMPLEMENTED
    | MtuTooSmall                  // UADP_CHUNK_MTU_TOO_SMALL
    | NotSerializable              // the TypeError of JSON.stringify for a BigInt

  type Encoded = Result<Bytes, Error>

  /** What a read gives: a value and the bytes after it, or the error it throws. */
  datatype Parsed<+T> = Got(value: T, rest: Bytes) | Threw(error: Error) {
    predicate IsFailure() {
      Threw?
    }

    function PropagateFailure<U>(): Parsed<U>
      requires Threw?
    {
      Threw(error)
    }

    function Extract(): (T, Bytes)
      requires Got?
    {
      (value, rest)
    }
  }

  function Pow256(n: nat): (p: nat)
    ensures p > 0
  {
    if n == 0 then 1 else 256 * Pow256(n - 1)
  }

  /** The `n` low bytes of `v`, least significant first. */
  function LE(v: nat, n: nat): (s: Bytes)
    ensures |s| == n
  {
    if n == 0 then [] else [v % 256] + LE(v / 256, n - 1)
  }

  function FromLE(s: Bytes): nat {
    if s == [] then 0 else s[0] + 256 * FromLE(s[1..])
  }

  lemma {:induction false} FromLEOfLE(v: nat, n: nat)
    requires v < Pow256(n)
    ensures FromLE(LE(v, n)) == v
  {
    if n > 0 {
      FromLEOfLE(v / 256, n - 1);
      assert LE(v, n)[1..] == LE(v / 256, n - 1);
    }
  }

  lemma LowByte(low: nat, high: nat)
    requires low < 256
    ensures (low + 256 * high) % 256 == low && (low + 256 * high) / 256 == high
  {
  }

  lemma {:induction false} LEOfFromLE(s: Bytes)
    ensures FromLE(s) < Pow256(|s|)
    ensures LE(FromLE(s), |s|) == s
  {
    if s != [] {
      LEOfFromLE(s[1..]);
      LowByte(s[0], FromLE(s[1..]));
      assert s == [s[0]] + s[1..];
    }
  }

  // ----- unsigned, signed, and counted bytes

  /** Node's `writeUInt8`, `writeUInt16LE`, `writeUInt32LE`, `writeBigUInt64LE`. */
  function Unsigned(v: int, n: nat): Encoded {
    if 0 <= v < Pow256(n) then Ok(LE(v, n)) else Err(OutOfRange)
  }

  function ReadUnsigned(s: Bytes, n: nat): Parsed<nat> {
    if |s| < n then Threw(Truncated) else Got(FromLE(s[..n]), s[n..])
  }

  /** Node's `writeInt8`, `writeInt16LE`, `writeInt32LE`, `writeBigInt64LE`: two's complement. */
  function Signed(v: int, n: nat): Encoded {
    if 0 <= 2 * v + Pow256(n) < 2 * Pow256(n) then Ok(LE(if v < 0 then v + Pow256(n) else v, n)) else Err(OutOfRange)
  }

  function ReadSigned(s: Bytes, n: nat): Parsed<int> {
    var (u, rest) :- ReadUnsigned(s, n);
    Got(if 2 * u < Pow256(n) then u else u - Pow256(n), rest)
  }

  function ReadBytes(s: Bytes, n: nat): Parsed<Bytes> {
    if |s| < n then Threw(Truncated) else Got(s[..n], s[n..])
  }

  lemma UnsignedRoundTrip(v: int, n: nat, rest: Bytes)
    requires Unsigned(v, n).Ok?
    ensures ReadUnsigned(Unsigned(v, n).value + rest, n) == Got(v, rest)
  {
    var s := LE(v, n) + rest;
    assert s[..n] == LE(v, n) && s[n..] == rest;
    FromLEOfLE(v, n);
  }

  lemma SignedRoundTrip(v: int, n: nat, rest: Bytes)
    requires Signed(v, n).Ok?
    ensures ReadSigned(Signed(v, n).value + rest, n) == Got(v, rest)
  {
    UnsignedRoundTrip(if v < 0 then v + Pow256(n) else v, n, rest);
  }

  // ----- grouping

  lemma Regroup(b1: Bytes, b2: Bytes, b3: Bytes)
    ensures b1 + b2 + b3 == b1 + (b2 + b3)
  {
  }

  lemma Regroup6(b1: Bytes, b2: Bytes, b3: Bytes, b4: Bytes, b5: Bytes, b6: Bytes, rest: Bytes)
    ensures b1 + b2 + b3 + b4 + b5 + b6 + rest == b1 + (b2 + (b3 + (b4 + (b5 + (b6 + rest)))))
  {
    Regroup(b1 + b2 + b3 + b4 + b5, b6, rest);
    Regroup(b1 + b2 + b3 + b4, b5, b6 + rest);
    Regroup(b1 + b2 + b3, b4, b5 + (b6 + rest));
    Regroup(b1 + b2, b3, b4 + (b5 + (b6 + rest)));
    Regroup(b1, b2, b3 + (b4 + (b5 + (b6 + rest))));
  }

  lemma ReadBytesRoundTrip(b: Bytes, rest: Bytes)
    ensures ReadBytes(b + rest, |b|) == Got(b, rest)
  {
    assert (b + rest)[..|b|] == b && (b + rest)[|b|..] == rest;
  }

  // ----- strings and byte strings

  const NULL_LENGTH: nat := 0xffff_ffff

  /** The UTF-8 bytes of a string, or a byte string; shorter than the length that marks null. */
  type Text = s: Bytes | |s| < NULL_LENGTH

  function NullableText(t: Option<Text>): Encoded {
    match t
    case None => Unsigned(NULL_LENGTH, 4)
    case Some(s) => LengthPrefixed(s)
  }

  function LengthPrefixed(s: Bytes): Encoded {
    var len :- Unsigned(|s|, 4);
    Ok(len + s)
  }

  function ReadNullableText(s: Bytes): Parsed<Option<Text>> {
    var (len, s1) :- ReadUnsigned(s, 4);
    if len == NULL_LENGTH then Got(None, s1)
    else
      LEOfFromLE(s[..4]);
      var (t, s2) :- ReadBytes(s1, len);
      Got(Some(t), s2)
  }

  lemma NullableTextRoundTrip(t: Option<Text>, rest: Bytes)
    ensures NullableText(t).Ok?
    ensures ReadNullableText(NullableText(t).value + rest) == Got(t, rest)
  {
    assert Pow256(4) == 0x1_0000_0000;
    match t
    case None =>
      UnsignedRoundTrip(NULL_LENGTH, 4, rest);
    case Some(s) =>
      UnsignedRoundTrip(|s|, 4, s + rest);
      assert LE(|s|, 4) + s + rest == LE(|s|, 4) + (s + rest);
      assert (s + rest)[..|s|] == s && (s + rest)[|s|..] == rest;
  }

  /** Of all byte sequences a length prefix can describe, only the one as long as the null marker is lost. */
  lemma LengthPrefixRoundTripExactly(s: Bytes, rest: Bytes)
    requires LengthPrefixed(s).Ok?
    ensures ReadNullableText(LengthPrefixed(s).value + rest) == Got(Some(s), rest) <==> |s| != NULL_LENGTH
  {
    UnsignedRoundTrip(|s|, 4, s + rest);
    ReadBytesRoundTrip(s, rest);
    hide LE, FromLE, Pow256, ReadUnsigned, ReadBytes;
    assert LE(|s|, 4) + s + rest == LE(|s|, 4) + (s + rest);
  }

  // ----- DateTime

  const FILETIME_EPOCH_OFFSET_MS: int := 11644473600000
  const DATETIME_TICKS_PER_MS: int := 10000

  /** A DateTime from the milliseconds of a JavaScript Date. */
  function DateTime(ms: int): Encoded {
    Unsigned((ms + FILETIME_EPOCH_OFFSET_MS) * DATETIME_TICKS_PER_MS, 8)
  }

  function ReadDateTime(s: Bytes): Parsed<int> {
    var (ticks, rest) :- ReadUnsigned(s, 8);
    Got(ticks / DATETIME_TICKS_PER_MS - FILETIME_EPOCH_OFFSET_MS, rest)
  }

  lemma DateTimeRoundTrip(ms: int, rest: Bytes)
    requires DateTime(ms).Ok?
    ensures ReadDateTime(DateTime(ms).value + rest) == Got(ms, rest)
  {
    UnsignedRoundTrip((ms + FILETIME_EPOCH_OFFSET_MS) * DATETIME_TICKS_PER_MS, 8, rest);
  }

  lemma DateTimeOf(ms1601: nat)
    requires ms1601 * DATETIME_TICKS_PER_MS < 0x1_0000_0000_0000_0000
    ensures DateTime(ms1601 - FILETIME_EPOCH_OFFSET_MS) == Ok(LE(ms1601 * DATETIME_TICKS_PER_MS, 8))
  {
    assert Pow256(8) == 0x1_0000_0000_0000_0000;
    hide LE, Pow256;
  }

  lemma TicksAreExact(ticks: nat)
    requires ticks < 0x1_0000_0000_0000_0000
    ensures 0 <= ticks / DATETIME_TICKS_PER_MS < 0x20_0000_0000_0000
    ensures -8_640_000_000_000_000 <= ticks / DATETIME_TICKS_PER_MS - FILETIME_EPOCH_OFFSET_MS <= 8_640_000_000_000_000
    ensures 0 <= ticks / DATETIME_TICKS_PER_MS * DATETIME_TICKS_PER_MS <= ticks
    ensures ticks / DATETIME_TICKS_PER_MS * DATETIME_TICKS_PER_MS == ticks <==> ticks % DATETIME_TICKS_PER_MS == 0
  {
  }

  lemma WholeMilliseconds(s: Bytes, ticks: nat)
    requires |s| == 8 && ticks < Pow256(8)
    ensures LE(ticks, 8) == s <==> ticks == FromLE(s)
  {
    FromLEOfLE(ticks, 8);
    LEOfFromLE(s);
    hide FromLE, LE, Pow256;
  }

  /**
   Whatever the eight bytes, the quotient converted from BigInt to Number is below 2^53 (so the
   conversion is exact) and the result is a valid Date (at most 8.64e15 ms from the epoch). Writing the
   date back restores the bytes exactly when they name a whole millisecond.
   */
  lemma DateTimeReadIsExact(s: Bytes)
    requires |s| == 8
    ensures FromLE(s) / DATETIME_TICKS_PER_MS < 0x20_0000_0000_0000
    ensures var ms := ReadDateTime(s).value;
            && -8_640_000_000_000_000 <= ms <= 8_640_000_000_000_000
            && DateTime(ms).Ok?
            && (DateTime(ms).value == s <==> FromLE(s) % DATETIME_TICKS_PER_MS == 0)
  {
    var ticks := FromLE(s);
    assert s[..8] == s;
    LEOfFromLE(s);
    assert Pow256(8) == 0x1_0000_0000_0000_0000;
    TicksAreExact(ticks);
    DateTimeOf(ticks / DATETIME_TICKS_PER_MS);
    WholeMilliseconds(s, ticks / DATETIME_TICKS_PER_MS * DATETIME_TICKS_PER_MS);
    hide FromLE, LE, Pow256, DateTime;
  }
}
