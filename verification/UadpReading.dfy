/** What the decoder makes of bytes that the encoder would not write. */
module UadpReading {
  import opened Wrappers
  import opened Wire
  import opened UadpModel
  import opened UadpSpec
  import opened UadpRoundTrip
  import opened UadpVectors
  import JsMap

  // ----- scalars

  /** Any byte but 0 is true. */
  lemma AnyByteIsTrue(b: Byte, rest: Bytes)
    ensures ReadScalar(1, [b] + rest) == Got(Bool(b != 0), rest)
  {
    ReadOneByte(b, rest);
    hide ReadUnsigned;
  }

  const ALL_ONES: Bytes := [0xFF, 0xFF, 0xFF, 0xFF]

  lemma AllOnes(rest: Bytes)
    ensures ReadUnsigned(ALL_ONES + rest, 4) == Got(0xFFFF_FFFF, rest)
    ensures ReadSigned(ALL_ONES + rest, 4) == Got(-1, rest)
  {
    Spelled4(0xFFFF_FFFF, 0xFF, 0xFF, 0xFF, 0xFF);
    UnsignedRoundTrip(0xFFFF_FFFF, 4, rest);
    assert Pow256(4) == 0x1_0000_0000;
    hide Unsigned, ReadUnsigned, Pow256;
  }

  /** The length that stands for null: a null text, and a publisher id that is null. */
  lemma NullTexts(rest: Bytes)
    ensures ReadNullableText(ALL_ONES + rest) == Got(None, rest)
    ensures ReadScalar(12, ALL_ONES + rest) == ReadScalar(15, ALL_ONES + rest) == Got(Str(None), rest)
    ensures ReadPublisherId(4, ALL_ONES + rest) == Got(NullId, rest)
  {
    AllOnes(rest);
    hide ReadUnsigned, ReadSigned;
  }

  /** A negative length is an empty array, a negative count no dimensions. */
  lemma NegativeLengths(t: int, rest: Bytes)
    ensures ReadContent(t, true, ALL_ONES + rest) == Got(Array([]), rest)
    ensures ReadDimensions(true, ALL_ONES + rest) == Got(Some([]), rest)
  {
    AllOnes(rest);
    hide ReadUnsigned, ReadSigned, ReadScalar;
  }

  // ----- fields

  /** What a list of fields leaves in an object: later values replace earlier ones, names stay where they came first. */
  function Assigned(before: Fields, fs: seq<(Text, Field)>): Fields
    decreases |fs|
  {
    if fs == [] then before else Assigned(JsMap.Set(before, fs[0].0, NormalField(fs[0].1)), fs[1..])
  }

  /** Fields with any names, repeated or not, are read one after the other into the object. */
  lemma {:induction false} FieldsAreAssigned(e: FieldEncoding, fs: seq<(Text, Field)>, before: Fields, rest: Bytes)
    requires e != AsRawData && NamedFieldsBytes(e, fs).Ok?
    ensures ReadNamedFields(e, NamedFieldsBytes(e, fs).value + rest, |fs|, before) == Got(Assigned(before, fs), rest)
    decreases |fs|
  {
    hide ReadNamedField, NamedFieldBytes, NormalField, JsMap.Set;
    if fs == [] {
      assert NamedFieldsBytes(e, fs).value + rest == rest;
    } else {
      var first, tail := NamedFieldBytes(e, fs[0].0, fs[0].1).value, NamedFieldsBytes(e, fs[1..]).value;
      Regroup(first, tail, rest);
      NamedFieldRoundTrip(e, fs[0].0, fs[0].1, tail + rest);
      FieldsAreAssigned(e, fs[1..], JsMap.Set(before, fs[0].0, NormalField(fs[0].1)), rest);
    }
  }

  /** So of several fields with one name the last counts. */
  lemma {:induction false} LastFieldCounts(before: Fields, fs: seq<(Text, Field)>, i: nat)
    requires i < |fs| && forall j :: i < j < |fs| ==> fs[j].0 != fs[i].0
    ensures JsMap.Get(Assigned(before, fs), fs[i].0) == Some(NormalField(fs[i].1))
    decreases |fs|
  {
    hide NormalField, JsMap.Set, JsMap.Get;
    var next := JsMap.Set(before, fs[0].0, NormalField(fs[0].1));
    if i > 0 {
      LastFieldCounts(next, fs[1..], i - 1);
    } else {
      JsMap.GetOfSet(before, fs[0].0, NormalField(fs[0].1), fs[0].0);
      assert forall j :: 0 <= j < |fs| - 1 ==> fs[1..][j].0 == fs[j + 1].0;
      NotAssigned(next, fs[1..], fs[0].0);
    }
  }

  lemma {:induction false} NotAssigned(before: Fields, fs: seq<(Text, Field)>, name: Text)
    requires forall j :: 0 <= j < |fs| ==> fs[j].0 != name
    ensures JsMap.Get(Assigned(before, fs), name) == JsMap.Get(before, name)
    decreases |fs|
  {
    hide NormalField, JsMap.Set, JsMap.Get;
    if fs != [] {
      JsMap.GetOfSet(before, fs[0].0, NormalField(fs[0].1), name);
      assert forall j :: 0 <= j < |fs| - 1 ==> fs[1..][j].0 == fs[j + 1].0;
      NotAssigned(JsMap.Set(before, fs[0].0, NormalField(fs[0].1)), fs[1..], name);
    }
  }

  // ----- sizes

  function Sum(ns: seq<int>): int {
    if ns == [] then 0 else ns[0] + Sum(ns[1..])
  }

  predicate NoneNegative(ns: seq<int>) {
    forall i :: 0 <= i < |ns| ==> ns[i] >= 0
  }

  lemma {:induction false} SumIsNotNegative(ns: seq<int>)
    requires NoneNegative(ns)
    ensures Sum(ns) >= 0
  {
    if ns != [] {
      SumIsNotNegative(ns[1..]);
    }
  }

  /** Each message is read from its own slice, whatever it leaves unread there; the slices are consecutive. */
  lemma {:induction false} MessagesHaveTheirSlices(s: Bytes, sizes: seq<int>, i: nat)
    requires NoneNegative(sizes) && ReadSized(s, sizes).Got? && i < |sizes|
    ensures |ReadSized(s, sizes).value| == |sizes|
    ensures 0 <= Sum(sizes[..i]) <= Sum(sizes[..i]) + sizes[i] <= |s|
    ensures var m := ReadDataSetMessage(s[Sum(sizes[..i])..Sum(sizes[..i]) + sizes[i]]);
            m.Got? && m.value == ReadSized(s, sizes).value[i]
    decreases |sizes|
  {
    hide ReadDataSetMessage;
    var rest := s[sizes[0]..];
    if i == 0 {
      assert sizes[..0] == [] && s[0..sizes[0]] == s[..sizes[0]];
      if |sizes| > 1 {
        MessagesHaveTheirSlices(rest, sizes[1..], 0);
      }
    } else {
      MessagesHaveTheirSlices(rest, sizes[1..], i - 1);
      assert sizes[..i] == [sizes[0]] + sizes[1..][..i - 1] && sizes[..i][1..] == sizes[1..][..i - 1];
      var from := Sum(sizes[1..][..i - 1]);
      assert rest[from..from + sizes[i]] == s[sizes[0] + from..sizes[0] + from + sizes[i]];
    }
  }
}
