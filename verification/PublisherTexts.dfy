/**
 The text of a publisher id, which decides what a subscription lets through and which chunks belong
 together: what the text is, and when two ids have the same one.
 */
module PublisherTexts {
  import opened Wrappers
  import opened Wire
  import opened UadpModel
  import opened Reassembler
  import Numerals

  // ----- decimal text

  /** The number that a sequence of ASCII digits spells in base ten. */
  function DecimalValue(t: Bytes): int {
    if t == [] then 0 else 10 * DecimalValue(t[..|t| - 1]) + t[|t| - 1] - 48
  }

  /** ASCII digits without a leading zero, spelling this number. */
  predicate IsNumeral(t: Bytes, n: nat) {
    t != [] && (forall i :: 0 <= i < |t| ==> 48 <= t[i] <= 57) && (|t| > 1 ==> t[0] != 48) && DecimalValue(t) == n
  }

  /** A numeral, behind a '-' for a negative number. */
  predicate IsDecimal(t: Bytes, n: int) {
    if n < 0 then t != [] && t[0] == 45 && IsNumeral(t[1..], -n) else IsNumeral(t, n)
  }

  lemma {:induction false} DigitsAreANumeral(n: nat)
    ensures IsNumeral(DigitBytes(Numerals.Digits(n)), n)
    ensures n > 0 ==> DigitBytes(Numerals.Digits(n))[0] != 48
  {
    var t := DigitBytes(Numerals.Digits(n));
    if n < 10 {
      assert t == [48 + n] && t[..0] == [];
    } else {
      DigitsAreANumeral(n / 10);
      assert t[..|t| - 1] == DigitBytes(Numerals.Digits(n / 10));
    }
  }

  lemma {:induction false} NumeralAtLeast(t: Bytes)
    requires t != [] && (forall i :: 0 <= i < |t| ==> 48 <= t[i] <= 57)
    ensures DecimalValue(t) >= 0 && (t[0] != 48 ==> DecimalValue(t) > 0)
  {
    var init := t[..|t| - 1];
    if init != [] {
      NumeralAtLeast(init);
    } else {
      assert DecimalValue(init) == 0;
    }
  }

  /** A number has only one numeral. */
  lemma {:induction false} NumeralIsUnique(t: Bytes, u: Bytes, n: nat)
    requires IsNumeral(t, n) && IsNumeral(u, n)
    ensures t == u
  {
    var a, b := t[..|t| - 1], u[..|u| - 1];
    assert t == a + [t[|t| - 1]] && u == b + [u[|u| - 1]];
    assert a == [] ==> DecimalValue(a) == 0;
    assert b == [] ==> DecimalValue(b) == 0;
    if a != [] {
      NumeralAtLeast(a);
    }
    if b != [] {
      NumeralAtLeast(b);
    }
    assert DecimalValue(a) == DecimalValue(b);
    if a != [] {
      NumeralIsUnique(a, b, DecimalValue(a));
    }
  }

  /** A printed integer is its decimal text, and nothing else is. */
  lemma DecimalText(t: Bytes, n: int)
    ensures t == Decimal(n) <==> IsDecimal(t, n)
  {
    var magnitude := if n < 0 then -n else n;
    var digits := DigitBytes(Numerals.Digits(magnitude));
    DigitsAreANumeral(magnitude);
    hide IsNumeral, Numerals.Digits, DigitBytes;
    if n < 0 {
      assert ([45] + digits)[1..] == digits;
      if t != [] && t[0] == 45 && IsNumeral(t[1..], -n) {
        NumeralIsUnique(t[1..], digits, -n);
        assert t == [45] + t[1..];
      }
    } else if IsNumeral(t, n) {
      NumeralIsUnique(t, digits, n);
    }
  }

  lemma FiveIsSpelled()
    ensures PublisherText(Some(NumberId(5))) == [53]
    ensures PublisherText(Some(BigIntId(-120))) == [45, 49, 50, 48]
  {
    DecimalText([53], 5);
    assert [53][..0] == [];
    assert [45, 49, 50, 48][1..] == [49, 50, 48];
    assert [49, 50, 48][..2] == [49, 50] && [49, 50][..1] == [49] && [49][..0] == [];
    assert DecimalValue([49]) == 1 && DecimalValue([49, 50]) == 12;
    DecimalText([45, 49, 50, 48], -120);
  }

  // ----- publishers

  const UNDEFINED: Bytes := [117, 110, 100, 101, 102, 105, 110, 101, 100]
  const NULL: Bytes := [110, 117, 108, 108]

  /** A text that names a publisher: a string itself, a number in decimal, or the word for nothing. */
  predicate Names(text: Bytes, p: Option<PublisherId>) {
    match p
    case None => text == UNDEFINED
    case Some(NumberId(n)) => IsDecimal(text, n)
    case Some(BigIntId(n)) => IsDecimal(text, n)
    case Some(StringId(t)) => text == t
    case Some(NullId) => text == NULL
  }

  lemma UndefinedIsSpelled()
    ensures Ascii("undefined") == UNDEFINED
  {
    assert Ascii("undefined") == [117, 110, 100, 101, 102, 105, 110, 101, 100];
  }

  lemma NullIsSpelled()
    ensures Ascii("null") == NULL
  {
    assert Ascii("null") == [110, 117, 108, 108];
  }

  /** `String(publisherId)` is the text that names the publisher. */
  lemma PublisherTextNames(text: Bytes, p: Option<PublisherId>)
    ensures PublisherText(p) == text <==> Names(text, p)
  {
    UndefinedIsSpelled();
    NullIsSpelled();
    hide Ascii, Decimal, IsDecimal;
    match p
    case Some(NumberId(n)) => DecimalText(text, n);
    case Some(BigIntId(n)) => DecimalText(text, n);
    case _ =>
  }

  function NumberOf(p: Option<PublisherId>): Option<int> {
    match p
    case Some(NumberId(n)) => Some(n)
    case Some(BigIntId(n)) => Some(n)
    case _ => None
  }

  /** Equal numbers, equal strings, a string that names the other one, or the same kind of nothing. */
  predicate SameName(p: Option<PublisherId>, q: Option<PublisherId>) {
    if NumberOf(p).Some? && NumberOf(q).Some? then NumberOf(p) == NumberOf(q)
    else if p.Some? && p.value.StringId? then Names(p.value.text, q)
    else if q.Some? && q.value.StringId? then Names(q.value.text, p)
    else p == q
  }

  /** When two publisher ids have the same text. */
  lemma SameTextIff(p: Option<PublisherId>, q: Option<PublisherId>)
    ensures PublisherText(p) == PublisherText(q) <==> SameName(p, q)
  {
    var t := PublisherText(p);
    PublisherTextNames(t, p);
    PublisherTextNames(t, q);
    PublisherTextNames(PublisherText(q), p);
    PublisherTextNames(PublisherText(q), q);
    hide PublisherText, IsDecimal;
    if Names(t, q) {
      TextOfOneNumber(t, p, q);
      if NumberOf(q).Some? {
        NumberIsNoWord(t, q);
      }
    }
    if NumberOf(p).Some? {
      NumberIsNoWord(t, p);
    }
  }

  lemma TextOfOneNumber(t: Bytes, p: Option<PublisherId>, q: Option<PublisherId>)
    requires Names(t, p) && Names(t, q)
    ensures NumberOf(p).Some? && NumberOf(q).Some? ==> NumberOf(p) == NumberOf(q)
  {
  }

  lemma NumberIsNoWord(t: Bytes, p: Option<PublisherId>)
    requires Names(t, p) && NumberOf(p).Some?
    ensures t != UNDEFINED && t != NULL
  {
  }

  // ----- keys

  /** The key of a chunk, as text: publisher, writer group and sequence number between bars. */
  lemma KeyIsSpelled(partial: NetworkMessage, publisher: Bytes, group: Bytes, number: Bytes)
    requires partial.chunk.Some? && Names(publisher, partial.publisherId)
    requires match GroupOf(partial) case None => group == UNDEFINED case Some(g) => IsDecimal(group, g)
    requires IsDecimal(number, partial.chunk.value.messageSequenceNumber)
    ensures Key(partial) == publisher + [124] + group + [124] + number
  {
    PublisherTextNames(publisher, partial.publisherId);
    UndefinedIsSpelled();
    DecimalText(number, partial.chunk.value.messageSequenceNumber);
    if GroupOf(partial).Some? {
      DecimalText(group, GroupOf(partial).value);
    }
    hide PublisherText, Decimal, IsDecimal, Ascii, Names;
  }
}
