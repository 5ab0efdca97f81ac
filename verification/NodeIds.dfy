/** NodeIds in text form: the parser, the printer, and how they fit together. */
module NodeIds {
  import opened Wrappers
  import opened Numerals

  // ----- numbers

  /** The integers a JavaScript number holds exactly. */
  type SafeInt = n: int | -0x20_0000_0000_0000 < n < 0x20_0000_0000_0000

  /** What `parseInt` gives: an exact integer, a rounded one too large to be exact, an infinity, or NaN. */
  datatype Number = Int(n: SafeInt) | Rounded | Infinite(negative: bool) | NotANumber {
    /** `Number.isFinite` */
    predicate Finite() {
      Int? || Rounded?
    }
  }

  function Pow2(n: nat): nat {
    if n == 0 then 1 else 2 * Pow2(n - 1)
  }

  /** From half a unit above the largest double on, a number is rounded to infinity. */
  const INFINITE: int := 0x3F_FFFF_FFFF_FFFF * Pow2(970)

  const SPACES: set<char> := {
    '\t', '\U{000b}', '\U{000c}', ' ', '\U{00a0}', '\U{feff}', '\n', '\r', '\U{2028}', '\U{2029}', '\U{1680}',
    '\U{2000}', '\U{2001}', '\U{2002}', '\U{2003}', '\U{2004}', '\U{2005}', '\U{2006}', '\U{2007}', '\U{2008}',
    '\U{2009}', '\U{200a}', '\U{202f}', '\U{205f}', '\U{3000}'}

  predicate IsDigit(c: char) {
    '0' <= c <= '9'
  }

  function DigitChar(d: Digit): (c: char)
    ensures IsDigit(c) && c as int - '0' as int == d
  {
    (d + '0' as int) as char
  }

  function DigitChars(ds: seq<Digit>): string {
    seq(|ds|, i requires 0 <= i < |ds| => DigitChar(ds[i]))
  }

  /** The text of an exact number; that of a rounded one is not modelled. */
  function Show(x: Number): string
    requires !x.Rounded?
  {
    match x
    case Int(n) => if n < 0 then "-" + DigitChars(Digits(-n)) else DigitChars(Digits(n))
    case Infinite(negative) => if negative then "-Infinity" else "Infinity"
    case NotANumber => "NaN"
  }

  function WithoutLeadingSpace(s: string): string {
    if s != "" && s[0] in SPACES then WithoutLeadingSpace(s[1..]) else s
  }

  function LeadingDigits(s: string): seq<Digit> {
    if s == "" || !IsDigit(s[0]) then [] else [s[0] as int - '0' as int] + LeadingDigits(s[1..])
  }

  /** `parseInt(s, 10)`: leading space, a sign, and as many digits as follow. */
  function ParseInt(s: string): Number {
    var t := WithoutLeadingSpace(s);
    var signed := t != "" && (t[0] == '-' || t[0] == '+');
    var ds := LeadingDigits(if signed then t[1..] else t);
    var magnitude: int := Value(ds);
    if ds == [] then NotANumber
    else if magnitude >= 0x20_0000_0000_0000 then
      if magnitude >= INFINITE then Infinite(signed && t[0] == '-') else Rounded
    else if signed && t[0] == '-' then Int(-magnitude)
    else Int(magnitude)
  }

  // ----- NodeIds

  datatype IdentifierType = NumericId | TextId | GuidId | ByteStringId

  datatype Identifier = NumberValue(number: Number) | TextValue(text: string)

  /** The object; the printer also takes objects without a namespace index or an identifier type. */
  datatype NodeId = NodeId(namespaceIndex: Option<Number>, identifierType: Option<IdentifierType>, value: Identifier)

  const WELL_KNOWN_NODES: map<string, string> := map[
    "RootFolder" := "i=84", "ObjectsFolder" := "i=85", "TypesFolder" := "i=86", "ViewsFolder" := "i=87",
    "ObjectTypesFolder" := "i=88", "VariableTypesFolder" := "i=89", "DataTypesFolder" := "i=90",
    "ReferenceTypesFolder" := "i=91", "Server" := "i=2253", "ServerStatus" := "i=2256"]

  /** Names the lookup finds on every JavaScript object; what it finds is not a string. */
  const INHERITED_NAMES: set<string> := {
    "constructor", "toString", "toLocaleString", "valueOf", "hasOwnProperty", "isPrototypeOf",
    "propertyIsEnumerable", "__proto__", "__defineGetter__", "__defineSetter__", "__lookupGetter__",
    "__lookupSetter__"}

  predicate StartsWith(s: string, prefix: string) {
    prefix <= s
  }

  function IndexOf(s: string, c: char): (i: nat)
    ensures i <= |s| && (i < |s| ==> s[i] == c) && c !in s[..i]
  {
    if s == "" || s[0] == c then 0 else 1 + IndexOf(s[1..], c)
  }

  function ParseIdentifier(identifier: string, namespaceIndex: Number): Option<NodeId> {
    var ns := Some(namespaceIndex);
    if StartsWith(identifier, "s=") then Some(NodeId(ns, Some(TextId), TextValue(identifier[2..])))
    else if StartsWith(identifier, "i=") then Some(NodeId(ns, Some(NumericId), NumberValue(ParseInt(identifier[2..]))))
    else if StartsWith(identifier, "g=") then Some(NodeId(ns, Some(GuidId), TextValue(identifier[2..])))
    else if StartsWith(identifier, "b=") then Some(NodeId(ns, Some(ByteStringId), TextValue(identifier[2..])))
    else None
  }

  predicate AllDigits(s: string) {
    s != "" && forall c :: c in s ==> IsDigit(c)
  }

  /** Only the first ";" separates the namespace from the identifier. */
  function ParseResolved(s: string): Option<NodeId> {
    if ';' in s then
      var sep := IndexOf(s, ';');
      if StartsWith(s[..sep], "ns=") then
        var namespaceIndex := ParseInt(s[..sep][3..]);
        if !namespaceIndex.Finite() then None else ParseIdentifier(s[sep + 1..], namespaceIndex)
      else ParseIdentifier(s, Int(0))
    else if |s| >= 2 && s[0] in {'s', 'i', 'b', 'g'} && s[1] == '=' then ParseIdentifier(s, Int(0))
    else if AllDigits(s) then Some(NodeId(Some(Int(0)), Some(NumericId), NumberValue(ParseInt(s))))
    else Some(NodeId(Some(Int(0)), Some(TextId), TextValue(s)))
  }

  function Parse(s: string): Option<NodeId> {
    if s == "" || s in INHERITED_NAMES then None
    else ParseResolved(if s in WELL_KNOWN_NODES then WELL_KNOWN_NODES[s] else s)
  }

  predicate Exact(n: NodeId) {
    n.namespaceIndex != Some(Rounded) && n.value != NumberValue(Rounded)
  }

  function ValueText(v: Identifier): string
    requires v != NumberValue(Rounded)
  {
    match v
    case TextValue(text) => text
    case NumberValue(number) => Show(number)
  }

  function Print(n: NodeId): string
    requires Exact(n)
  {
    var ns := Show(n.namespaceIndex.GetOr(Int(0)));
    var letter :=
      if n.identifierType == Some(GuidId) then "g="
      else if n.identifierType == Some(ByteStringId) then "b="
      else if n.identifierType == Some(TextId) || n.value.TextValue? then "s="
      else "i=";
    "ns=" + ns + ";" + (letter + ValueText(n.value))
  }

  // ----- numbers read back

  lemma {:induction false} LeadingDigitsOfChars(ds: seq<Digit>)
    ensures LeadingDigits(DigitChars(ds)) == ds
    decreases |ds|
  {
    if ds != [] {
      LeadingDigitsOfChars(ds[1..]);
      assert DigitChars(ds)[1..] == DigitChars(ds[1..]);
    }
  }

  /** Exact numbers and NaN read back; an infinity is printed as a word and reads back as NaN. */
  lemma ParseIntOfShow(x: Number)
    requires !x.Rounded?
    ensures ParseInt(Show(x)) == if x.Infinite? then NotANumber else x
  {
    match x
    case Int(n) => ParseIntOfInt(n);
    case Infinite(negative) => ParseIntOfWord(Show(x));
    case NotANumber => ParseIntOfWord(Show(x));
  }

  /** A word with no digit where a number should begin. */
  lemma ParseIntOfWord(s: string)
    requires |s| > 1 && s[0] !in SPACES && !IsDigit(s[0]) && !IsDigit(s[1])
    ensures ParseInt(s) == NotANumber
  {
    assert WithoutLeadingSpace(s) == s;
    assert s[1..][0] == s[1];
    assert LeadingDigits(s) == [] && LeadingDigits(s[1..]) == [];
  }

  lemma ParseIntOfInt(n: SafeInt)
    ensures ParseInt(Show(Int(n))) == Int(n)
  {
    hide Digits, Value;
    var magnitude := if n < 0 then -n else n;
    var ds := Digits(magnitude);
    var text := DigitChars(ds);
    ValueOfDigits(magnitude);
    LeadingDigitsOfChars(ds);
    assert IsDigit(text[0]);
    assert WithoutLeadingSpace(Show(Int(n))) == Show(Int(n));
    if n < 0 {
      assert Show(Int(n))[1..] == text;
    }
  }

  lemma NoSemicolon(x: Number)
    requires !x.Rounded?
    ensures ';' !in Show(x)
  {
    hide Digits;
    assert !IsDigit(';');
  }

  // ----- the round trips

  /** The shape the parser gives: a finite namespace, and a value of the kind the identifier type says. */
  predicate Canonical(n: NodeId) {
    && n.namespaceIndex.Some? && n.namespaceIndex.value.Finite()
    && n.identifierType.Some?
    && (n.identifierType.value == NumericId <==> n.value.NumberValue?)
  }

  predicate HasInfiniteValue(n: NodeId) {
    n.value.NumberValue? && n.value.number.Infinite?
  }

  lemma NotAName(s: string)
    requires StartsWith(s, "ns=")
    ensures s !in WELL_KNOWN_NODES && s !in INHERITED_NAMES
  {
    assert s[2] == '=';
    assert forall k :: k in WELL_KNOWN_NODES ==> k[2] != '=';
    assert forall k :: k in INHERITED_NAMES ==> k[2] != '=';
  }

  /** Reading "ns=…;…": the namespace up to the first semicolon, everything after it is the identifier. */
  lemma ParseWithNamespace(x: Number, identifier: string)
    requires !x.Rounded?
    ensures Parse("ns=" + Show(x) + ";" + identifier) == if !x.Finite() then None else ParseIdentifier(identifier, x)
  {
    hide Show, ParseInt, ParseIdentifier;
    var head := "ns=" + Show(x);
    var s := head + ";" + identifier;
    NoSemicolon(x);
    NotAName(s);
    var sep := IndexOf(s, ';');
    assert s[|head|] == ';';
    assert forall i :: 0 <= i < |head| ==> s[i] == head[i] != ';';
    assert sep == |head| && s[..sep] == head && head[3..] == Show(x) && s[sep + 1..] == identifier;
    ParseIntOfShow(x);
  }

  lemma ParseIdentifierOfPrint(n: NodeId, x: Number)
    requires n.identifierType.Some? && (n.identifierType.value == NumericId <==> n.value.NumberValue?)
    requires n.namespaceIndex == Some(x) && Exact(n)
    ensures var letter := match n.identifierType.value
                          case GuidId => "g=" case ByteStringId => "b=" case TextId => "s=" case NumericId => "i=";
            ParseIdentifier(letter + ValueText(n.value), x)
            == Some(if HasInfiniteValue(n) then n.(value := NumberValue(NotANumber)) else n)
  {
    hide Show, ParseInt;
    var text := ValueText(n.value);
    assert StartsWith("g=" + text, "g=") && StartsWith("b=" + text, "b=");
    assert StartsWith("s=" + text, "s=") && StartsWith("i=" + text, "i=");
    assert ("g=" + text)[0] == 'g' && ("b=" + text)[0] == 'b' && ("s=" + text)[0] == 's' && ("i=" + text)[0] == 'i';
    assert ("g=" + text)[2..] == ("b=" + text)[2..] == ("s=" + text)[2..] == ("i=" + text)[2..] == text;
    if n.value.NumberValue? {
      ParseIntOfShow(n.value.number);
    }
  }

  lemma IdentifierIsCanonical(identifier: string, x: Number)
    requires x.Finite() && ParseIdentifier(identifier, x).Some?
    ensures Canonical(ParseIdentifier(identifier, x).value)
  {
    hide ParseInt;
  }

  lemma ResolvedIsCanonical(s: string)
    requires ParseResolved(s).Some?
    ensures Canonical(ParseResolved(s).value)
  {
    hide ParseInt, IndexOf, ParseIdentifier, AllDigits, Canonical;
    if ';' in s {
      var sep := IndexOf(s, ';');
      if StartsWith(s[..sep], "ns=") {
        IdentifierIsCanonical(s[sep + 1..], ParseInt(s[..sep][3..]));
      } else {
        IdentifierIsCanonical(s, Int(0));
      }
    } else if |s| >= 2 && s[0] in {'s', 'i', 'b', 'g'} && s[1] == '=' {
      IdentifierIsCanonical(s, Int(0));
    } else {
      PlainIsCanonical(s);
    }
  }

  lemma PlainIsCanonical(s: string)
    ensures Canonical(NodeId(Some(Int(0)), Some(NumericId), NumberValue(ParseInt(s))))
    ensures Canonical(NodeId(Some(Int(0)), Some(TextId), TextValue(s)))
  {
    hide ParseInt;
  }

  lemma ParsedIsCanonical(s: string)
    requires Parse(s).Some?
    ensures Canonical(Parse(s).value)
  {
    hide ParseResolved, Canonical;
    ResolvedIsCanonical(if s in WELL_KNOWN_NODES then WELL_KNOWN_NODES[s] else s);
  }

  /**
   Printing then parsing gives the NodeId back exactly when it is one the parser could have given and its
   value is not an infinity.
   */
  lemma PrintThenParse(n: NodeId)
    requires Exact(n)
    ensures Parse(Print(n)) == Some(n) <==> Canonical(n) && !HasInfiniteValue(n)
  {
    hide Parse, ParseIdentifier, Show;
    if Parse(Print(n)) == Some(n) {
      ParsedIsCanonical(Print(n));
    }
    if Canonical(n) {
      var x := n.namespaceIndex.value;
      ParseIdentifierOfPrint(n, x);
      ParseWithNamespace(x, Print(n)[|"ns=" + Show(x) + ";"|..]);
    }
  }

  /**
   Printing what was parsed, whatever it was parsed from, parses to the same NodeId unless its value is an
   infinity.
   */
  lemma ParsePrintParse(s: string)
    requires Parse(s).Some? && Exact(Parse(s).value)
    ensures Parse(Print(Parse(s).value)) == Parse(s) <==> !HasInfiniteValue(Parse(s).value)
  {
    hide Parse, Print, Canonical;
    ParsedIsCanonical(s);
    PrintThenParse(Parse(s).value);
  }

  /** The text of an identifier survives unchanged, further semicolons and equals signs included. */
  lemma TextIsKept(namespaceIndex: SafeInt, text: string)
    ensures Parse("ns=" + Show(Int(namespaceIndex)) + ";" + ("s=" + text))
         == Some(NodeId(Some(Int(namespaceIndex)), Some(TextId), TextValue(text)))
  {
    hide Parse;
    PrintThenParse(NodeId(Some(Int(namespaceIndex)), Some(TextId), TextValue(text)));
  }

  /** Text without separator, identifier letter or number form. */
  predicate Plain(s: string) {
    && s != "" && ';' !in s && !AllDigits(s)
    && !(|s| >= 2 && s[0] in {'s', 'i', 'b', 'g'} && s[1] == '=')
  }

  /** Plain text is a String identifier exactly when it is neither a well-known name nor one every object has. */
  lemma PlainTextIsKept(s: string)
    requires Plain(s)
    ensures Parse(s) == Some(NodeId(Some(Int(0)), Some(TextId), TextValue(s)))
       <==> s !in WELL_KNOWN_NODES && s !in INHERITED_NAMES
    ensures s in INHERITED_NAMES ==> Parse(s).None?
    ensures s in WELL_KNOWN_NODES && s !in INHERITED_NAMES ==>
              Parse(s).Some? && Parse(s).value.identifierType == Some(NumericId)
  {
    if s in WELL_KNOWN_NODES {
      WellKnownAreNumeric(s);
    }
    hide ParseInt, IndexOf, AllDigits;
  }

  lemma WellKnownAreNumeric(s: string)
    requires s in WELL_KNOWN_NODES
    ensures var r := ParseResolved(WELL_KNOWN_NODES[s]);
            r.Some? && r.value.identifierType == Some(NumericId)
  {
    hide ParseInt, IndexOf, AllDigits;
    var v := WELL_KNOWN_NODES[s];
    assert |v| >= 2 && v[0] == 'i' && v[1] == '=' && ';' !in v;
  }

  // ----- numbers and names, literally

  /** A numeral is read as its number, with or without the letter in front. */
  lemma NumeralIsRead(n: SafeInt, s: string)
    requires n >= 0 && DigitChars(Digits(n)) == s
    ensures ParseResolved("i=" + s) == Some(NodeId(Some(Int(0)), Some(NumericId), NumberValue(Int(n))))
    ensures ParseResolved(s) == Some(NodeId(Some(Int(0)), Some(NumericId), NumberValue(Int(n))))
  {
    assert s != "" && forall i :: 0 <= i < |s| ==> IsDigit(s[i]);
    hide Digits, DigitChars, LeadingDigits, Value;
    assert Show(Int(n)) == s;
    ParseIntOfInt(n);
    hide ParseInt, Show;
    var t := "i=" + s;
    assert t[2..] == s && t[0] == 'i' && t[1] == '=';
    assert ';' !in t && ';' !in s;
  }

  lemma FourDigits(a: Digit, b: Digit, c: Digit, d: Digit)
    ensures a > 0 ==> Digits(1000 * a + 100 * b + 10 * c + d) == [a, b, c, d]
    ensures c > 0 ==> Digits(10 * c + d) == [c, d]
  {
    var n := 1000 * a + 100 * b + 10 * c + d;
    assert n / 10 == 100 * a + 10 * b + c && n % 10 == d;
    assert n / 10 / 10 == 10 * a + b && n / 10 % 10 == c;
    assert n / 10 / 10 / 10 == a && n / 10 / 10 % 10 == b;
    if a > 0 {
      assert Digits(a) == [a];
      assert Digits(n / 10 / 10) == Digits(a) + [b];
      assert Digits(n / 10) == Digits(n / 10 / 10) + [c];
    }
    if c > 0 {
      assert Digits(c) == [c];
      assert (10 * c + d) / 10 == c && (10 * c + d) % 10 == d;
    }
  }

  predicate StandsFor(name: string, n: SafeInt) {
    Parse(name) == Some(NodeId(Some(Int(0)), Some(NumericId), NumberValue(Int(n))))
  }

  lemma NameStandsFor(name: string, n: SafeInt, s: string)
    requires name in WELL_KNOWN_NODES && WELL_KNOWN_NODES[name] == "i=" + s && name !in INHERITED_NAMES && name != ""
    requires n >= 0 && DigitChars(Digits(n)) == s
    ensures StandsFor(name, n)
  {
    NumeralIsRead(n, s);
    hide ParseResolved, Digits, DigitChars;
  }

  lemma RootAndObjects()
    ensures StandsFor("RootFolder", 84)
    ensures StandsFor("ObjectsFolder", 85)
  {
    hide StandsFor;
    FourDigits(0, 0, 8, 4);
    FourDigits(0, 0, 8, 5);
    hide Digits;
    NameStandsFor("RootFolder", 84, "84");
    NameStandsFor("ObjectsFolder", 85, "85");
  }

  lemma TypesAndViews()
    ensures StandsFor("TypesFolder", 86)
    ensures StandsFor("ViewsFolder", 87)
  {
    hide StandsFor;
    FourDigits(0, 0, 8, 6);
    FourDigits(0, 0, 8, 7);
    hide Digits;
    NameStandsFor("TypesFolder", 86, "86");
    NameStandsFor("ViewsFolder", 87, "87");
  }

  lemma ObjectAndVariableTypes()
    ensures StandsFor("ObjectTypesFolder", 88)
    ensures StandsFor("VariableTypesFolder", 89)
  {
    hide StandsFor;
    FourDigits(0, 0, 8, 8);
    FourDigits(0, 0, 8, 9);
    hide Digits;
    NameStandsFor("ObjectTypesFolder", 88, "88");
    NameStandsFor("VariableTypesFolder", 89, "89");
  }

  lemma DataAndReferenceTypes()
    ensures StandsFor("DataTypesFolder", 90)
    ensures StandsFor("ReferenceTypesFolder", 91)
  {
    hide StandsFor;
    FourDigits(0, 0, 9, 0);
    FourDigits(0, 0, 9, 1);
    hide Digits;
    NameStandsFor("DataTypesFolder", 90, "90");
    NameStandsFor("ReferenceTypesFolder", 91, "91");
  }

  lemma ServerNode()
    ensures StandsFor("Server", 2253)
  {
    hide StandsFor;
    FourDigits(2, 2, 5, 3);
    hide Digits;
    NameStandsFor("Server", 2253, "2253");
  }

  lemma ServerStatusNode()
    ensures StandsFor("ServerStatus", 2256)
  {
    hide StandsFor;
    FourDigits(2, 2, 5, 6);
    hide Digits;
    NameStandsFor("ServerStatus", 2256, "2256");
  }

  // ----- what the parser makes of other texts

  lemma {:induction false} SpacesAreSkipped(spaces: string, s: string)
    requires (forall c :: c in spaces ==> c in SPACES) && (s == "" || s[0] !in SPACES)
    ensures WithoutLeadingSpace(spaces + s) == s
  {
    if spaces == "" {
      assert spaces + s == s;
    } else {
      assert (spaces + s)[1..] == spaces[1..] + s;
      SpacesAreSkipped(spaces[1..], s);
    }
  }

  lemma {:induction false} DigitsThenRest(ds: seq<Digit>, rest: string)
    requires rest == "" || !IsDigit(rest[0])
    ensures LeadingDigits(DigitChars(ds) + rest) == ds
    decreases |ds|
  {
    if ds == [] {
      assert DigitChars(ds) + rest == rest;
    } else {
      DigitsThenRest(ds[1..], rest);
      assert (DigitChars(ds) + rest)[1..] == DigitChars(ds[1..]) + rest;
    }
  }

  datatype Sign = Unsigned | Plus | Minus

  function SignChars(sign: Sign): string {
    match sign case Unsigned => "" case Plus => "+" case Minus => "-"
  }

  lemma NoSpace(c: char)
    ensures IsDigit(c) || c == '+' || c == '-' ==> c !in SPACES
    ensures IsDigit(c) ==> c != '+' && c != '-'
  {
  }

  lemma ParseIntUnspaced(sign: Sign, ds: seq<Digit>, rest: string)
    requires (rest == "" || !IsDigit(rest[0])) && ds != [] && Value(ds) < 0x20_0000_0000_0000
    ensures var signed := SignChars(sign) + (DigitChars(ds) + rest);
            var n: int := Value(ds);
            && signed[0] !in SPACES
            && forall s :: WithoutLeadingSpace(s) == signed ==> ParseInt(s) == Int(if sign == Minus then -n else n)
  {
    DigitsThenRest(ds, rest);
    var t := DigitChars(ds) + rest;
    var signed := SignChars(sign) + t;
    assert IsDigit(t[0]);
    NoSpace(t[0]);
    NoSpace(signed[0]);
    hide WithoutLeadingSpace, LeadingDigits, DigitChars, Value;
    if sign == Unsigned {
      assert signed == t;
    } else {
      assert signed[1..] == t;
    }
  }

  /** `parseInt`: space is skipped, a sign counts, and the number ends where the digits do. */
  lemma ParseIntReads(spaces: string, sign: Sign, ds: seq<Digit>, rest: string)
    requires (forall c :: c in spaces ==> c in SPACES) && (rest == "" || !IsDigit(rest[0]))
    requires ds != [] && Value(ds) < 0x20_0000_0000_0000
    ensures var n: int := Value(ds);
            ParseInt(spaces + (SignChars(sign) + (DigitChars(ds) + rest))) == Int(if sign == Minus then -n else n)
  {
    hide ParseInt, WithoutLeadingSpace, DigitChars, Value;
    ParseIntUnspaced(sign, ds, rest);
    SpacesAreSkipped(spaces, SignChars(sign) + (DigitChars(ds) + rest));
  }

  /** Where no digit stands, there is no number. */
  lemma ParseIntNeedsADigit(spaces: string, sign: Sign, rest: string)
    requires (forall c :: c in spaces ==> c in SPACES)
    requires rest == "" || (!IsDigit(rest[0]) && rest[0] !in SPACES && rest[0] !in {'+', '-'})
    ensures ParseInt(spaces + (SignChars(sign) + rest)) == NotANumber
  {
    var signed := SignChars(sign) + rest;
    SpacesAreSkipped(spaces, signed);
    assert sign != Unsigned ==> signed[1..] == rest;
    assert sign == Unsigned ==> signed == rest;
    assert LeadingDigits(rest) == [];
    hide WithoutLeadingSpace;
  }

  lemma LettersDecide(text: string, x: Number)
    ensures ParseIdentifier("s=" + text, x) == Some(NodeId(Some(x), Some(TextId), TextValue(text)))
    ensures ParseIdentifier("g=" + text, x) == Some(NodeId(Some(x), Some(GuidId), TextValue(text)))
    ensures ParseIdentifier("b=" + text, x) == Some(NodeId(Some(x), Some(ByteStringId), TextValue(text)))
    ensures ParseIdentifier("i=" + text, x) == Some(NodeId(Some(x), Some(NumericId), NumberValue(ParseInt(text))))
  {
    hide ParseInt;
    var s, g, b, i := "s=" + text, "g=" + text, "b=" + text, "i=" + text;
    assert s[0] == 's' && g[0] == 'g' && b[0] == 'b' && i[0] == 'i';
    assert StartsWith(s, "s=") && StartsWith(g, "g=") && StartsWith(b, "b=") && StartsWith(i, "i=");
    assert s[2..] == g[2..] == b[2..] == i[2..] == text;
  }

  /** Without a namespace, the letter decides, and everything after it is the identifier, semicolons included. */
  lemma ShortForms(text: string)
    ensures Parse("s=" + text) == Some(NodeId(Some(Int(0)), Some(TextId), TextValue(text)))
    ensures Parse("g=" + text) == Some(NodeId(Some(Int(0)), Some(GuidId), TextValue(text)))
    ensures Parse("b=" + text) == Some(NodeId(Some(Int(0)), Some(ByteStringId), TextValue(text)))
    ensures Parse("i=" + text) == Some(NodeId(Some(Int(0)), Some(NumericId), NumberValue(ParseInt(text))))
  {
    hide Parse, ParseIdentifier, ParseInt;
    LettersDecide(text, Int(0));
    ShortForm("s=", text);
    ShortForm("g=", text);
    ShortForm("b=", text);
    ShortForm("i=", text);
  }

  lemma ShortForm(letter: string, text: string)
    requires |letter| == 2 && letter[0] in {'s', 'i', 'b', 'g'} && letter[1] == '='
    ensures Parse(letter + text) == ParseIdentifier(letter + text, Int(0))
  {
    hide ParseIdentifier, ParseInt, AllDigits;
    var s := letter + text;
    assert s[0] == letter[0] && s[1] == '=';
    LetterIsNoName(s);
    if ';' in s {
      var sep := IndexOf(s, ';');
      assert s[..sep] != "" ==> s[..sep][0] == letter[0];
    }
  }

  lemma LetterIsNoName(s: string)
    requires |s| > 1 && s[1] == '='
    ensures s !in WELL_KNOWN_NODES && s !in INHERITED_NAMES
  {
    assert forall k :: k in WELL_KNOWN_NODES ==> k[1] != '=';
    assert forall k :: k in INHERITED_NAMES ==> k[1] != '=';
  }

  // ----- what printed text is read as

  /** The kind a printed NodeId is read as: its own, except that text is never read as a number. */
  function PrintedKind(n: NodeId): IdentifierType {
    match n.identifierType
    case Some(GuidId) => GuidId
    case Some(ByteStringId) => ByteStringId
    case Some(TextId) => TextId
    case _ => if n.value.TextValue? then TextId else NumericId
  }

  function PrintedValue(n: NodeId): Identifier
    requires Exact(n)
  {
    if PrintedKind(n) != NumericId then TextValue(ValueText(n.value))
    else if HasInfiniteValue(n) then NumberValue(NotANumber)
    else n.value
  }

  function Letter(kind: IdentifierType): string {
    match kind case TextId => "s=" case NumericId => "i=" case GuidId => "g=" case ByteStringId => "b="
  }

  lemma PrintedText(n: NodeId)
    requires Exact(n)
    ensures Print(n)
         == "ns=" + Show(n.namespaceIndex.GetOr(Int(0))) + ";" + (Letter(PrintedKind(n)) + ValueText(n.value))
  {
    hide Show, ValueText;
  }

  lemma PrintedIdentifier(n: NodeId, x: Number)
    requires Exact(n)
    ensures ParseIdentifier(Letter(PrintedKind(n)) + ValueText(n.value), x)
         == Some(NodeId(Some(x), Some(PrintedKind(n)), PrintedValue(n)))
  {
    LettersDecide(ValueText(n.value), x);
    if n.value.NumberValue? {
      ParseIntOfShow(n.value.number);
    }
    hide ParseIdentifier, ParseInt, Show;
  }

  /**
   Whatever object is printed: the text is read with its namespace, 0 if it has none, unless that is no finite
   number; and with its value, as text unless it is numeric.
   */
  lemma PrintedReadsAs(n: NodeId)
    requires Exact(n)
    ensures var x := n.namespaceIndex.GetOr(Int(0));
            Parse(Print(n))
            == if !x.Finite() then None else Some(NodeId(Some(x), Some(PrintedKind(n)), PrintedValue(n)))
  {
    hide Parse, ParseIdentifier, Show, Print, ValueText, PrintedKind, PrintedValue, Letter;
    var x := n.namespaceIndex.GetOr(Int(0));
    PrintedText(n);
    PrintedIdentifier(n, x);
    ParseWithNamespace(x, Letter(PrintedKind(n)) + ValueText(n.value));
  }
}
