/** What a URI says, attribute by attribute, and which tokens it is for. */
module UriMeaning {
  import opened Common
  import opened Percent
  import opened Uri
  import opened UriRoundTrip

  // ----- numbers

  function DigitOf(n: nat): octet
    requires n < 10
  {
    "0123456789"[n]
  }

  /** A number in base 10, without leading zeros. */
  function DecimalOf(n: nat): (s: octets)
    ensures s != []
  {
    if n < 10 then [DigitOf(n)] else DecimalOf(n / 10) + [DigitOf(n % 10)]
  }

  predicate IsDigit(c: octet) { '0' <= c <= '9' }

  predicate AllDigits(s: octets) { forall i :: 0 <= i < |s| ==> IsDigit(s[i]) }

  lemma DigitMeaning(n: nat)
    requires n < 10
    ensures IsDigit(DigitOf(n)) && HexValueOr0(DigitOf(n)) == n && !IsSpace(DigitOf(n))
    ensures DigitOf(n) != '-' && DigitOf(n) != '+' && DigitOf(n) != '.'
  {
    assert DigitOf(n) == ('0' as int + n) as char;
  }

  lemma {:induction false} DecimalOfMeaning(n: nat)
    ensures AllDigits(DecimalOf(n)) && Decimal(DecimalOf(n)) == n
  {
    DigitMeaning(n % 10);
    var s := DecimalOf(n);
    if n < 10 {
      assert s[..0] == [];
    } else {
      DecimalOfMeaning(n / 10);
      assert s[..|s| - 1] == DecimalOf(n / 10);
    }
  }

  lemma {:induction false} DigitsOfAll(s: octets, rest: octets)
    requires AllDigits(s) && (rest == [] || !IsDigit(rest[0]))
    ensures Digits(s + rest) == |s|
  {
    if s != [] {
      assert (s + rest)[1..] == s[1..] + rest;
      DigitsOfAll(s[1..], rest);
    } else {
      assert s + rest == rest;
    }
  }

  /** A run of digits is the number it spells, unless that is 2^64 or more. */
  lemma ParseDigits(s: octets)
    requires s != [] && AllDigits(s)
    ensures ParseUlong(s) == if Decimal(s) < 0x1_0000_0000_0000_0000 then Some(Decimal(s)) else None
  {
    assert IsDigit(s[0]) && !IsSpace(s[0]);
    assert s[0..] == s;
    DigitsOfAll(s, []);
    assert s + [] == s;
  }

  lemma ParseDecimal(n: nat)
    ensures ParseUlong(DecimalOf(n)) == if n < 0x1_0000_0000_0000_0000 then Some(n) else None
  {
    DecimalOfMeaning(n);
    ParseDigits(DecimalOf(n));
  }

  /** Anything behind the digits makes it no number. */
  lemma ParseDigitsThen(s: octets, rest: octets)
    requires s != [] && AllDigits(s) && rest != [] && !IsDigit(rest[0])
    ensures ParseUlong(s + rest) == None
  {
    assert (s + rest)[0] == s[0] && IsDigit(s[0]) && !IsSpace(s[0]);
    assert (s + rest)[0..] == s + rest;
    DigitsOfAll(s, rest);
  }

  lemma FindIs(s: octets, c: octet, n: nat)
    requires n <= |s| && (forall i :: 0 <= i < n ==> s[i] != c) && (n < |s| ==> s[n] == c)
    ensures Find(s, c) == n
  {
  }

  lemma {:induction false} DecimalOfShort(n: nat, k: nat)
    requires n < Pow10(k) && k > 0
    ensures |DecimalOf(n)| <= k
  {
    if n >= 10 { DecimalOfShort(n / 10, k - 1); }
  }

  function Pow10(k: nat): nat { if k == 0 then 1 else 10 * Pow10(k - 1) }

  lemma SplitVersion(a: octets, b: octets)
    requires AllDigits(a) && AllDigits(b) && 1 <= |a| <= 3 && 1 <= |b| <= 3
    ensures ParseVersion(a + ['.'] + b) ==
      match (ParseUlong(a), ParseUlong(b))
      case (Some(major), Some(minor)) => if major > 255 || minor > 255 then None else Some((major, minor))
      case _ => None
  {
    var s := a + ['.'] + b;
    assert forall i :: 0 <= i < |a| ==> s[i] == a[i] && IsDigit(a[i]);
    assert s[|a|] == '.';
    FindIs(s, '.', |a|);
    assert s[..|a|] == a && s[|a| + 1..] == b;
  }

  /** Two octets in base 10 with a dot between them are that version. */
  lemma ParseVersionMeaning(major: nat, minor: nat)
    requires major < 1000 && minor < 1000
    ensures ParseVersion(DecimalOf(major) + ['.'] + DecimalOf(minor))
         == if major <= 255 && minor <= 255 then Some((major, minor)) else None
  {
    DecimalOfMeaning(major);
    DecimalOfMeaning(minor);
    assert Pow10(3) == 1000;
    DecimalOfShort(major, 3);
    DecimalOfShort(minor, 3);
    SplitVersion(DecimalOf(major), DecimalOf(minor));
    ParseDecimal(major);
    ParseDecimal(minor);
  }

  /** Without a dot, or too short or long for one, it is no version. */
  lemma ParseVersionRefuses(s: octets)
    requires '.' !in s || |s| < 3 || |s| > 7
    ensures ParseVersion(s) == None
  {
    if '.' !in s { FindIs(s, '.', |s|); }
  }

  // ----- attributes, one by one

  /** What a value given for an attribute does to the URI read so far. */
  function Effect(name: octets, value: octets, u: Uri, files: Files): Option<Uri> {
    match AttributeOf(name)
    case Some(a) => Handle(a, value, u, files)
    case None => Some(u)
  }

  const LIBRARY_DESCRIPTION: octets := "library-description"
  const LIBRARY_MANUFACTURER: octets := "library-manufacturer"
  const LIBRARY_VERSION: octets := "library-version"
  const SLOT_DESCRIPTION: octets := "slot-description"
  const SLOT_ID: octets := "slot-id"
  const SLOT_MANUFACTURER: octets := "slot-manufacturer"
  const PIN_VALUE: octets := "pin-value"
  const PIN_SOURCE: octets := "pin-source"
  const OBJECT_TYPE: octets := "object-type"

  lemma NameOfLibraryDescription()
    ensures AttributeOf(LIBRARY_DESCRIPTION) == Some(LibraryDescription)
  {
    LookupAt(LIBRARY_DESCRIPTION, ATTRIBUTES, 0);
  }
  lemma NameOfLibraryManufacturer()
    ensures AttributeOf(LIBRARY_MANUFACTURER) == Some(LibraryManufacturer)
  {
    LookupAt(LIBRARY_MANUFACTURER, ATTRIBUTES, 1);
  }
  lemma NameOfLibraryVersion()
    ensures AttributeOf(LIBRARY_VERSION) == Some(LibraryVersion)
  {
    LookupAt(LIBRARY_VERSION, ATTRIBUTES, 2);
  }
  lemma NameOfSlotDescription()
    ensures AttributeOf(SLOT_DESCRIPTION) == Some(SlotDescription)
  {
    LookupAt(SLOT_DESCRIPTION, ATTRIBUTES, 7);
  }
  lemma NameOfSlotId()
    ensures AttributeOf(SLOT_ID) == Some(SlotId)
  {
    LookupAt(SLOT_ID, ATTRIBUTES, 8);
  }
  lemma NameOfSlotManufacturer()
    ensures AttributeOf(SLOT_MANUFACTURER) == Some(SlotManufacturer)
  {
    LookupAt(SLOT_MANUFACTURER, ATTRIBUTES, 9);
  }
  lemma NameOfPinValue()
    ensures AttributeOf(PIN_VALUE) == Some(PinValue)
  {
    LookupAt(PIN_VALUE, ATTRIBUTES, 13);
  }
  lemma NameOfPinSource()
    ensures AttributeOf(PIN_SOURCE) == Some(PinSource)
  {
    LookupAt(PIN_SOURCE, ATTRIBUTES, 14);
  }
  lemma NameOfObjectType()
    ensures AttributeOf(OBJECT_TYPE) == Some(Type)
  {
    LookupAt(OBJECT_TYPE, ATTRIBUTES, 15);
  }

  /** The value as text, if it is one, in a field of its own. */
  function Stored(text: Option<octets>, v: Uri): Option<Uri> { if text.None? then None else Some(v) }

  /** Text attributes of the library, the slot and the PIN. */
  lemma TextEffects(value: octets, u: Uri, files: Files)
    ensures var x := ParseText(value);
      && Effect(LIBRARY_DESCRIPTION, value, u, files) == Stored(x, u.(libraryDescription := x))
      && Effect(LIBRARY_MANUFACTURER, value, u, files) == Stored(x, u.(libraryManufacturer := x))
      && Effect(SLOT_DESCRIPTION, value, u, files) == Stored(x, u.(slotDescription := x))
      && Effect(SLOT_MANUFACTURER, value, u, files) == Stored(x, u.(slotManufacturer := x))
      && Effect(PIN_VALUE, value, u, files) == Stored(x, u.(pin := x))
  {
    NameOfLibraryDescription();
    NameOfLibraryManufacturer();
    NameOfSlotDescription();
    NameOfSlotManufacturer();
    NameOfPinValue();
  }

  /** Text attributes of the token and the object. */
  lemma TokenEffects(value: octets, u: Uri, files: Files)
    ensures var x := ParseText(value);
      && Effect(TOKEN, value, u, files) == Stored(x, u.(token := x))
      && Effect(MANUFACTURER, value, u, files) == Stored(x, u.(manufacturer := x))
      && Effect(MODEL, value, u, files) == Stored(x, u.(model := x))
      && Effect(SERIAL, value, u, files) == Stored(x, u.(serial := x))
      && Effect(OBJECT, value, u, files) == Stored(x, u.(objectLabel := x))
  {
    NameOfToken();
    NameOfManufacturer();
    NameOfModel();
    NameOfSerial();
    NameOfObject();
  }

  /** An identifier of any octets. */
  lemma IdEffect(value: octets, u: Uri, files: Files)
    ensures var id := Unescape(value);
      Effect(ID, value, u, files) == if id.None? then None else Some(u.(id := id))
  {
    NameOfId();
  }

  /** A class, under two names. */
  lemma ClassEffects(value: octets, u: Uri, files: Files)
    ensures var c := ParseClass(value);
      && Effect(TYPE, value, u, files) == (if c.None? then None else Some(u.(objectClass := c)))
      && Effect(OBJECT_TYPE, value, u, files) == (if c.None? then None else Some(u.(objectClass := c)))
  {
    NameOfType();
    NameOfObjectType();
  }

  /** A slot id, a version, and a PIN from a file. */
  lemma SlotIdEffect(value: octets, u: Uri, files: Files)
    ensures var n := ParseUlong(value);
      Effect(SLOT_ID, value, u, files) == if n.None? then None else Some(u.(slotId := n.value))
  {
    NameOfSlotId();
  }

  lemma VersionEffect(value: octets, u: Uri, files: Files)
    ensures var v := ParseVersion(value);
      Effect(LIBRARY_VERSION, value, u, files) == if v.None? then None else Some(u.(libraryVersion := v.value))
  {
    NameOfLibraryVersion();
  }

  lemma PinSourceEffect(value: octets, u: Uri, files: Files)
    ensures var pin := ReadPin(value, files);
      Effect(PIN_SOURCE, value, u, files) == if pin.None? then None else Some(u.(pin := pin))
  {
    NameOfPinSource();
  }

  /** A name that is no attribute says nothing. */
  lemma {:induction false} NoEffect(name: octets, value: octets, u: Uri, files: Files)
    requires forall i :: 0 <= i < |ATTRIBUTES| ==> ATTRIBUTES[i].0 != name
    ensures Effect(name, value, u, files) == Some(u)
  {
    NotLookedUp(name, ATTRIBUTES);
  }

  lemma {:induction false} NotLookedUp(name: octets, table: seq<(octets, Attribute)>)
    requires forall i :: 0 <= i < |table| ==> table[i].0 != name
    ensures Lookup(name, table) == None
  {
    if table != [] { NotLookedUp(name, table[1..]); }
  }

  /** A text attribute takes every escaped text without NUL, and refuses any other value. */
  lemma ParseTextMeaning(value: octets)
    ensures var v := Unescape(value);
      ParseText(value) == if v.Some? && NulFree(v.value) then v else None
  {
    if Unescape(value).Some? { TextOfNulFree(Unescape(value).value); }
  }

  /** A class is one of the five names, escaped or not. */
  lemma ParseClassMeaning(value: octets)
    ensures var c := if ParseText(value).None? then None else ClassOf(ParseText(value).value);
      ParseClass(value) == c
    ensures ClassOf("data") == Some(Data) && ClassOf("cert") == Some(Certificate)
    ensures ClassOf("public") == Some(PublicKey) && ClassOf("private") == Some(PrivateKey)
    ensures ClassOf("secret-key") == Some(SecretKey)
  {
    assert "data"[0] == 'd' && "cert"[0] == 'c' && "secret-key"[0] == 's';
    assert "public"[1] == 'u' && "private"[1] == 'r';
    assert "public"[0] == "private"[0] == 'p';
  }

  /** A PIN source names a file, with or without the scheme; a command is refused. */
  lemma PinOfText(name: octets, files: Files)
    requires NulFree(name)
    ensures ReadPin(Escape(name, false), files) ==
      if |name| >= 5 && name[..5] == "file:" then files(name[5..])
      else if name != [] && name[0] == '|' then None
      else files(name)
  {
    UnescapeEscape(name, false);
    TextOfNulFree(name);
  }

  // ----- whole URIs

  /** An attribute written out, and what separates it from the next one. */
  datatype Piece = Piece(name: octets, value: octets, sep: octet)

  predicate Spellable(p: Piece) {
    && '=' !in p.name && Plain(p.name) && Plain(p.value) && (p.sep == ';' || p.sep == '?' || p.sep == '&')
  }

  predicate AllSpellable(ps: seq<Piece>) { forall i :: 0 <= i < |ps| ==> Spellable(ps[i]) }

  function Spell(ps: seq<Piece>): octets
    requires ps != []
  {
    var c := ps[0].name + ['='] + ps[0].value;
    if |ps| == 1 then c else c + [ps[0].sep] + Spell(ps[1..])
  }

  /** The pieces have their effects in order; the first one refused refuses the URI. */
  function Effects(ps: seq<Piece>, u: Uri, files: Files): Option<Uri> {
    if ps == [] then Some(u)
    else
      match Effect(ps[0].name, ps[0].value, u, files)
      case Some(v) => Effects(ps[1..], v, files)
      case None => None
  }

  lemma OnePiece(p: Piece, u: Uri, files: Files)
    requires Spellable(p)
    ensures var c := p.name + ['='] + p.value;
      Plain(c) && Apply(c, u, files) == Effect(p.name, p.value, u, files)
  {
    var c := p.name + ['='] + p.value;
    FindAfterName(p.name, p.value);
    assert c[..|p.name|] == p.name && c[|p.name| + 1..] == p.value;
  }

  lemma EndOfPiece(c: octets, sep: octet, rest: octets)
    requires Plain(c) && IsSeparator(sep)
    ensures ComponentEnd(c + [sep] + rest) == |c| && ComponentEnd(c) == |c|
  {
    var t := c + [sep] + rest;
    assert t[|c|] == sep;
    assert forall i :: 0 <= i < |c| ==> t[i] == c[i];
  }

  lemma {:induction false} SpelledIsRead(ps: seq<Piece>, u: Uri, files: Files)
    requires ps != [] && AllSpellable(ps)
    ensures ParseComponents(Spell(ps), u, files) == Effects(ps, u, files)
  {
    var c := ps[0].name + ['='] + ps[0].value;
    OnePiece(ps[0], u, files);
    if |ps| == 1 {
      EndOfPiece(c, ';', []);
      assert c[..|c|] == c;
      assert ps[1..] == [];
    } else {
      var s := Spell(ps);
      EndOfPiece(c, ps[0].sep, Spell(ps[1..]));
      assert s[..|c|] == c && s[|c| + 1..] == Spell(ps[1..]);
      match Effect(ps[0].name, ps[0].value, u, files)
      case Some(v) => SpelledIsRead(ps[1..], v, files);
      case None =>
    }
  }

  /** Any attributes, in any order, separated in any of the three ways: a URI of them is read as
      what they say one after the other, and only the scheme pkcs11 is taken. */
  lemma UriSays(ps: seq<Piece>, files: Files)
    requires ps != [] && AllSpellable(ps)
    ensures Parse(SCHEME + Spell(ps), files) == Effects(ps, EMPTY, files)
  {
    SpelledIsRead(ps, EMPTY, files);
    ParseScheme(Spell(ps), files);
  }

  lemma ParseScheme(rest: octets, files: Files)
    ensures SCHEME == "pkcs11:" && Parse(SCHEME + rest, files) == ParseComponents(rest, EMPTY, files)
  {
    var s := SCHEME + rest;
    assert |SCHEME| == 7 && s[..7] == SCHEME && s[7..] == rest;
  }

  lemma OtherSchemes(s: octets, files: Files)
    requires |s| < 7 || s[..7] != "pkcs11:"
    ensures Parse(s, files) == None
  {
  }

  /** A URI of one attribute. */
  lemma OneSays(name: octets, value: octets, files: Files)
    requires Spellable(Piece(name, value, ';'))
    ensures Parse(SCHEME + (name + ['='] + value), files) == Effect(name, value, EMPTY, files)
  {
    var p := Piece(name, value, ';');
    UriSays([p], files);
    assert Spell([p]) == name + ['='] + value;
    assert [p][1..] == [];
    assert Effects([p], EMPTY, files) == Effect(name, value, EMPTY, files);
  }

  lemma DecimalIsSpellable(n: nat)
    ensures Spellable(Piece(SLOT_ID, DecimalOf(n), ';'))
  {
    DecimalOfMeaning(n);
  }

  /** A slot id in base 10. */
  lemma SlotIdSays(n: nat, files: Files)
    ensures Parse(SCHEME + (SLOT_ID + ['='] + DecimalOf(n)), files)
         == if n < 0x1_0000_0000_0000_0000 then Some(EMPTY.(slotId := n)) else None
  {
    DecimalIsSpellable(n);
    OneSays(SLOT_ID, DecimalOf(n), files);
    SlotIdEffect(DecimalOf(n), EMPTY, files);
    ParseDecimal(n);
  }

  // ----- matching

  function Cut(a: octets, width: nat): octets { a[..if |a| < width then |a| else width] }

  predicate NulFreeText(a: Option<octets>) { a.Some? ==> NulFree(a.value) }

  lemma FieldMeaning(wanted: Option<octets>, field: octets, width: nat)
    requires |field| == width && NulFreeText(wanted)
    ensures MatchesField(wanted, field) <==> (wanted.Some? ==> Cut(wanted.value, width) == Text(field))
  {
    if wanted.Some? { SameTextMeaning(wanted.value, field); }
  }

  /** A URI is for a token exactly when a slot id it gives is the slot's, and each text it gives,
      cut to the width of the field it is for, is the text of that field. */
  lemma MatchMeaning(u: Uri, slotId: nat, slot: SlotInfo, t: TokenInfo)
    requires slot.Valid() && t.Valid()
    requires NulFreeText(u.slotDescription) && NulFreeText(u.slotManufacturer) && NulFreeText(u.model)
    requires NulFreeText(u.manufacturer) && NulFreeText(u.token) && NulFreeText(u.serial)
    ensures MatchToken(u, slotId, slot, t) <==>
      && (u.slotId != UNAVAILABLE ==> u.slotId == slotId)
      && (u.slotDescription.Some? ==> Cut(u.slotDescription.value, 64) == Text(slot.description))
      && (u.slotManufacturer.Some? ==> Cut(u.slotManufacturer.value, 32) == Text(slot.manufacturer))
      && (u.model.Some? ==> Cut(u.model.value, 16) == Text(t.model))
      && (u.manufacturer.Some? ==> Cut(u.manufacturer.value, 32) == Text(t.manufacturer))
      && (u.token.Some? ==> Cut(u.token.value, 32) == Text(t.tokenLabel))
      && (u.serial.Some? ==> Cut(u.serial.value, 16) == Text(t.serial))
  {
    FieldMeaning(u.slotDescription, slot.description, 64);
    FieldMeaning(u.slotManufacturer, slot.manufacturer, 32);
    FieldMeaning(u.model, t.model, 16);
    FieldMeaning(u.manufacturer, t.manufacturer, 32);
    FieldMeaning(u.token, t.tokenLabel, 32);
    FieldMeaning(u.serial, t.serial, 16);
  }

  /** Every URI that is read has such texts. */
  predicate AllTextsNulFree(u: Uri) {
    && NulFreeText(u.slotDescription) && NulFreeText(u.slotManufacturer) && NulFreeText(u.model)
    && NulFreeText(u.manufacturer) && NulFreeText(u.token) && NulFreeText(u.serial)
  }

  lemma HandleKeepsTexts(a: Attribute, value: octets, u: Uri, files: Files)
    requires AllTextsNulFree(u) && Handle(a, value, u, files).Some?
    ensures AllTextsNulFree(Handle(a, value, u, files).value)
  {
    ParseTextMeaning(value);
  }

  lemma ApplyKeepsTexts(comp: octets, u: Uri, files: Files)
    requires AllTextsNulFree(u) && Apply(comp, u, files).Some?
    ensures AllTextsNulFree(Apply(comp, u, files).value)
  {
    var eq := Find(comp, '=');
    if eq < |comp| && AttributeOf(comp[..eq]).Some? {
      HandleKeepsTexts(AttributeOf(comp[..eq]).value, comp[eq + 1..], u, files);
    }
  }

  lemma {:induction false} ReadTextsNulFree(s: octets, u: Uri, files: Files)
    requires AllTextsNulFree(u) && ParseComponents(s, u, files).Some?
    ensures AllTextsNulFree(ParseComponents(s, u, files).value)
    decreases |s|
  {
    var n := ComponentEnd(s);
    var w := Apply(s[..n], u, files);
    ApplyKeepsTexts(s[..n], u, files);
    if n < |s| { ReadTextsNulFree(s[n + 1..], w.value, files); }
  }

  lemma ParsedTextsNulFree(s: octets, files: Files)
    requires Parse(s, files).Some?
    ensures AllTextsNulFree(Parse(s, files).value)
  {
    ReadTextsNulFree(s[7..], EMPTY, files);
  }
}
