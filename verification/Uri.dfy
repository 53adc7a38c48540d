/** PKCS#11 URIs (section 2.3 of RFC 7512): printing the URI of an object, parsing a URI,
    and matching a URI with a token. */
module Uri {
  import opened Common
  import opened Percent

  datatype Class = Data | Certificate | PublicKey | PrivateKey | SecretKey | OtherClass(value: nat)

  /** The fixed-size fields of CK_TOKEN_INFO, padded with NUL after trimming. */
  datatype TokenInfo = TokenInfo(tokenLabel: octets, manufacturer: octets, model: octets, serial: octets)
  {
    ghost predicate Valid() { |tokenLabel| == 32 && |manufacturer| == 32 && |model| == 16 && |serial| == 16 }
  }

  datatype SlotInfo = SlotInfo(description: octets, manufacturer: octets)
  {
    ghost predicate Valid() { |description| == 64 && |manufacturer| == 32 }
  }

  datatype Object = Object(objectClass: Class, id: Option<octets>, objectLabel: Option<octets>)

  datatype Uri = Uri(
    libraryDescription: Option<octets>, libraryManufacturer: Option<octets>, libraryVersion: (nat, nat),
    token: Option<octets>, manufacturer: Option<octets>, model: Option<octets>, serial: Option<octets>,
    slotDescription: Option<octets>, slotId: nat, slotManufacturer: Option<octets>,
    id: Option<octets>, objectLabel: Option<octets>, objectClass: Option<Class>, pin: Option<octets>)

  const EMPTY: Uri :=
    Uri(None, None, (0, 0), None, None, None, None, None, UNAVAILABLE, None, None, None, None, None)

  // ----- printing

  function TypeName(c: Class): Option<octets> {
    match c
    case Data => Some("data")
    case Certificate => Some("cert")
    case PublicKey => Some("public")
    case PrivateKey => Some("private")
    case SecretKey => Some("secret-key")
    case OtherClass(_) => None
  }

  function Component(name: octets, value: octets): octets {
    name + "=" + Escape(value, |name| == 2) + ";"
  }

  /** A component is printed only for a value that is not empty. */
  function Part(name: octets, value: octets): octets {
    if value == [] then [] else Component(name, value)
  }

  function Shown(value: Option<octets>): octets {
    if value.Some? then value.value else []
  }

  const SCHEME: octets := "pkcs11:"
  const TYPE_EQ: octets := TYPE + ['=']

  function TokenParts(t: TokenInfo, rest: octets): octets {
    Part(MODEL, Text(t.model)) + (Part(MANUFACTURER, Text(t.manufacturer))
      + (Part(SERIAL, Text(t.serial)) + (Part(TOKEN, Text(t.tokenLabel)) + rest)))
  }

  function ObjectParts(o: Object, typeName: octets): octets {
    Part(ID, Shown(o.id)) + (Part(OBJECT, Shown(o.objectLabel)) + (TYPE_EQ + typeName))
  }

  /** p11prov_obj_to_uri; an object of another class has no URI. */
  function Print(t: TokenInfo, o: Object): Option<octets> {
    match TypeName(o.objectClass)
    case None => None
    case Some(name) => Some(SCHEME + TokenParts(t, ObjectParts(o, name)))
  }

  // ----- numbers

  predicate IsSpace(c: octet) { c == ' ' || '\t' <= c <= '\r' }

  function SkipSpace(s: octets): (n: nat)
    ensures n <= |s|
  {
    if s != [] && IsSpace(s[0]) then 1 + SkipSpace(s[1..]) else 0
  }

  function Digits(s: octets): (n: nat)
    ensures n <= |s|
  {
    if s != [] && '0' <= s[0] <= '9' then 1 + Digits(s[1..]) else 0
  }

  function Decimal(s: octets): nat {
    if s == [] then 0 else 10 * Decimal(s[..|s| - 1]) + HexValueOr0(s[|s| - 1])
  }

  function HexValueOr0(c: octet): nat { if HexValue(c).Some? then HexValue(c).value else 0 }

  /** parse_ulong: strtoul in base 10 must read exactly the value without overflow; like
      strtoul it takes leading space and a sign, and reads nothing from an empty value. */
  function ParseUlong(s: octets): Option<nat> {
    var b := SkipSpace(s);
    var signed := b < |s| && (s[b] == '-' || s[b] == '+');
    var d := if signed then b + 1 else b;
    var n := Digits(s[d..]);
    if n == 0 then (if s == [] then Some(0) else None)
    else if d + n != |s| then None
    else
      var v := Decimal(s[d..]);
      if v > UNAVAILABLE then None
      else Some(if signed && s[b] == '-' then (UNAVAILABLE + 1 - v) % (UNAVAILABLE + 1) else v)
  }

  function Find(s: octets, c: octet): (n: nat)
    ensures n <= |s|
    ensures forall i :: 0 <= i < n ==> s[i] != c
    ensures n < |s| ==> s[n] == c
  {
    if s == [] || s[0] == c then 0 else 1 + Find(s[1..], c)
  }

  function ParseVersion(s: octets): Option<(nat, nat)> {
    var dot := Find(s, '.');
    if |s| < 3 || |s| > 7 || dot == |s| then None
    else
      match (ParseUlong(s[..dot]), ParseUlong(s[dot + 1..]))
      case (Some(major), Some(minor)) => if major > 255 || minor > 255 then None else Some((major, minor))
      case _ => None
  }

  // ----- parsing

  /** parse_utf8str: the decoded value must not contain a NUL. */
  function ParseText(s: octets): Option<octets> {
    match Unescape(s)
    case Some(v) => if Strnlen(v) == |v| then Some(v) else None
    case None => None
  }

  function ParseClass(s: octets): Option<Class> {
    match ParseText(s)
    case None => None
    case Some(v) => ClassOf(v)
  }

  function ClassOf(name: octets): Option<Class> {
    if name == "data" then Some(Data)
    else if name == "cert" then Some(Certificate)
    else if name == "public" then Some(PublicKey)
    else if name == "private" then Some(PrivateKey)
    else if name == "secret-key" then Some(SecretKey)
    else None
  }

  /** Reads the PIN from a file; files gives the content of each readable file. */
  type Files = octets -> Option<octets>

  function ReadPin(s: octets, files: Files): Option<octets> {
    match Unescape(s)
    case None => None
    case Some(v) =>
      var name := Text(v);
      if |name| >= 5 && name[..5] == "file:" then files(name[5..])
      else if name != [] && name[0] == '|' then None
      else files(name)
  }

  datatype Attribute =
    | LibraryDescription | LibraryManufacturer | LibraryVersion | Token | Manufacturer | Model | Serial
    | SlotDescription | SlotId | SlotManufacturer | Id | ObjectLabel | Type | PinValue | PinSource

  const TOKEN: octets := "token"
  const MANUFACTURER: octets := "manufacturer"
  const MODEL: octets := "model"
  const SERIAL: octets := "serial"
  const ID: octets := "id"
  const OBJECT: octets := "object"
  const TYPE: octets := "type"

  /** The attribute names the parser knows, with their handlers. */
  const ATTRIBUTES: seq<(octets, Attribute)> := [
    ("library-description", LibraryDescription), ("library-manufacturer", LibraryManufacturer),
    ("library-version", LibraryVersion), (TOKEN, Token), (MANUFACTURER, Manufacturer), (MODEL, Model),
    (SERIAL, Serial), ("slot-description", SlotDescription), ("slot-id", SlotId),
    ("slot-manufacturer", SlotManufacturer), (ID, Id), (OBJECT, ObjectLabel), (TYPE, Type),
    ("pin-value", PinValue), ("pin-source", PinSource), ("object-type", Type)]

  function AttributeOf(name: octets): Option<Attribute> {
    Lookup(name, ATTRIBUTES)
  }

  function Lookup(name: octets, table: seq<(octets, Attribute)>): Option<Attribute> {
    if table == [] then None
    else if table[0].0 == name then Some(table[0].1)
    else Lookup(name, table[1..])
  }

  /** The handler of an attribute stores the value, or fails. */
  function Handle(a: Attribute, value: octets, u: Uri, files: Files): Option<Uri> {
    match a
    case Id =>
      var id := Unescape(value);
      if id.Some? then Some(u.(id := id)) else None
    case Type =>
      var c := ParseClass(value);
      if c.Some? then Some(u.(objectClass := c)) else None
    case SlotId =>
      var n := ParseUlong(value);
      if n.Some? then Some(u.(slotId := n.value)) else None
    case LibraryVersion =>
      var v := ParseVersion(value);
      if v.Some? then Some(u.(libraryVersion := v.value)) else None
    case PinSource =>
      var pin := ReadPin(value, files);
      if pin.Some? then Some(u.(pin := pin)) else None
    case _ =>
      var text := ParseText(value);
      if text.Some? then Some(StoreText(a, text, u)) else None
  }

  function StoreText(a: Attribute, text: Option<octets>, u: Uri): Uri {
    match a
    case Model => u.(model := text)
    case Manufacturer => u.(manufacturer := text)
    case Serial => u.(serial := text)
    case Token => u.(token := text)
    case ObjectLabel => u.(objectLabel := text)
    case LibraryDescription => u.(libraryDescription := text)
    case LibraryManufacturer => u.(libraryManufacturer := text)
    case SlotDescription => u.(slotDescription := text)
    case SlotManufacturer => u.(slotManufacturer := text)
    case PinValue => u.(pin := text)
    case _ => u
  }

  predicate IsSeparator(c: octet) { c == ';' || c == '?' || c == '&' }

  /** strpbrk(p, ";?&"), or the end of the string. */
  function ComponentEnd(s: octets): (n: nat)
    ensures n <= |s|
    ensures forall i :: 0 <= i < n ==> !IsSeparator(s[i])
    ensures n < |s| ==> IsSeparator(s[n])
  {
    if s == [] || IsSeparator(s[0]) then 0 else 1 + ComponentEnd(s[1..])
  }

  /** A component whose name is not an attribute is passed over. */
  function Apply(component: octets, u: Uri, files: Files): Option<Uri> {
    var eq := Find(component, '=');
    if eq == |component| then Some(u)
    else
      match AttributeOf(component[..eq])
      case Some(a) => Handle(a, component[eq + 1..], u, files)
      case None => Some(u)
  }

  function ParseComponents(s: octets, u: Uri, files: Files): Option<Uri>
    decreases |s|
  {
    var n := ComponentEnd(s);
    match Apply(s[..n], u, files)
    case None => None
    case Some(v) => if n < |s| then ParseComponents(s[n + 1..], v, files) else Some(v)
  }

  function Parse(s: octets, files: Files): Option<Uri> {
    if |s| >= 7 && s[..7] == SCHEME then ParseComponents(s[7..], EMPTY, files) else None
  }

  // ----- matching

  /** strncmp(a, field, |field|) == 0 for a C string a. */
  predicate SameText(a: octets, field: octets) {
    field == [] ||
    (var x := if a == [] then NUL else a[0];
     x == field[0] && (x == NUL || SameText(a[1..], field[1..])))
  }

  predicate MatchesField(wanted: Option<octets>, field: octets) {
    wanted.None? || SameText(wanted.value, field)
  }

  predicate MatchToken(u: Uri, slotId: nat, slot: SlotInfo, t: TokenInfo) {
    && (u.slotId == UNAVAILABLE || u.slotId == slotId)
    && MatchesField(u.slotDescription, slot.description)
    && MatchesField(u.slotManufacturer, slot.manufacturer)
    && MatchesField(u.model, t.model)
    && MatchesField(u.manufacturer, t.manufacturer)
    && MatchesField(u.token, t.tokenLabel)
    && MatchesField(u.serial, t.serial)
  }
}

/** Printing the URI of an object and parsing it are inverse. */
module UriRoundTrip {
  import opened Common
  import opened Percent
  import opened Uri

  predicate Plain(s: octets) {
    forall i :: 0 <= i < |s| ==> !IsSeparator(s[i])
  }

  lemma FindAfterName(name: octets, rest: octets)
    requires '=' !in name
    ensures Find(name + ['='] + rest, '=') == |name|
  {
    var s := name + ['='] + rest;
    assert s[|name|] == '=';
    assert forall i :: 0 <= i < |name| ==> s[i] == name[i];
  }

  lemma ComponentEndAfterPlain(s: octets, rest: octets)
    requires Plain(s)
    ensures ComponentEnd(s + [';'] + rest) == |s| && ComponentEnd(s) == |s|
  {
    var t := s + [';'] + rest;
    assert t[|s|] == ';';
    assert forall i :: 0 <= i < |s| ==> t[i] == s[i];
  }

  predicate NameOf(name: octets, a: Attribute) {
    AttributeOf(name) == Some(a) && Plain(name) && '=' !in name
  }

  /** One printed component is read by the handler of its name; then comes the rest. */
  lemma ReadComponent(name: octets, a: Attribute, value: octets, rest: octets, u: Uri, files: Files)
    requires NameOf(name, a)
    ensures ParseComponents(Component(name, value) + rest, u, files)
         == match Handle(a, Escape(value, |name| == 2), u, files)
            case None => None
            case Some(v) => ParseComponents(rest, v, files)
  {
    var e := Escape(value, |name| == 2);
    var c := name + ['='] + e;
    EscapedIsPlain(value, |name| == 2);
    assert Plain(c);
    ComponentEndAfterPlain(c, rest);
    var s := Component(name, value) + rest;
    assert s == c + [';'] + rest;
    assert s[..|c|] == c && s[|c| + 1..] == rest;
    FindAfterName(name, e);
    assert c[..|name|] == name && c[|name| + 1..] == e;
  }

  /** The last component, the type, has no separator after it. */
  lemma ReadType(typeName: octets, u: Uri, files: Files)
    requires Plain(typeName)
    ensures ParseComponents(TYPE_EQ + typeName, u, files) == Handle(Type, typeName, u, files)
  {
    var c := TYPE_EQ + typeName;
    NameOfType();
    assert c == TYPE + ['='] + typeName;
    ComponentEndAfterPlain(c, []);
    assert c[..|c|] == c;
    FindAfterName(TYPE, typeName);
    assert c[..|TYPE|] == TYPE && c[|TYPE| + 1..] == typeName;
  }

  lemma NameOfType() ensures NameOf(TYPE, Type) { LookupAt(TYPE, ATTRIBUTES, 12); }
  lemma NameOfModel() ensures NameOf(MODEL, Model) { LookupAt(MODEL, ATTRIBUTES, 5); }
  lemma NameOfManufacturer() ensures NameOf(MANUFACTURER, Manufacturer) { LookupAt(MANUFACTURER, ATTRIBUTES, 4); }
  lemma NameOfSerial() ensures NameOf(SERIAL, Serial) { LookupAt(SERIAL, ATTRIBUTES, 6); }
  lemma NameOfToken() ensures NameOf(TOKEN, Token) { LookupAt(TOKEN, ATTRIBUTES, 3); }
  lemma NameOfId() ensures NameOf(ID, Id) && |ID| == 2 { LookupAt(ID, ATTRIBUTES, 10); }
  lemma NameOfObject() ensures NameOf(OBJECT, ObjectLabel) && |OBJECT| != 2 { LookupAt(OBJECT, ATTRIBUTES, 11); }

  lemma {:induction false} LookupAt(name: octets, table: seq<(octets, Attribute)>, i: nat)
    requires i < |table| && table[i].0 == name
    requires forall j :: 0 <= j < i ==> table[j].0 != name
    ensures Lookup(name, table) == Some(table[i].1)
  {
    if i > 0 { LookupAt(name, table[1..], i - 1); }
  }

  lemma ReadTypeName(c: Class)
    requires TypeName(c).Some?
    ensures Plain(TypeName(c).value) && ParseClass(TypeName(c).value) == Some(c)
  {
    TypeNamesAreText(c);
    ReadPlain(TypeName(c).value);
    ClassOfName(c);
  }

  lemma ReadPlain(s: octets)
    requires NulFree(s) && '%' !in s
    ensures ParseText(s) == Some(s)
  {
    PlainIsUnescaped(s);
    TextOfNulFree(s);
  }

  lemma ClassOfName(c: Class)
    requires TypeName(c).Some?
    ensures ClassOf(TypeName(c).value) == Some(c)
  {
    assert "data"[0] == 'd' && "cert"[0] == 'c' && "secret-key"[0] == 's';
    assert "public"[1] == 'u' && "private"[1] == 'r';
    assert "public"[0] == "private"[0] == 'p';
  }

  lemma TypeNamesAreText(c: Class)
    requires TypeName(c).Some?
    ensures Plain(TypeName(c).value) && NulFree(TypeName(c).value) && '%' !in TypeName(c).value
  {
  }

  lemma {:induction false} PlainIsUnescaped(s: octets)
    requires NulFree(s) && '%' !in s
    ensures Unescape(s) == Some(s)
  {
    if s != [] {
      PlainIsUnescaped(s[1..]);
      assert [s[0]] + s[1..] == s;
    }
  }

  lemma ReadText(value: octets, bin: bool)
    ensures ParseText(Escape(value, bin)) == if NulFree(value) then Some(value) else None
  {
    UnescapeEscape(value, bin);
    TextOfNulFree(value);
  }

  // What reading a part of the printed URI does to the URI being built.

  function Given(value: octets): Option<octets> { if value == [] then None else Some(value) }

  /** The URI an object's printed form stands for. */
  function Meaning(t: TokenInfo, o: Object): Uri {
    EMPTY.(model := Given(Text(t.model)), manufacturer := Given(Text(t.manufacturer)),
           serial := Given(Text(t.serial)), token := Given(Text(t.tokenLabel)),
           id := Given(Shown(o.id)), objectLabel := Given(Shown(o.objectLabel)), objectClass := Some(o.objectClass))
  }

  lemma ReadPart(name: octets, a: Attribute, value: octets, rest: octets, u: Uri, v: Uri, files: Files)
    requires NameOf(name, a)
    requires value == [] ==> v == u
    requires value != [] ==> Handle(a, Escape(value, |name| == 2), u, files) == Some(v)
    ensures ParseComponents(Part(name, value) + rest, u, files) == ParseComponents(rest, v, files)
  {
    if value == [] {
      assert Part(name, value) + rest == rest;
    } else {
      ReadComponent(name, a, value, rest, u, files);
    }
  }

  lemma ReadModel(value: octets, rest: octets, u: Uri, files: Files)
    requires NulFree(value) && u.model.None?
    ensures ParseComponents(Part(MODEL, value) + rest, u, files)
         == ParseComponents(rest, u.(model := Given(value)), files)
  {
    NameOfModel();
    ReadText(value, |MODEL| == 2);
    ReadPart(MODEL, Model, value, rest, u, u.(model := Given(value)), files);
  }

  lemma ReadManufacturer(value: octets, rest: octets, u: Uri, files: Files)
    requires NulFree(value) && u.manufacturer.None?
    ensures ParseComponents(Part(MANUFACTURER, value) + rest, u, files)
         == ParseComponents(rest, u.(manufacturer := Given(value)), files)
  {
    NameOfManufacturer();
    ReadText(value, |MANUFACTURER| == 2);
    ReadPart(MANUFACTURER, Manufacturer, value, rest, u, u.(manufacturer := Given(value)), files);
  }

  lemma ReadSerial(value: octets, rest: octets, u: Uri, files: Files)
    requires NulFree(value) && u.serial.None?
    ensures ParseComponents(Part(SERIAL, value) + rest, u, files)
         == ParseComponents(rest, u.(serial := Given(value)), files)
  {
    NameOfSerial();
    ReadText(value, |SERIAL| == 2);
    ReadPart(SERIAL, Serial, value, rest, u, u.(serial := Given(value)), files);
  }

  lemma ReadToken(value: octets, rest: octets, u: Uri, files: Files)
    requires NulFree(value) && u.token.None?
    ensures ParseComponents(Part(TOKEN, value) + rest, u, files)
         == ParseComponents(rest, u.(token := Given(value)), files)
  {
    NameOfToken();
    ReadText(value, |TOKEN| == 2);
    ReadPart(TOKEN, Token, value, rest, u, u.(token := Given(value)), files);
  }

  /** An id is any octets; it is written in hexadecimal throughout. */
  lemma ReadId(value: octets, rest: octets, u: Uri, files: Files)
    requires u.id.None?
    ensures ParseComponents(Part(ID, value) + rest, u, files)
         == ParseComponents(rest, u.(id := Given(value)), files)
  {
    NameOfId();
    UnescapeEscape(value, true);
    ReadPart(ID, Id, value, rest, u, u.(id := Given(value)), files);
  }

  lemma ReadObject(value: octets, rest: octets, u: Uri, files: Files)
    requires NulFree(value) && u.objectLabel.None?
    ensures ParseComponents(Part(OBJECT, value) + rest, u, files)
         == ParseComponents(rest, u.(objectLabel := Given(value)), files)
  {
    NameOfObject();
    ReadText(value, false);
    ReadPart(OBJECT, ObjectLabel, value, rest, u, u.(objectLabel := Given(value)), files);
  }

  lemma RefuseObject(value: octets, rest: octets, u: Uri, files: Files)
    requires !NulFree(value)
    ensures ParseComponents(Part(OBJECT, value) + rest, u, files) == None
  {
    NameOfObject();
    ReadText(value, false);
    ReadComponent(OBJECT, ObjectLabel, value, rest, u, files);
  }

  lemma ReadClass(c: Class, typeName: octets, u: Uri, files: Files)
    requires Plain(typeName) && ParseClass(typeName) == Some(c)
    ensures ParseComponents(TYPE_EQ + typeName, u, files) == Some(u.(objectClass := Some(c)))
  {
    ReadType(typeName, u, files);
  }

  function TokenMeaning(t: TokenInfo): Uri {
    EMPTY.(model := Given(Text(t.model)), manufacturer := Given(Text(t.manufacturer)),
           serial := Given(Text(t.serial)), token := Given(Text(t.tokenLabel)))
  }

  /** The token's four fields, read in the order they are printed. */
  lemma ReadTokenParts(t: TokenInfo, rest: octets, files: Files)
    ensures ParseComponents(TokenParts(t, rest), EMPTY, files) == ParseComponents(rest, TokenMeaning(t), files)
  {
    TextOfNulFree(t.model);
    TextOfNulFree(t.manufacturer);
    TextOfNulFree(t.serial);
    TextOfNulFree(t.tokenLabel);
    var u1 := EMPTY.(model := Given(Text(t.model)));
    var u2 := u1.(manufacturer := Given(Text(t.manufacturer)));
    var u3 := u2.(serial := Given(Text(t.serial)));
    var r3 := Part(TOKEN, Text(t.tokenLabel)) + rest;
    var r2 := Part(SERIAL, Text(t.serial)) + r3;
    var r1 := Part(MANUFACTURER, Text(t.manufacturer)) + r2;
    ReadModel(Text(t.model), r1, EMPTY, files);
    ReadManufacturer(Text(t.manufacturer), r2, u1, files);
    ReadSerial(Text(t.serial), r3, u2, files);
    ReadToken(Text(t.tokenLabel), rest, u3, files);
  }

  /** The object's own parts: id, label and type. A label with a NUL is refused. */
  lemma ReadObjectParts(o: Object, typeName: octets, u: Uri, files: Files)
    requires Plain(typeName) && ParseClass(typeName) == Some(o.objectClass)
    requires u.id.None? && u.objectLabel.None?
    ensures ParseComponents(ObjectParts(o, typeName), u, files)
         == if NulFree(Shown(o.objectLabel))
            then Some(u.(id := Given(Shown(o.id)), objectLabel := Given(Shown(o.objectLabel)),
                         objectClass := Some(o.objectClass)))
            else None
  {
    var u1 := u.(id := Given(Shown(o.id)));
    ReadId(Shown(o.id), Part(OBJECT, Shown(o.objectLabel)) + (TYPE_EQ + typeName), u, files);
    if NulFree(Shown(o.objectLabel)) {
      ReadObject(Shown(o.objectLabel), TYPE_EQ + typeName, u1, files);
      ReadClass(o.objectClass, typeName, u1.(objectLabel := Given(Shown(o.objectLabel))), files);
    } else {
      RefuseObject(Shown(o.objectLabel), TYPE_EQ + typeName, u1, files);
    }
  }

  /** Parsing the printed URI of an object gives back the token's model, manufacturer,
      serial and label, and the object's id, label and class; it fails exactly when the
      object's label contains a NUL. */
  lemma ParsePrint(t: TokenInfo, o: Object, files: Files)
    requires TypeName(o.objectClass).Some?
    ensures Parse(Print(t, o).value, files)
         == if NulFree(Shown(o.objectLabel)) then Some(Meaning(t, o)) else None
  {
    var parts := TokenParts(t, ObjectParts(o, TypeName(o.objectClass).value));
    var s := SCHEME + parts;
    assert s[..7] == SCHEME && s[7..] == parts;
    ReadTokenParts(t, ObjectParts(o, TypeName(o.objectClass).value), files);
    ReadTypeName(o.objectClass);
    ReadObjectParts(o, TypeName(o.objectClass).value, TokenMeaning(t), files);
  }

  // ----- the token a printed URI matches

  lemma {:induction false} SameTextMeaning(a: octets, field: octets)
    requires NulFree(a)
    ensures SameText(a, field) <==> a[..if |a| < |field| then |a| else |field|] == Text(field)
  {
    if field != [] {
      if a == [] {
      } else if a[0] != field[0] {
        if field[0] != NUL { assert Text(field)[0] == field[0]; }
        assert a[..if |a| < |field| then |a| else |field|][0] == a[0];
      } else {
        var n := if |a| < |field| then |a| else |field|;
        SameTextMeaning(a[1..], field[1..]);
        assert Text(field) == [field[0]] + Text(field[1..]);
        assert a[..n] == [a[0]] + a[1..][..n - 1];
      }
    }
  }

  lemma SameTextOfField(f: octets, g: octets)
    requires |f| == |g|
    ensures SameText(Text(f), g) <==> Text(f) == Text(g)
  {
    TextOfNulFree(f);
    SameTextMeaning(Text(f), g);
  }

  /** A printed URI matches exactly the tokens that agree on every field it shows; in
      particular the one it was printed for, in whatever slot. */
  lemma PrintedMatchesExactly(t: TokenInfo, o: Object, other: TokenInfo, slotId: nat, slot: SlotInfo)
    requires t.Valid() && other.Valid() && slot.Valid()
    ensures MatchToken(Meaning(t, o), slotId, slot, other) <==>
      && (Text(t.model) != [] ==> Text(t.model) == Text(other.model))
      && (Text(t.manufacturer) != [] ==> Text(t.manufacturer) == Text(other.manufacturer))
      && (Text(t.tokenLabel) != [] ==> Text(t.tokenLabel) == Text(other.tokenLabel))
      && (Text(t.serial) != [] ==> Text(t.serial) == Text(other.serial))
    ensures MatchToken(Meaning(t, o), slotId, slot, t)
  {
    SameTextOfField(t.model, other.model);
    SameTextOfField(t.manufacturer, other.manufacturer);
    SameTextOfField(t.tokenLabel, other.tokenLabel);
    SameTextOfField(t.serial, other.serial);
    SameTextOfField(t.model, t.model);
    SameTextOfField(t.manufacturer, t.manufacturer);
    SameTextOfField(t.tokenLabel, t.tokenLabel);
    SameTextOfField(t.serial, t.serial);
  }
}

/** The loops of the printer and of the parser. */
module UriCode {
  import opened Common
  import opened Percent
  import opened Uri
  import opened UriRoundTrip

  /** byte_to_hex; an escape also writes the NUL that snprintf ends it with. */
  method ByteToHex(c: octet, out: array<octet>, at: nat, bin: bool) returns (written: nat)
    requires at + 4 <= out.Length
    modifies out
    ensures written == |EscapeOne(c, bin)| <= 3
    ensures out[at..at + written] == EscapeOne(c, bin)
    ensures out[..at] == old(out[..at])
  {
    if bin || MustEscape(c) {
      out[at], out[at + 1], out[at + 2] := '%', HexDigit(c as int / 16), HexDigit(c as int % 16);
      out[at + 3] := NUL;
      return 3;
    }
    out[at] := c;
    return 1;
  }

  /** The escaping loop of uri_component. */
  method EscapeInto(val: octets, bin: bool, c: array<octet>, start: nat) returns (ci: nat)
    requires start + 3 * |val| + 2 <= c.Length
    modifies c
    ensures start <= ci <= start + 3 * |val|
    ensures c[..ci] == old(c[..start]) + Escape(val, bin)
  {
    ghost var before := c[..start];
    assert Escape(val[..0], bin) == [];
    ci := start;
    var vi := 0;
    while vi < |val|
      invariant 0 <= vi <= |val| && start <= ci <= start + 3 * vi
      invariant c[..ci] == before + Escape(val[..vi], bin)
    {
      ghost var done := c[..ci];
      var inc := ByteToHex(val[vi], c, ci, bin);
      EscapeNext(val, vi, bin, before);
      assert c[..ci + inc] == done + EscapeOne(val[vi], bin) by {
        assert c[..ci + inc] == c[..ci] + c[ci..ci + inc];
      }
      ci, vi := ci + inc, vi + 1;
    }
    assert val[..|val|] == val;
  }

  lemma EscapeNext(val: octets, i: nat, bin: bool, before: octets)
    requires i < |val|
    ensures before + Escape(val[..i + 1], bin) == (before + Escape(val[..i], bin)) + EscapeOne(val[i], bin)
  {
    assert val[..i + 1][..i] == val[..i];
    Regroup(before, Escape(val[..i], bin), EscapeOne(val[i], bin));
  }

  /** uri_component: a value of length 0 is taken as a C string. The buffer is never
      overrun, and clen does not count the final separator. */
  method UriComponent(name: octets, val: octets, vlen: nat) returns (c: array<octet>, clen: nat)
    requires vlen <= |val|
    ensures var value := if vlen == 0 then Text(val) else val[..vlen];
      clen + 1 < c.Length && c[..clen + 1] == Component(name, value) && c[clen + 1] == NUL
  {
    var valLen := if vlen == 0 then Strnlen(val) else vlen;
    var start := |name| + 1;
    c := new octet[start + valLen * 3 + 2](_ => NUL);
    forall i | 0 <= i < |name| { c[i] := name[i]; }
    c[|name|] := '=';
    assert c[..start] == name + "=";
    clen := EscapeInto(val[..valLen], |name| == 2, c, start);
    ghost var body := c[..clen];
    c[clen] := ';';
    c[clen + 1] := NUL;
    assert c[..clen + 1] == body + ";";
  }

  /** strncmp(p, name, strlen(name)) == 0 && p[strlen(name)] == '='. */
  predicate Starts(p: octets, name: octets) {
    |p| > |name| && p[..|name|] == name && p[|name|] == '='
  }

  lemma StartsMeaning(p: octets, name: octets)
    requires LowerCase(name)
    ensures var comp := p[..ComponentEnd(p)];
      Starts(p, name) <==> Find(comp, '=') < |comp| && comp[..Find(comp, '=')] == name
  {
    var n := ComponentEnd(p);
    var comp := p[..n];
    if Starts(p, name) {
      assert forall i :: 0 <= i < |name| ==> p[i] == name[i];
      assert n > |name|;
      assert comp[|name|] == '=';
      assert forall i :: 0 <= i < |name| ==> comp[i] == name[i];
      assert Find(comp, '=') == |name|;
      assert comp[..|name|] == name;
    }
  }

  predicate PlainNames(table: seq<(octets, Attribute)>) {
    forall i :: 0 <= i < |table| ==> LowerCase(table[i].0)
  }

  predicate LowerCase(s: octets) {
    forall i :: 0 <= i < |s| ==> 'a' <= s[i] <= 'z' || s[i] == '-'
  }

  lemma AttributesArePlain()
    ensures PlainNames(ATTRIBUTES)
  {
    NamesArePlain();
    MoreNamesArePlain();
  }

  lemma NamesArePlain()
    ensures LowerCase("library-description") && LowerCase("library-manufacturer") && LowerCase("library-version")
    ensures LowerCase(TOKEN) && LowerCase(MANUFACTURER) && LowerCase(MODEL) && LowerCase(SERIAL)
  {
  }

  lemma MoreNamesArePlain()
    ensures LowerCase("slot-description") && LowerCase("slot-id") && LowerCase("slot-manufacturer")
    ensures LowerCase(ID) && LowerCase(OBJECT) && LowerCase(TYPE)
    ensures LowerCase("pin-value") && LowerCase("pin-source") && LowerCase("object-type")
  {
  }

  lemma {:induction false} LookupMisses(name: octets, table: seq<(octets, Attribute)>)
    requires forall i :: 0 <= i < |table| ==> table[i].0 != name
    ensures Lookup(name, table) == None
  {
    if table != [] { LookupMisses(name, table[1..]); }
  }

  /** The table scan of the parser finds what Apply looks up. */
  lemma ScanFinds(p: octets, table: seq<(octets, Attribute)>, i: nat)
    requires PlainNames(table) && i <= |table|
    requires forall j :: 0 <= j < i ==> !Starts(p, table[j].0)
    requires i < |table| ==> Starts(p, table[i].0)
    ensures var comp := p[..ComponentEnd(p)];
      if i == |table| then Find(comp, '=') < |comp| ==> Lookup(comp[..Find(comp, '=')], table) == None
      else Find(comp, '=') < |comp| && |table[i].0| == Find(comp, '=')
           && Lookup(comp[..Find(comp, '=')], table) == Some(table[i].1)
  {
    var comp := p[..ComponentEnd(p)];
    var eq := Find(comp, '=');
    forall j | 0 <= j < |table| && j <= i
      ensures Starts(p, table[j].0) <==> eq < |comp| && comp[..eq] == table[j].0
    {
      StartsMeaning(p, table[j].0);
    }
    if i == |table| {
      if eq < |comp| { LookupMisses(comp[..eq], table); }
    } else {
      LookupAt(comp[..eq], table, i);
    }
  }

  /** What the scan of the attribute names comes to for one component. */
  lemma ScanApplies(p: octets, i: nat, v: Uri, files: Files)
    requires i <= |ATTRIBUTES|
    requires forall j :: 0 <= j < i ==> !Starts(p, ATTRIBUTES[j].0)
    requires i < |ATTRIBUTES| ==> Starts(p, ATTRIBUTES[i].0)
    ensures var n := ComponentEnd(p);
      if i == |ATTRIBUTES| then Apply(p[..n], v, files) == Some(v)
      else |ATTRIBUTES[i].0| < n
           && Apply(p[..n], v, files) == Handle(ATTRIBUTES[i].1, p[|ATTRIBUTES[i].0| + 1..n], v, files)
  {
    AttributesArePlain();
    ScanFinds(p, ATTRIBUTES, i);
    var n := ComponentEnd(p);
    if i < |ATTRIBUTES| {
      assert p[..n][|ATTRIBUTES[i].0| + 1..] == p[|ATTRIBUTES[i].0| + 1..n];
    }
  }

  /** The body of the parser's loop: finds the attribute and calls its handler. */
  method ParseComponent(p: octets, v: Uri, files: Files) returns (w: Option<Uri>)
    ensures w == Apply(p[..ComponentEnd(p)], v, files)
  {
    var i := 0;
    while i < |ATTRIBUTES| && !Starts(p, ATTRIBUTES[i].0)
      invariant i <= |ATTRIBUTES|
      invariant forall j :: 0 <= j < i ==> !Starts(p, ATTRIBUTES[j].0)
    {
      i := i + 1;
    }
    ScanApplies(p, i, v, files);
    if i < |ATTRIBUTES| {
      w := Handle(ATTRIBUTES[i].1, p[|ATTRIBUTES[i].0| + 1..ComponentEnd(p)], v, files);
    } else {
      w := Some(v);
    }
  }

  /** p11prov_parse_uri. */
  method ParseUri(uri: octets, files: Files) returns (u: Option<Uri>)
    ensures u == Parse(uri, files)
  {
    if |uri| < 7 || uri[..7] != SCHEME { return None; }
    var p := uri[7..];
    var v := EMPTY;
    var more := true;
    while more
      invariant Parse(uri, files) == if more then ParseComponents(p, v, files) else Some(v)
      decreases more, |p|
    {
      var end := ComponentEnd(p);
      var w := ParseComponent(p, v, files);
      if w.None? { return None; }
      v := w.value;
      if end < |p| {
        p := p[end + 1..];
      } else {
        more := false;
      }
    }
    u := Some(v);
  }
}
