/**
 The "pkcs11:" key URIs of encrypt/pkcs11 (section 2.3 of RFC 7512, with the percent-encoding of
 section 2.1 of RFC 3986).
 */
module KeyUri {
  import opened Wrappers
  import opened GoStrings

  const SCHEME: Bytes := "pkcs11:"
  const PIN_VALUE: Bytes := "pin-value"
  const PIN_SOURCE: Bytes := "pin-source"

  /** objectClass is one of the five object classes 0 to 4, or any other number the caller made up. */
  datatype KeyUri = KeyUri(token: Bytes, objectLabel: Bytes, id: Bytes, objectClass: nat, hasClass: bool)

  const EMPTY := KeyUri([], [], [], 0, false)

  // ---- Percent-encoding ---------------------------------------------------------------------

  predicate Unreserved(b: Byte) {
    ('A' <= b <= 'Z') || ('a' <= b <= 'z') || ('0' <= b <= '9')
    || ('\'' <= b <= '.') // ' ( ) * + , - .
    || b == '_' || b == '~' || b == ':' || b == '[' || b == ']' || b == '@' || b == '!' || b == '$'
  }

  /** Upper-case hexadecimal. */
  function HexDigit(n: nat): Byte
    requires n < 16
  {
    if n < 10 then ('0' as int + n) as char else ('A' as int + n - 10) as char
  }

  function HexValue(b: Byte): Option<nat> {
    if '0' <= b <= '9' then Some(b as int - '0' as int)
    else if 'a' <= b <= 'f' then Some(b as int - 'a' as int + 10)
    else if 'A' <= b <= 'F' then Some(b as int - 'A' as int + 10)
    else None
  }

  function EscapeByte(b: Byte): Bytes {
    if Unreserved(b) then [b] else ['%', HexDigit(b as int / 16), HexDigit(b as int % 16)]
  }

  function Escape(s: Bytes): Bytes {
    if s == [] then [] else EscapeByte(s[0]) + Escape(s[1..])
  }

  /** url.PathUnescape. */
  function Unescape(s: Bytes): Option<Bytes> {
    if s == [] then Some([])
    else if s[0] != '%' then
      match Unescape(s[1..])
      case None => None
      case Some(rest) => Some([s[0]] + rest)
    else if |s| < 3 || HexValue(s[1]).None? || HexValue(s[2]).None? then None
    else
      match Unescape(s[3..])
      case None => None
      case Some(rest) => Some([(16 * HexValue(s[1]).value + HexValue(s[2]).value) as char] + rest)
  }

  lemma HexDigitValue(n: nat)
    requires n < 16
    ensures HexValue(HexDigit(n)) == Some(n) && Unreserved(HexDigit(n))
  {
  }

  lemma UnescapeEscapedByte(b: Byte, tail: Bytes, rest: Bytes)
    requires !Unreserved(b) && Unescape(tail) == Some(rest)
    ensures Unescape(EscapeByte(b) + tail) == Some([b] + rest)
  {
    var high, low := b as int / 16, b as int % 16;
    HexDigitValue(high);
    HexDigitValue(low);
    var e := ['%', HexDigit(high), HexDigit(low)] + tail;
    assert e[3..] == tail && e[1] == HexDigit(high) && e[2] == HexDigit(low);
    assert (16 * high + low) as char == b;
  }

  /** Arbitrary bytes survive encoding and decoding. */
  lemma {:induction false} UnescapeEscape(s: Bytes)
    ensures Unescape(Escape(s)) == Some(s)
  {
    if s != [] {
      var b, tail := s[0], Escape(s[1..]);
      UnescapeEscape(s[1..]);
      assert s == [b] + s[1..];
      if Unreserved(b) {
        assert ([b] + tail)[1..] == tail;
      } else {
        UnescapeEscapedByte(b, tail, s[1..]);
      }
    }
  }

  /** What an escaped value is made of. */
  predicate Plain(b: Byte) {
    Unreserved(b) || b == '%'
  }

  lemma {:induction false} EscapeIsPlain(s: Bytes)
    ensures forall b <- Escape(s) :: Plain(b)
  {
    if s != [] {
      EscapeIsPlain(s[1..]);
      HexDigitValue(s[0] as int / 16);
      HexDigitValue(s[0] as int % 16);
      assert forall b <- EscapeByte(s[0]) :: Plain(b);
    }
  }

  // ---- Classes ------------------------------------------------------------------------------

  function ClassFromType(value: Bytes): Option<nat> {
    if value == "private" then Some(3)
    else if value == "public" then Some(2)
    else if value == "secret-key" then Some(4)
    else if value == "cert" then Some(1)
    else if value == "data" then Some(0)
    else None
  }

  function TypeFromClass(c: nat): Option<Bytes> {
    if c == 3 then Some("private")
    else if c == 2 then Some("public")
    else if c == 4 then Some("secret-key")
    else if c == 1 then Some("cert")
    else if c == 0 then Some("data")
    else None
  }

  lemma ClassesInvert(c: nat, value: Bytes)
    ensures TypeFromClass(c).Some? <==> c <= 4
    ensures TypeFromClass(c) == Some(value) <==> ClassFromType(value) == Some(c)
  {
  }

  // ---- Printing -----------------------------------------------------------------------------

  datatype Attribute = Attribute(name: Bytes, value: Bytes)

  function Segment(a: Attribute): Bytes {
    a.name + "=" + Escape(a.value)
  }

  function Segments(attributes: seq<Attribute>): seq<Bytes> {
    seq(|attributes|, i requires 0 <= i < |attributes| => Segment(attributes[i]))
  }

  function IfSet(name: Bytes, value: Bytes): seq<Attribute> {
    if value == [] then [] else [Attribute(name, value)]
  }

  function ClassAttribute(u: KeyUri): seq<Attribute> {
    if u.hasClass && TypeFromClass(u.objectClass).Some?
    then [Attribute("type", TypeFromClass(u.objectClass).value)]
    else []
  }

  /** The attributes String writes, in its fixed order. */
  function Attributes(u: KeyUri): seq<Attribute> {
    IfSet("token", u.token) + (IfSet("object", u.objectLabel) + (IfSet("id", u.id) + ClassAttribute(u)))
  }

  function Print(u: KeyUri): Bytes {
    SCHEME + Join(Segments(Attributes(u)), ';')
  }

  /** The printed form of a URI that sets everything: token, object, id, type, in this order. */
  lemma PrintedForm(u: KeyUri)
    requires u.token != [] && u.objectLabel != [] && u.id != [] && u.hasClass && u.objectClass < 5
    ensures Print(u) == SCHEME + (("token" + "=" + Escape(u.token)) + [';'] + (("object" + "=" + Escape(u.objectLabel)) + [';']
                        + (("id" + "=" + Escape(u.id)) + [';'] + ("type" + "=" + Escape(CLASS_NAMES[u.objectClass])))))
  {
    var a := Attributes(u);
    ClassesByNumber(u.objectClass, CLASS_NAMES[u.objectClass]);
    ClassesInvert(u.objectClass, CLASS_NAMES[u.objectClass]);
    assert a == [Attribute("token", u.token), Attribute("object", u.objectLabel), Attribute("id", u.id),
                 Attribute("type", CLASS_NAMES[u.objectClass])];
    FourJoined(Segments(a));
  }

  lemma FourJoined(parts: seq<Bytes>)
    requires |parts| == 4
    ensures Join(parts, ';') == parts[0] + [';'] + (parts[1] + [';'] + (parts[2] + [';'] + parts[3]))
  {
    assert Join(parts[1..][1..][1..], ';') == parts[3];
    assert Join(parts[1..][1..], ';') == parts[2] + [';'] + parts[3];
    assert Join(parts[1..], ';') == parts[1] + [';'] + (parts[2] + [';'] + parts[3]);
  }

  // ---- Parsing ------------------------------------------------------------------------------

  /** One attribute of the loop of parseKeyURI. */
  function Apply(u: KeyUri, a: Attribute): Option<KeyUri> {
    if a.name == "token" then Some(u.(token := a.value))
    else if a.name == "object" then Some(u.(objectLabel := a.value))
    else if a.name == "id" then Some(u.(id := a.value))
    else if a.name == "type" then
      match ClassFromType(a.value)
      case None => None
      case Some(c) => Some(u.(objectClass := c, hasClass := true))
    else Some(u)
  }

  function ParseSegment(u: KeyUri, segment: Bytes): Option<KeyUri> {
    if segment == [] then Some(u)
    else
      match Cut(segment, '=')
      case None => None
      case Some(parts) =>
        match Unescape(parts.1)
        case None => None
        case Some(value) => Apply(u, Attribute(parts.0, value))
  }

  function ParseSegments(u: KeyUri, segments: seq<Bytes>): Option<KeyUri>
    decreases |segments|
  {
    if segments == [] then Some(u)
    else
      match ParseSegment(u, segments[0])
      case None => None
      case Some(n) => ParseSegments(n, segments[1..])
  }

  function FieldName(field: Bytes): Bytes {
    match Cut(field, '=')
    case None => field
    case Some(parts) => parts.0
  }

  /** rejectPinAttributes: the query names no PIN. */
  predicate NoPin(query: Bytes) {
    query == [] || forall field <- Split(query, '&') :: FieldName(field) != PIN_VALUE && FieldName(field) != PIN_SOURCE
  }

  function Parse(reference: Bytes): Option<KeyUri> {
    var trimmed := TrimSpace(reference);
    if !(SCHEME <= TrimSpace(trimmed)) || !(SCHEME <= trimmed) then None
    else
      var body := trimmed[|SCHEME|..];
      var (path, query) := (match Cut(body, '?') case None => (body, []) case Some(parts) => parts);
      if !NoPin(query) || path == [] then None
      else
        match ParseSegments(EMPTY, Split(path, ';'))
        case None => None
        case Some(u) => if u.objectLabel == [] && u.id == [] then None else Some(u)
  }

  // ---- What is accepted -----------------------------------------------------------------------

  /** The object classes by number, as PKCS #11 counts them. */
  const CLASS_NAMES: seq<Bytes> := ["data", "cert", "public", "private", "secret-key"]

  lemma ClassesByNumber(c: nat, value: Bytes)
    ensures ClassFromType(value) == Some(c) <==> c < 5 && CLASS_NAMES[c] == value
  {
  }

  /** Either case of a hexadecimal digit is read. */
  lemma EitherCaseIsRead(n: nat)
    requires n < 16
    ensures HexValue("0123456789ABCDEF"[n]) == Some(n) && HexValue("0123456789abcdef"[n]) == Some(n)
    ensures HexDigit(n) == "0123456789ABCDEF"[n]
  {
  }

  /** A byte in the form of section 2.1 of RFC 3986, in either case, decodes to that byte. */
  lemma PercentDecodes(b: Byte, tail: Bytes, rest: Bytes)
    requires Unescape(tail) == Some(rest)
    ensures Unescape(['%', "0123456789ABCDEF"[b as int / 16], "0123456789ABCDEF"[b as int % 16]] + tail) == Some([b] + rest)
    ensures Unescape(['%', "0123456789abcdef"[b as int / 16], "0123456789abcdef"[b as int % 16]] + tail) == Some([b] + rest)
  {
    EitherCaseIsRead(b as int / 16);
    EitherCaseIsRead(b as int % 16);
    var upper := ['%', "0123456789ABCDEF"[b as int / 16], "0123456789ABCDEF"[b as int % 16]] + tail;
    var lower := ['%', "0123456789abcdef"[b as int / 16], "0123456789abcdef"[b as int % 16]] + tail;
    assert upper[3..] == tail && lower[3..] == tail;
  }

  /** A percent sign that no two hexadecimal digits follow is refused. */
  lemma {:induction false} BrokenPercentIsRefused(front: Bytes, tail: Bytes)
    requires '%' !in front
    requires |tail| < 2 || HexValue(tail[0]).None? || HexValue(tail[1]).None?
    ensures Unescape(front + (['%'] + tail)) == None
  {
    var s := front + (['%'] + tail);
    if front == [] {
      assert s == ['%'] + tail;
      assert |s| >= 3 ==> s[1] == tail[0] && s[2] == tail[1];
    } else {
      BrokenPercentIsRefused(front[1..], tail);
      assert s[0] == front[0] && s[1..] == front[1..] + (['%'] + tail);
    }
  }

  /** A reference as it is written: the scheme, the attributes, and perhaps a query. */
  function Reference(path: Bytes, query: Option<Bytes>): Bytes {
    SCHEME + path + (if query.None? then [] else ['?'] + query.value)
  }

  ghost predicate EndsVisibly(s: Bytes) {
    s != [] && Visible(s[|s| - 1])
  }

  /** What is parsed of it. */
  lemma ReferenceParts(path: Bytes, query: Option<Bytes>)
    requires '?' !in path && EndsVisibly(Reference(path, query))
    ensures var r := Reference(path, query); var body := r[|SCHEME|..];
            && TrimSpace(r) == r && SCHEME <= r
            && Cut(body, '?') == (if query.None? then None else Some((path, query.value)))
            && (query.None? ==> body == path)
  {
    var r := Reference(path, query);
    assert r[0] == SCHEME[0];
    TrimNothing(r);
    if query.None? {
      assert r == SCHEME + path;
      FindAbsent(path, '?');
    } else {
      var body := path + ['?'] + query.value;
      assert r[|SCHEME|..] == body;
      FindFirst(path, '?', query.value);
      assert body[..|path|] == path && body[|path| + 1..] == query.value;
    }
  }

  /**
   A reference is accepted exactly if its query names no PIN, and its attributes, of which there is
   at least one, can all be read and set an object or an id; what it means is what they set.
   */
  lemma ReferenceMeans(segments: seq<Bytes>, query: Option<Bytes>)
    requires segments != [] && forall segment <- segments :: ';' !in segment && '?' !in segment
    requires EndsVisibly(Reference(Join(segments, ';'), query))
    ensures var read := ParseSegments(EMPTY, segments);
            Parse(Reference(Join(segments, ';'), query)) ==
            if (query.Some? && !NoPin(query.value)) || Join(segments, ';') == [] || read.None?
               || (read.value.objectLabel == [] && read.value.id == [])
            then None else read
  {
    var path := Join(segments, ';');
    if '?' in path {
      JoinContains(segments, ';', '?');
    }
    ReferenceParts(path, query);
    SplitJoin(segments, ';');
  }

  /** A query field as it is written. */
  function Named(name: Bytes, value: Option<Bytes>): Bytes {
    if value.None? then name else name + ['='] + value.value
  }

  lemma NameOfField(name: Bytes, value: Option<Bytes>)
    requires '=' !in name
    ensures FieldName(Named(name, value)) == name
  {
    if value.None? {
      FindAbsent(name, '=');
    } else {
      FindFirst(name, '=', value.value);
      assert Named(name, value)[..|name|] == name;
    }
  }

  /** A field that names a PIN, with or without a value. */
  ghost predicate IsPinField(field: Bytes) {
    exists value: Option<Bytes> :: field == Named(PIN_VALUE, value) || field == Named(PIN_SOURCE, value)
  }

  lemma FieldIsNamed(field: Bytes) returns (value: Option<Bytes>)
    ensures field == Named(FieldName(field), value)
  {
    match Cut(field, '=')
    case None => value := None;
    case Some(parts) =>
      value := Some(parts.1);
      assert field == parts.0 + ['='] + parts.1;
  }

  lemma PinNamesAreWhole()
    ensures '=' !in PIN_VALUE && '=' !in PIN_SOURCE
  {
  }

  lemma PinFieldExactly(field: Bytes)
    ensures IsPinField(field) <==> FieldName(field) == PIN_VALUE || FieldName(field) == PIN_SOURCE
  {
    var value := FieldIsNamed(field);
    if IsPinField(field) {
      var v: Option<Bytes> :| field == Named(PIN_VALUE, v) || field == Named(PIN_SOURCE, v);
      PinNamesAreWhole();
      NameOfField(PIN_VALUE, v);
      NameOfField(PIN_SOURCE, v);
    }
  }

  /** A query is let through exactly when none of its fields names a PIN. */
  lemma NoPinExactly(fields: seq<Bytes>)
    requires fields != [] && forall field <- fields :: '&' !in field
    ensures NoPin(Join(fields, '&')) <==> forall field <- fields :: !IsPinField(field)
  {
    SplitJoin(fields, '&');
    forall field <- fields
      ensures IsPinField(field) <==> FieldName(field) == PIN_VALUE || FieldName(field) == PIN_SOURCE
    {
      PinFieldExactly(field);
    }
    if Join(fields, '&') == [] {
      EmptyQuery(fields);
    }
  }

  lemma EmptyQuery(fields: seq<Bytes>)
    requires fields == Split([], '&')
    ensures forall field <- fields :: FieldName(field) == []
  {
    assert fields == [[]];
    FindAbsent([], '=');
  }

  /** A reference whose query has a field named pin-value or pin-source is refused. */
  lemma PinIsRefused(segments: seq<Bytes>, fields: seq<Bytes>, field: Bytes)
    requires segments != [] && forall segment <- segments :: ';' !in segment && '?' !in segment
    requires field in fields && IsPinField(field) && forall other <- fields :: '&' !in other
    requires EndsVisibly(Reference(Join(segments, ';'), Some(Join(fields, '&'))))
    ensures Parse(Reference(Join(segments, ';'), Some(Join(fields, '&')))) == None
  {
    NoPinExactly(fields);
    ReferenceMeans(segments, Some(Join(fields, '&')));
  }

  /** An attribute with another name is read over, if its value can be decoded. */
  lemma UnknownIsIgnored(u: KeyUri, name: Bytes, raw: Bytes)
    requires '=' !in name && name !in ["token", "object", "id", "type"]
    ensures ParseSegment(u, name + ['='] + raw) == if Unescape(raw).Some? then Some(u) else None
  {
    var s := name + ['='] + raw;
    FindFirst(name, '=', raw);
    assert s[..|name|] == name && s[|name| + 1..] == raw;
    assert name != "token" && name != "object" && name != "id" && name != "type" by {
      assert ["token", "object", "id", "type"][0] == "token" && ["token", "object", "id", "type"][1] == "object";
      assert ["token", "object", "id", "type"][2] == "id" && ["token", "object", "id", "type"][3] == "type";
    }
  }

  /** A segment without an equals sign is malformed, unless it is empty. */
  lemma MalformedIsRefused(u: KeyUri, segment: Bytes)
    requires '=' !in segment
    ensures ParseSegment(u, segment) == if segment == [] then Some(u) else None
  {
    FindAbsent(segment, '=');
  }

  /** Of an accepted reference: the scheme comes first, and an object or an id is set. */
  lemma AcceptedHasObjectOrId(reference: Bytes)
    requires Parse(reference).Some?
    ensures SCHEME <= TrimSpace(reference)
    ensures Parse(reference).value.objectLabel != [] || Parse(reference).value.id != []
  {
  }

  /** White space around a reference does not matter. */
  lemma SpaceAroundIsIgnored(before: seq<nat>, reference: Bytes, after: seq<nat>)
    requires AllSpace(before) && AllSpace(after)
    requires reference != [] && Visible(reference[0]) && EndsVisibly(reference)
    ensures Parse(Encoded(before) + (reference + Encoded(after))) == Parse(reference)
  {
    TrimAround(before, reference, after);
    TrimNothing(reference);
  }

  // ---- Round trips --------------------------------------------------------------------------

  /** The names String writes. */
  predicate KnownName(name: Bytes) {
    name == "token" || name == "object" || name == "id" || name == "type"
  }

  lemma NameIsPlain(name: Bytes)
    requires KnownName(name)
    ensures name != [] && forall b <- name :: Unreserved(b)
  {
  }

  /** A printed segment is visible ASCII with one separator, which splits it into its two parts. */
  lemma SegmentShape(a: Attribute)
    requires KnownName(a.name)
    ensures Segment(a) != [] && forall b <- Segment(a) :: Plain(b) || b == '='
    ensures Cut(Segment(a), '=') == Some((a.name, Escape(a.value)))
  {
    NameIsPlain(a.name);
    EscapeIsPlain(a.value);
    FindFirst(a.name, '=', Escape(a.value));
    var s := a.name + "=" + Escape(a.value);
    assert s[..|a.name|] == a.name && s[|a.name| + 1..] == Escape(a.value);
  }

  /** Parsing a printed segment applies its attribute. */
  lemma SegmentApplies(u: KeyUri, a: Attribute)
    requires KnownName(a.name)
    ensures ParseSegment(u, Segment(a)) == Apply(u, a)
  {
    SegmentShape(a);
    UnescapeEscape(a.value);
  }

  lemma TokenIsSet(u: KeyUri, value: Bytes)
    ensures ParseSegment(u, "token" + "=" + Escape(value)) == Some(u.(token := value))
  {
    SegmentSets(u, "token", value);
  }

  lemma ObjectIsSet(u: KeyUri, value: Bytes)
    ensures ParseSegment(u, "object" + "=" + Escape(value)) == Some(u.(objectLabel := value))
  {
    SegmentSets(u, "object", value);
  }

  lemma IdIsSet(u: KeyUri, value: Bytes)
    ensures ParseSegment(u, "id" + "=" + Escape(value)) == Some(u.(id := value))
  {
    SegmentSets(u, "id", value);
  }

  /** A type that is no class is refused. */
  lemma ClassIsSet(u: KeyUri, value: Bytes)
    ensures ParseSegment(u, "type" + "=" + Escape(value))
         == if ClassFromType(value).Some? then Some(u.(objectClass := ClassFromType(value).value, hasClass := true)) else None
  {
    SegmentSets(u, "type", value);
  }

  lemma SegmentSets(u: KeyUri, name: Bytes, value: Bytes)
    requires KnownName(name)
    ensures ParseSegment(u, name + "=" + Escape(value)) == Apply(u, Attribute(name, value))
  {
    SegmentApplies(u, Attribute(name, value));
  }

  function ApplyAll(u: KeyUri, attributes: seq<Attribute>): Option<KeyUri>
    decreases |attributes|
  {
    if attributes == [] then Some(u)
    else
      match Apply(u, attributes[0])
      case None => None
      case Some(n) => ApplyAll(n, attributes[1..])
  }

  lemma {:induction false} SegmentsApply(u: KeyUri, attributes: seq<Attribute>)
    requires forall a <- attributes :: KnownName(a.name)
    ensures ParseSegments(u, Segments(attributes)) == ApplyAll(u, attributes)
    decreases |attributes|
  {
    if attributes != [] {
      assert attributes[0] in attributes;
      SegmentApplies(u, attributes[0]);
      assert Segments(attributes)[1..] == Segments(attributes[1..]);
      match Apply(u, attributes[0])
      case None =>
      case Some(n) => SegmentsApply(n, attributes[1..]);
    }
  }

  lemma {:induction false} ApplyAppend(u: KeyUri, a: seq<Attribute>, b: seq<Attribute>)
    requires |a| <= 1
    ensures ApplyAll(u, a + b) == match ApplyAll(u, a) case None => None case Some(n) => ApplyAll(n, b)
  {
    if a == [] {
      assert a + b == b;
    } else {
      assert (a + b)[1..] == b && a[1..] == [];
    }
  }

  /** What printing keeps of a URI: a class that has no type name is dropped. */
  function Normal(u: KeyUri): KeyUri {
    if u.hasClass && u.objectClass <= 4 then u else u.(objectClass := 0, hasClass := false)
  }

  lemma AttributesRebuild(u: KeyUri)
    ensures ApplyAll(EMPTY, Attributes(u)) == Some(Normal(u))
  {
    var a, b, c, d := IfSet("token", u.token), IfSet("object", u.objectLabel), IfSet("id", u.id), ClassAttribute(u);
    var u1 := EMPTY.(token := u.token);
    var u2 := u1.(objectLabel := u.objectLabel);
    var u3 := u2.(id := u.id);
    ApplyAppend(EMPTY, a, b + (c + d));
    assert ApplyAll(EMPTY, a) == Some(u1);
    ApplyAppend(u1, b, c + d);
    assert ApplyAll(u1, b) == Some(u2);
    ApplyAppend(u2, c, d);
    assert ApplyAll(u2, c) == Some(u3);
    ClassRebuilds(u, u3);
  }

  lemma ClassRebuilds(u: KeyUri, u3: KeyUri)
    requires u3 == u.(objectClass := 0, hasClass := false)
    ensures ApplyAll(u3, ClassAttribute(u)) == Some(Normal(u))
  {
    if u.hasClass && u.objectClass <= 4 {
      ClassesInvert(u.objectClass, TypeFromClass(u.objectClass).value);
    }
  }

  lemma AttributesKnown(u: KeyUri)
    ensures forall a <- Attributes(u) :: KnownName(a.name)
    ensures Attributes(u) == [] <==> u.token == [] && u.objectLabel == [] && u.id == [] && ClassAttribute(u) == []
  {
  }

  lemma SegmentsShape(attributes: seq<Attribute>)
    requires forall a <- attributes :: KnownName(a.name)
    ensures forall segment <- Segments(attributes) :: segment != [] && forall b <- segment :: Plain(b) || b == '='
  {
    forall segment <- Segments(attributes)
      ensures segment != [] && forall b <- segment :: Plain(b) || b == '='
    {
      var i :| 0 <= i < |attributes| && segment == Segment(attributes[i]);
      assert attributes[i] in attributes;
      SegmentShape(attributes[i]);
    }
  }

  /** The printed body: its bytes, and how it splits. */
  lemma BodyShape(segments: seq<Bytes>)
    requires segments != []
    requires forall segment <- segments :: segment != [] && forall b <- segment :: Plain(b) || b == '='
    ensures var body := Join(segments, ';');
            && body != []
            && (forall b <- body :: Plain(b) || b == '=' || b == ';')
            && Split(body, ';') == segments
  {
    assert segments[0] in segments;
    SplitJoin(segments, ';');
    forall b <- Join(segments, ';')
      ensures Plain(b) || b == '=' || b == ';'
    {
      JoinContains(segments, ';', b);
    }
  }

  /** Parsing what String prints gives the URI back, up to a class without a name. */
  lemma ParsePrint(u: KeyUri)
    ensures Parse(Print(u)) == if u.objectLabel == [] && u.id == [] then None else Some(Normal(u))
  {
    var attributes := Attributes(u);
    AttributesKnown(u);
    if attributes == [] {
      assert Print(u) == SCHEME;
      TrimNothing(SCHEME);
    } else {
      SegmentsShape(attributes);
      PrintedMeans(u, Segments(attributes));
      SegmentsApply(EMPTY, attributes);
      AttributesRebuild(u);
    }
  }

  lemma PrintedMeans(u: KeyUri, segments: seq<Bytes>)
    requires segments != [] && Print(u) == SCHEME + Join(segments, ';')
    requires forall segment <- segments :: segment != [] && forall b <- segment :: Plain(b) || b == '='
    ensures var read := ParseSegments(EMPTY, segments);
            Parse(Print(u)) == if read.None? || (read.value.objectLabel == [] && read.value.id == []) then None else read
  {
    var path := Join(segments, ';');
    BodyShape(segments);
    PrintedEnds(path);
    assert Print(u) == Reference(path, None);
    forall segment <- segments
      ensures ';' !in segment && '?' !in segment
    {
      NoSeparators(segment);
    }
    ReferenceMeans(segments, None);
  }

  lemma NoSeparators(segment: Bytes)
    requires forall b <- segment :: Plain(b) || b == '='
    ensures ';' !in segment && '?' !in segment
  {
  }

  lemma PrintedEnds(path: Bytes)
    requires path != [] && forall b <- path :: Plain(b) || b == '=' || b == ';'
    ensures EndsVisibly(Reference(path, None)) && '?' !in path
  {
    VisibleBytes(path);
    var last := path[|path| - 1];
    assert last in path;
    assert Reference(path, None)[|SCHEME| + |path| - 1] == last;
  }

  lemma VisibleBytes(body: Bytes)
    requires forall b <- body :: Plain(b) || b == '=' || b == ';'
    ensures '?' !in body && forall b <- body :: Visible(b)
  {
  }

  /** The URIs the round trip returns unchanged. */
  predicate Complete(u: KeyUri) {
    (u.objectLabel != [] || u.id != []) && (if u.hasClass then u.objectClass <= 4 else u.objectClass == 0)
  }

  /** The round trip is exact for complete URIs and for no others. */
  lemma RoundTrip(u: KeyUri)
    ensures Parse(Print(u)) == Some(u) <==> Complete(u)
  {
    ParsePrint(u);
  }

  lemma {:induction false} ParsedClassIsValid(u: KeyUri, segments: seq<Bytes>)
    requires if u.hasClass then u.objectClass <= 4 else u.objectClass == 0
    requires ParseSegments(u, segments).Some?
    ensures var n := ParseSegments(u, segments).value;
            if n.hasClass then n.objectClass <= 4 else n.objectClass == 0
    decreases |segments|
  {
    if segments != [] {
      ParsedClassIsValid(ParseSegment(u, segments[0]).value, segments[1..]);
    }
  }

  /** Whatever was accepted, printing and parsing it again changes nothing. */
  lemma PrintIsStable(reference: Bytes)
    requires Parse(reference).Some?
    ensures Parse(Print(Parse(reference).value)) == Parse(reference)
  {
    var trimmed := TrimSpace(reference);
    var body := trimmed[|SCHEME|..];
    var path := match Cut(body, '?') case None => body case Some(parts) => parts.0;
    ParsedClassIsValid(EMPTY, Split(path, ';'));
    RoundTrip(Parse(reference).value);
  }

  // ---- The loops ----------------------------------------------------------------------------

  lemma EscapeNext(escaped: Bytes, value: Bytes, index: nat)
    requires index < |value|
    ensures escaped + Escape(value[index..]) == (escaped + EscapeByte(value[index])) + Escape(value[index + 1..])
  {
    assert value[index..][1..] == value[index + 1..];
  }

  method EscapeAttribute(value: Bytes) returns (escaped: Bytes)
    ensures escaped == Escape(value) && Unescape(escaped) == Some(value)
  {
    escaped := [];
    var index := 0;
    while index < |value|
      invariant 0 <= index <= |value|
      invariant escaped + Escape(value[index..]) == Escape(value)
    {
      var b := value[index];
      EscapeNext(escaped, value, index);
      if Unreserved(b) {
        escaped := escaped + [b];
      } else {
        escaped := escaped + ['%', HexDigit(b as int / 16), HexDigit(b as int % 16)];
      }
      index := index + 1;
    }
    UnescapeEscape(value);
  }

  lemma {:induction false} JoinAppend(parts: seq<Bytes>, part: Bytes, separator: Byte)
    requires parts != []
    ensures Join(parts + [part], separator) == Join(parts, separator) + [separator] + part
  {
    if |parts| > 1 {
      JoinAppend(parts[1..], part, separator);
      assert (parts + [part])[1..] == parts[1..] + [part];
    } else {
      assert (parts + [part])[1..] == [part];
    }
  }

  /** The body of String: every attribute but the first comes after a separator. */
  method JoinAttributes(attributes: seq<Attribute>) returns (body: Bytes)
    ensures body == Join(Segments(attributes), ';')
  {
    body := [];
    var first := true;
    var i := 0;
    while i < |attributes|
      invariant 0 <= i <= |attributes| && first == (i == 0)
      invariant body == Join(Segments(attributes[..i]), ';')
    {
      assert Segments(attributes[..i + 1]) == Segments(attributes[..i]) + [Segment(attributes[i])];
      if !first {
        JoinAppend(Segments(attributes[..i]), Segment(attributes[i]), ';');
        body := body + [';'];
      }
      first := false;
      var escaped := EscapeAttribute(attributes[i].value);
      body := body + (attributes[i].name + "=" + escaped);
      i := i + 1;
    }
    assert attributes[..i] == attributes;
  }

  method Format(u: KeyUri) returns (printed: Bytes)
    ensures printed == Print(u)
    ensures Parse(printed) == Some(u) <==> Complete(u)
  {
    var body := JoinAttributes(Attributes(u));
    printed := SCHEME + body;
    RoundTrip(u);
  }

  method ParseKeyUri(reference: Bytes) returns (parsed: Option<KeyUri>)
    ensures parsed == Parse(reference)
    ensures parsed.Some? ==> Parse(Print(parsed.value)) == parsed
  {
    var trimmed := TrimSpace(reference);
    if !(SCHEME <= TrimSpace(trimmed)) || !(SCHEME <= trimmed) {
      return None;
    }
    var body := trimmed[|SCHEME|..];
    var query: Bytes := [];
    var cut := Cut(body, '?');
    if cut.Some? {
      body, query := cut.value.0, cut.value.1;
    }
    if !NoPin(query) || body == [] {
      return None;
    }
    var u := EMPTY;
    var segments := Split(body, ';');
    var i := 0;
    while i < |segments|
      invariant 0 <= i <= |segments|
      invariant ParseSegments(u, segments[i..]) == ParseSegments(EMPTY, segments)
    {
      assert segments[i..][1..] == segments[i + 1..];
      var next := ParseSegment(u, segments[i]);
      if next.None? {
        return None;
      }
      u := next.value;
      i := i + 1;
    }
    assert segments[i..] == [];
    if u.objectLabel == [] && u.id == [] {
      return None;
    }
    parsed := Some(u);
    PrintIsStable(reference);
  }
}
