/** The functions of Go's package strings that the parsers use. */
module GoStrings {
  import opened Wrappers

  /** A Go string is a sequence of bytes, here characters below 256. */
  type Byte = c: char | c as int < 256
  type Bytes = seq<Byte>

  /** The position of the first occurrence of b, or |s|. */
  function Find(s: Bytes, b: Byte): (i: nat)
    ensures i <= |s| && b !in s[..i] && (i < |s| ==> s[i] == b)
  {
    if s == [] || s[0] == b then 0 else Find(s[1..], b) + 1
  }

  /** strings.Cut; None when the separator is missing. */
  function Cut(s: Bytes, separator: Byte): Option<(Bytes, Bytes)> {
    var i := Find(s, separator);
    if i == |s| then None else Some((s[..i], s[i + 1..]))
  }

  /** strings.Split for a one-byte separator. */
  function Split(s: Bytes, separator: Byte): seq<Bytes>
    decreases |s|
  {
    var i := Find(s, separator);
    if i == |s| then [s] else [s[..i]] + Split(s[i + 1..], separator)
  }

  function Join(parts: seq<Bytes>, separator: Byte): Bytes {
    if parts == [] then []
    else if |parts| == 1 then parts[0]
    else parts[0] + [separator] + Join(parts[1..], separator)
  }

  lemma {:induction false} FindFirst(front: Bytes, b: Byte, back: Bytes)
    requires b !in front
    ensures Find(front + [b] + back, b) == |front|
  {
    if front != [] {
      FindFirst(front[1..], b, back);
      assert (front + [b] + back)[1..] == front[1..] + [b] + back;
    }
  }

  lemma {:induction false} FindAbsent(s: Bytes, b: Byte)
    requires b !in s
    ensures Find(s, b) == |s|
  {
    if s != [] {
      FindAbsent(s[1..], b);
    }
  }

  /** Splitting undoes joining. */
  lemma {:induction false} SplitJoin(parts: seq<Bytes>, separator: Byte)
    requires parts != [] && forall part <- parts :: separator !in part
    ensures Split(Join(parts, separator), separator) == parts
  {
    if |parts| == 1 {
      assert parts[0] in parts;
      FindAbsent(parts[0], separator);
    } else {
      var head, tail := parts[0], parts[1..];
      assert head in parts;
      var rest := Join(tail, separator);
      FindFirst(head, separator, rest);
      var s := head + [separator] + rest;
      assert s[..|head|] == head && s[|head| + 1..] == rest;
      SplitJoin(tail, separator);
    }
  }

  lemma {:induction false} JoinContains(parts: seq<Bytes>, separator: Byte, b: Byte)
    requires b in Join(parts, separator)
    ensures b == separator || exists part <- parts :: b in part
  {
    if |parts| > 1 {
      if b in parts[0] {
        assert parts[0] in parts;
      } else if b != separator {
        JoinContains(parts[1..], separator, b);
        var part :| part in parts[1..] && b in part;
        assert part in parts;
      }
    } else if |parts| == 1 {
      assert parts[0] in parts;
    }
  }

  /** Tab, line feed, vertical tab, form feed, carriage return and blank. */
  predicate AsciiSpace(b: Byte) {
    b == ' ' || '\t' <= b <= '\r'
  }

  predicate Visible(b: Byte) {
    '!' <= b <= '~'
  }

  /** The length of the white-space character s begins with, or 0. */
  function LeadingSpace(s: Bytes): nat {
    if |s| >= 1 && AsciiSpace(s[0]) then 1
    else if |s| >= 2 && s[0] == '\U{C2}' && (s[1] == '\U{85}' || s[1] == '\U{A0}') then 2
    else if |s| >= 3 && WideSpace(s[0], s[1], s[2]) then 3
    else 0
  }

  function TrailingSpace(s: Bytes): nat {
    var n := |s|;
    if n >= 1 && AsciiSpace(s[n - 1]) then 1
    else if n >= 2 && s[n - 2] == '\U{C2}' && (s[n - 1] == '\U{85}' || s[n - 1] == '\U{A0}') then 2
    else if n >= 3 && WideSpace(s[n - 3], s[n - 2], s[n - 1]) then 3
    else 0
  }

  /** The three-byte encodings of U+1680, U+2000-200A, U+2028, U+2029, U+202F, U+205F and U+3000. */
  predicate WideSpace(a: Byte, b: Byte, c: Byte) {
    || (a == '\U{E1}' && b == '\U{9A}' && c == '\U{80}')
    || (a == '\U{E2}' && b == '\U{80}' && ('\U{80}' <= c <= '\U{8A}' || c == '\U{A8}' || c == '\U{A9}' || c == '\U{AF}'))
    || (a == '\U{E2}' && b == '\U{81}' && c == '\U{9F}')
    || (a == '\U{E3}' && b == '\U{80}' && c == '\U{80}')
  }

  /** strings.TrimSpace. */
  function TrimSpace(s: Bytes): Bytes
    decreases |s|
  {
    var lead, trail := LeadingSpace(s), TrailingSpace(s);
    if lead > 0 then TrimSpace(s[lead..])
    else if trail > 0 then TrimSpace(s[..|s| - trail])
    else s
  }

  lemma NoSpaceAround(s: Bytes)
    requires s != [] && Visible(s[0]) && Visible(s[|s| - 1])
    ensures LeadingSpace(s) == 0 && TrailingSpace(s) == 0
  {
    assert !AsciiSpace(s[0]) && s[0] < '\U{80}';
    assert !AsciiSpace(s[|s| - 1]) && s[|s| - 1] < '\U{80}';
  }

  lemma {:induction false} TrimNothing(s: Bytes)
    requires s != [] && Visible(s[0]) && Visible(s[|s| - 1])
    ensures TrimSpace(s) == s
  {
    NoSpaceAround(s);
  }

  // ---- White space by code point ------------------------------------------------------------

  /** unicode.IsSpace. */
  predicate IsSpace(code: nat) {
    || 9 <= code <= 13 || code == 0x20 || code == 0x85 || code == 0xA0 || code == 0x1680
    || 0x2000 <= code <= 0x200A || code == 0x2028 || code == 0x2029 || code == 0x202F || code == 0x205F || code == 0x3000
  }

  /** The encoding of a code point of at most 16 bits. */
  function Utf8(code: nat): Bytes
    requires code < 0x10000
  {
    if code < 0x80 then [code as char]
    else if code < 0x800 then [(0xC0 + code / 64) as char, (0x80 + code % 64) as char]
    else [(0xE0 + code / 4096) as char, (0x80 + code / 64 % 64) as char, (0x80 + code % 64) as char]
  }

  lemma LeadingSpaceEncodes(s: Bytes)
    requires LeadingSpace(s) > 0
    ensures exists code: nat | IsSpace(code) :: Utf8(code) <= s
  {
    var code: nat :=
      if AsciiSpace(s[0]) then s[0] as int
      else if s[0] == '\U{C2}' then s[1] as int
      else (s[0] as int - 0xE0) * 4096 + (s[1] as int - 0x80) * 64 + (s[2] as int - 0x80);
    assert IsSpace(code) && Utf8(code) == s[..LeadingSpace(s)];
  }

  ghost predicate AllSpace(codes: seq<nat>) {
    forall i | 0 <= i < |codes| :: IsSpace(codes[i])
  }

  /** The bytes of a white-space character, by the number of bytes. */
  lemma SpaceBytes(code: nat)
    requires IsSpace(code)
    ensures var u := Utf8(code);
            && (code < 0x80 ==> |u| == 1 && AsciiSpace(u[0]))
            && (0x80 <= code < 0x800 ==> |u| == 2 && u[0] == '\U{C2}' && (u[1] == '\U{85}' || u[1] == '\U{A0}'))
            && (0x800 <= code ==> |u| == 3 && WideSpace(u[0], u[1], u[2]))
  {
  }

  /** At the front it is trimmed as a whole. */
  lemma FrontIsTrimmed(code: nat, rest: Bytes)
    requires IsSpace(code)
    ensures TrimSpace(Utf8(code) + rest) == TrimSpace(rest)
  {
    var u := Utf8(code);
    var s := u + rest;
    SpaceBytes(code);
    assert s[..|u|] == u && s[|u|..] == rest;
    assert s[0] == u[0] && (|u| > 1 ==> s[1] == u[1]) && (|u| > 2 ==> s[2] == u[2]);
  }

  /** At the end as well. */
  lemma BackIsTrimmed(rest: Bytes, code: nat)
    requires IsSpace(code) && rest != [] && Visible(rest[0])
    ensures TrimSpace(rest + Utf8(code)) == TrimSpace(rest)
  {
    var u := Utf8(code);
    var s, n := rest + u, |rest| + |u|;
    SpaceBytes(code);
    assert s[0] == rest[0] && s[n - 1] == u[|u| - 1];
    assert |u| > 1 ==> s[n - 2] == u[|u| - 2];
    assert |u| > 2 ==> s[n - 3] == u[0];
    assert TrailingSpace(s) == |u|;
    assert s[..n - |u|] == rest;
  }

  ghost function Encoded(codes: seq<nat>): Bytes
    requires AllSpace(codes)
  {
    if codes == [] then [] else Utf8(codes[0]) + Encoded(codes[1..])
  }

  lemma {:induction false} EncodedLast(codes: seq<nat>)
    requires codes != [] && AllSpace(codes)
    ensures Encoded(codes) == Encoded(codes[..|codes| - 1]) + Utf8(codes[|codes| - 1])
  {
    var n := |codes| - 1;
    if n > 0 {
      EncodedLast(codes[1..]);
      assert codes[1..][..n - 1] == codes[..n][1..];
      assert codes[1..][n - 1] == codes[n] && codes[..n][0] == codes[0];
    } else {
      assert codes[1..] == [] && codes[..0] == [];
    }
  }

  lemma {:induction false} FrontsAreTrimmed(before: seq<nat>, rest: Bytes)
    requires AllSpace(before)
    ensures TrimSpace(Encoded(before) + rest) == TrimSpace(rest)
  {
    if before == [] {
      assert Encoded(before) + rest == rest;
    } else {
      assert Encoded(before) + rest == Utf8(before[0]) + (Encoded(before[1..]) + rest);
      FrontIsTrimmed(before[0], Encoded(before[1..]) + rest);
      FrontsAreTrimmed(before[1..], rest);
    }
  }

  lemma {:induction false} BacksAreTrimmed(rest: Bytes, after: seq<nat>)
    requires AllSpace(after) && rest != [] && Visible(rest[0])
    ensures TrimSpace(rest + Encoded(after)) == TrimSpace(rest)
    decreases |after|
  {
    if after == [] {
      assert rest + Encoded(after) == rest;
    } else {
      var n := |after| - 1;
      EncodedLast(after);
      assert rest + Encoded(after) == (rest + Encoded(after[..n])) + Utf8(after[n]);
      BackIsTrimmed(rest + Encoded(after[..n]), after[n]);
      BacksAreTrimmed(rest, after[..n]);
    }
  }

  /** TrimSpace removes all white space around a text that begins and ends with visible characters, and nothing else. */
  lemma TrimAround(before: seq<nat>, s: Bytes, after: seq<nat>)
    requires AllSpace(before) && AllSpace(after)
    requires s != [] && Visible(s[0]) && Visible(s[|s| - 1])
    ensures TrimSpace(Encoded(before) + (s + Encoded(after))) == s
  {
    FrontsAreTrimmed(before, s + Encoded(after));
    BacksAreTrimmed(s, after);
    TrimNothing(s);
  }

  /** Nothing is left of white space alone. */
  lemma TrimOnlySpace(codes: seq<nat>)
    requires AllSpace(codes)
    ensures TrimSpace(Encoded(codes)) == []
  {
    FrontsAreTrimmed(codes, []);
    assert Encoded(codes) + [] == Encoded(codes);
  }

  /** What is left neither begins nor ends with white space. */
  lemma {:induction false} NothingLeftToTrim(s: Bytes)
    ensures LeadingSpace(TrimSpace(s)) == 0 && TrailingSpace(TrimSpace(s)) == 0
    ensures TrimSpace(TrimSpace(s)) == TrimSpace(s)
    decreases |s|
  {
    if LeadingSpace(s) > 0 {
      NothingLeftToTrim(s[LeadingSpace(s)..]);
    } else if TrailingSpace(s) > 0 {
      NothingLeftToTrim(s[..|s| - TrailingSpace(s)]);
    }
  }

  // ---- Numbers ------------------------------------------------------------------------------

  /** The decimal form of a number. */
  function Decimal(n: nat): Bytes {
    (if n < 10 then "" else Decimal(n / 10)) + [('0' as int + n % 10) as char]
  }

  predicate Digit(b: Byte) {
    '0' <= b <= '9'
  }

  /** The number a sequence of digits stands for, most significant first. */
  function Number(digits: Bytes): nat
    requires forall b <- digits :: Digit(b)
  {
    if digits == [] then 0
    else
      var last := digits[|digits| - 1];
      assert last in digits && Digit(last);
      10 * Number(digits[..|digits| - 1]) + (last as int - '0' as int)
  }

  lemma {:induction false} DecimalReads(n: nat)
    ensures (forall b <- Decimal(n) :: Digit(b)) && Number(Decimal(n)) == n
    ensures '\0' !in Decimal(n)
  {
    if n >= 10 {
      DecimalReads(n / 10);
    }
    var last := ('0' as int + n % 10) as char;
    assert Decimal(n)[..|Decimal(n)| - 1] == if n < 10 then "" else Decimal(n / 10);
    assert Decimal(n)[|Decimal(n)| - 1] == last;
  }

  lemma DecimalIsInjective(m: nat, n: nat)
    requires Decimal(m) == Decimal(n)
    ensures m == n
  {
    DecimalReads(m);
    DecimalReads(n);
  }
}
