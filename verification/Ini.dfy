/**
 The nested map parseINI builds, as a value: one assignment after another, compared with a flat
 list of assignments that is searched for a path.
 */
module Ini {
  import opened Wrappers
  import opened GoStrings

  type Path = p: seq<Bytes> | p != [] witness [""]

  /** A configuration value; only the builder and a list decoded from JSON make a Node. */
  datatype Val =
    | Scalar(value: int)
    | Text(text: Bytes)
    | Texts(texts: seq<Bytes>)      // []string
    | List(items: seq<Val>)         // []any
    | Node(children: Settings)

  type Settings = map<Bytes, Val>

  datatype Assignment = Assignment(path: Path, value: Val)

  // ---- The builder --------------------------------------------------------------------------

  /** iniValueList. */
  function AsList(v: Val): seq<Val> {
    match v
    case List(items) => items
    case Texts(texts) => seq(|texts|, i requires 0 <= i < |texts| => Text(texts[i]))
    case _ => [v]
  }

  /** The map under a key; anything else gives way to a new one. */
  function Child(m: Settings, key: Bytes): Settings {
    if key in m && m[key].Node? then m[key].children else map[]
  }

  /** What a key holds after one more assignment. */
  function Merge(held: Option<Val>, v: Val): Val {
    if held.None? then v else List(AsList(held.value) + AsList(v))
  }

  function Held(m: Settings, key: Bytes): Option<Val> {
    if key in m then Some(m[key]) else None
  }

  /** setINIValue. */
  function Assign(m: Settings, path: Path, v: Val): Settings
    decreases |path|
  {
    var key := path[0];
    if |path| == 1 then m[key := Merge(Held(m, key), v)]
    else m[key := Node(Assign(Child(m, key), path[1..], v))]
  }

  /** The assignments in order, from an empty map. */
  function Build(assignments: seq<Assignment>): Settings {
    if assignments == [] then map[]
    else
      var n := |assignments| - 1;
      Assign(Build(assignments[..n]), assignments[n].path, assignments[n].value)
  }

  function Get(m: Settings, path: Path): Option<Val>
    decreases |path|
  {
    if |path| == 1 then Held(m, path[0]) else Get(Child(m, path[0]), path[1..])
  }

  // ---- The flat list ------------------------------------------------------------------------

  /** All values assigned to a path, in order. */
  function ValuesAt(assignments: seq<Assignment>, path: Path): seq<Val> {
    if assignments == [] then []
    else (if assignments[0].path == path then [assignments[0].value] else []) + ValuesAt(assignments[1..], path)
  }

  function Concatenated(values: seq<Val>): seq<Val> {
    if values == [] then [] else AsList(values[0]) + Concatenated(values[1..])
  }

  /** The lone value if there is one, and otherwise all of them in one list. */
  function Answer(values: seq<Val>): Option<Val> {
    if values == [] then None
    else if |values| == 1 then Some(values[0])
    else Some(List(Concatenated(values)))
  }

  /** No assigned path continues another. */
  ghost predicate PrefixFree(assignments: seq<Assignment>) {
    forall a, b | a in assignments && b in assignments :: !(a.path < b.path)
  }

  /** Every assigned path is answered as the flat list answers it. */
  ghost predicate AnswersAll(assignments: seq<Assignment>) {
    forall a <- assignments :: Get(Build(assignments), a.path) == Answer(ValuesAt(assignments, a.path))
  }

  // ---- One assignment -----------------------------------------------------------------------

  /** Whatever is in the way, the assigned path then holds the old value and the new one. */
  lemma {:induction false} GetAssigned(m: Settings, path: Path, v: Val)
    ensures Get(Assign(m, path, v), path) == Some(Merge(Get(m, path), v))
    decreases |path|
  {
    if |path| > 1 {
      GetAssigned(Child(m, path[0]), path[1..], v);
    }
  }

  /** A path that neither continues nor is continued by the assigned one keeps its value. */
  lemma {:induction false} GetOther(m: Settings, path: Path, v: Val, other: Path)
    requires !(path <= other) && !(other <= path)
    ensures Get(Assign(m, path, v), other) == Get(m, other)
    decreases |path|
  {
    if path[0] == other[0] {
      assert path <= other <== path[1..] <= other[1..];
      assert other <= path <== other[1..] <= path[1..];
      GetOther(Child(m, path[0]), path[1..], v, other[1..]);
    }
  }

  /** What has a value below it holds a map. */
  lemma {:induction false} GetBelow(m: Settings, path: Path, longer: Path)
    requires path < longer && Get(m, longer).Some?
    ensures Get(m, path).Some? && Get(m, path).value.Node?
    decreases |path|
  {
    assert path[0] == longer[0];
    if |path| == 1 {
      if !Held(m, path[0]).Some? || !m[path[0]].Node? {
        NothingInEmpty(longer[1..]);
      }
    } else {
      GetBelow(Child(m, path[0]), path[1..], longer[1..]);
    }
  }

  lemma {:induction false} NothingInEmpty(path: Path)
    ensures Get(map[], path) == None
    decreases |path|
  {
    if |path| > 1 {
      NothingInEmpty(path[1..]);
    }
  }

  // ---- The flat answer, one assignment at a time --------------------------------------------

  lemma {:induction false} ValuesAtAppend(front: seq<Assignment>, last: Assignment, path: Path)
    ensures ValuesAt(front + [last], path) == ValuesAt(front, path) + (if last.path == path then [last.value] else [])
  {
    if front == [] {
      assert front + [last] == [last];
    } else {
      ValuesAtAppend(front[1..], last, path);
      assert (front + [last])[1..] == front[1..] + [last];
    }
  }

  lemma {:induction false} ConcatenatedAppend(values: seq<Val>, v: Val)
    ensures Concatenated(values + [v]) == Concatenated(values) + AsList(v)
  {
    if values == [] {
      assert values + [v] == [v];
    } else {
      ConcatenatedAppend(values[1..], v);
      assert (values + [v])[1..] == values[1..] + [v] && (values + [v])[0] == values[0];
      Regroup(AsList(values[0]), Concatenated(values[1..]), AsList(v));
    }
  }

  lemma AnswerAppend(values: seq<Val>, v: Val)
    ensures Answer(values + [v]) == Some(Merge(Answer(values), v))
  {
    ConcatenatedAppend(values, v);
    if |values| == 1 {
      assert Concatenated(values) == AsList(values[0]) + [] == AsList(values[0]);
    }
  }

  // ---- When the two agree -------------------------------------------------------------------

  /** A path apart from all assigned ones, or equal to some of them, is answered as by the flat list. */
  lemma {:induction false} ApartIsAnswered(assignments: seq<Assignment>, path: Path)
    requires forall a <- assignments :: !(a.path < path) && !(path < a.path)
    ensures Get(Build(assignments), path) == Answer(ValuesAt(assignments, path))
  {
    if assignments == [] {
      NothingInEmpty(path);
    } else {
      var n := |assignments| - 1;
      var front, last := assignments[..n], assignments[n];
      assert assignments == front + [last];
      ApartIsAnswered(front, path);
      ValuesAtAppend(front, last, path);
      if last.path == path {
        GetAssigned(Build(front), path, last.value);
        AnswerAppend(ValuesAt(front, path), last.value);
      } else {
        GetOther(Build(front), last.path, last.value, path);
        assert ValuesAt(front, path) + [] == ValuesAt(front, path);
      }
    }
  }

  lemma {:induction false} AssignedHasValues(assignments: seq<Assignment>, a: Assignment)
    requires a in assignments
    ensures a.value in ValuesAt(assignments, a.path)
  {
    if a != assignments[0] {
      AssignedHasValues(assignments[1..], a);
    }
  }

  lemma {:induction false} ValuesAreAssigned(assignments: seq<Assignment>, path: Path, v: Val)
    requires v in ValuesAt(assignments, path)
    ensures exists a <- assignments :: a.path == path && a.value == v
  {
    if assignments[0].path == path && assignments[0].value == v {
      assert assignments[0] in assignments;
    } else {
      ValuesAreAssigned(assignments[1..], path, v);
      var a :| a in assignments[1..] && a.path == path && a.value == v;
      assert a in assignments;
    }
  }

  /** The flat list never answers with a map, since no line assigns one. */
  lemma AnswerIsNoNode(assignments: seq<Assignment>, a: Assignment)
    requires a in assignments && forall b <- assignments :: !b.value.Node?
    ensures var answer := Answer(ValuesAt(assignments, a.path)); answer.Some? && !answer.value.Node?
  {
    AssignedHasValues(assignments, a);
    var values := ValuesAt(assignments, a.path);
    ValuesAreAssigned(assignments, a.path, values[0]);
  }

  /** Of two paths of which one continues the other, one is answered wrongly. */
  lemma NestedIsWrong(assignments: seq<Assignment>, a: Assignment, b: Assignment)
    requires a in assignments && b in assignments && a.path < b.path
    requires forall c <- assignments :: !c.value.Node?
    ensures !AnswersAll(assignments)
  {
    AnswerIsNoNode(assignments, a);
    AnswerIsNoNode(assignments, b);
    if Get(Build(assignments), b.path).Some? {
      GetBelow(Build(assignments), a.path, b.path);
    }
  }

  /** The nested map answers as the flat list exactly when no assigned path continues another. */
  lemma AnswersExactlyPrefixFree(assignments: seq<Assignment>)
    requires forall a <- assignments :: !a.value.Node?
    ensures AnswersAll(assignments) <==> PrefixFree(assignments)
  {
    if PrefixFree(assignments) {
      forall a <- assignments
        ensures Get(Build(assignments), a.path) == Answer(ValuesAt(assignments, a.path))
      {
        ApartIsAnswered(assignments, a.path);
      }
    } else {
      var a, b :| a in assignments && b in assignments && a.path < b.path;
      NestedIsWrong(assignments, a, b);
    }
  }

  // ---- Keys and documents -------------------------------------------------------------------

  function Trimmed(parts: seq<Bytes>): seq<Bytes> {
    if parts == [] then []
    else
      var part := TrimSpace(parts[0]);
      (if part == [] then [] else [part]) + Trimmed(parts[1..])
  }

  /** splitINIKey. */
  function SplitKey(raw: Bytes): seq<Bytes> {
    Trimmed(Split(raw, '.'))
  }

  datatype Line = Skip | Header(name: Bytes) | Entry(key: Bytes, raw: Bytes) | Malformed

  predicate IsComment(text: Bytes) {
    text != [] && (text[0] == ';' || text[0] == '#')
  }

  /** What parseINI and parseINISection make of a line. */
  function Classify(line: Bytes): Line {
    var text := TrimSpace(line);
    if text == [] || IsComment(text) then Skip
    else if text[0] == '[' then
      var end := Find(text, ']');
      if end == |text| then Malformed
      else
        var rest := TrimSpace(text[end + 1..]);
        if rest != [] && !IsComment(rest) then Malformed else Header(text[1..end])
    else
      match Cut(text, '=')
      case None => Malformed
      case Some((key, raw)) => Entry(key, raw)
  }

  /** parseINIValue: the typed value of a raw one at a path. */
  type Reader = (Bytes, Path) -> Val

  /** The assignments of the lines, or the number of the first line that is wrong. */
  function Assignments(read: Reader, section: seq<Bytes>, lines: seq<Line>, number: nat): Result<seq<Assignment>, nat>
    decreases |lines|
  {
    if lines == [] then Ok([])
    else
      match lines[0]
      case Skip => Assignments(read, section, lines[1..], number + 1)
      case Header(name) => Assignments(read, SplitKey(name), lines[1..], number + 1)
      case Malformed => Err(number)
      case Entry(key, raw) =>
        var leaf := SplitKey(key);
        if leaf == [] then Err(number)
        else
          var path := section + leaf;
          match Assignments(read, section, lines[1..], number + 1)
          case Err(e) => Err(e)
          case Ok(rest) => Ok([Assignment(path, read(raw, path))] + rest)
  }

  /** The same document without headers: each key carries its section. */
  function Dotted(section: Bytes, lines: seq<Line>): seq<Line>
    decreases |lines|
  {
    if lines == [] then []
    else
      match lines[0]
      case Header(name) => [Skip] + Dotted(name, lines[1..])
      case Entry(key, raw) => [Entry(section + ['.'] + key, raw)] + Dotted(section, lines[1..])
      case line => [line] + Dotted(section, lines[1..])
  }

  lemma Regroup<T>(a: seq<T>, b: seq<T>, c: seq<T>)
    ensures a + (b + c) == (a + b) + c
  {
  }

  lemma SplitFirst(front: Bytes, separator: Byte, back: Bytes)
    requires separator !in front
    ensures Split(front + [separator] + back, separator) == [front] + Split(back, separator)
  {
    FindFirst(front, separator, back);
    var s := front + [separator] + back;
    assert s[..|front|] == front && s[|front| + 1..] == back;
  }

  lemma {:induction false} SplitDotted(a: Bytes, separator: Byte, b: Bytes)
    ensures Split(a + [separator] + b, separator) == Split(a, separator) + Split(b, separator)
    decreases |a|
  {
    var i := Find(a, separator);
    if i == |a| {
      assert a[..i] == a;
      SplitFirst(a, separator, b);
    } else {
      var head, tail := a[..i], a[i + 1..];
      var rest := tail + [separator] + b;
      assert a + [separator] + b == head + [separator] + rest;
      SplitFirst(head, separator, rest);
      SplitDotted(tail, separator, b);
      Regroup([head], Split(tail, separator), Split(b, separator));
    }
  }

  lemma {:induction false} TrimmedAppend(a: seq<Bytes>, b: seq<Bytes>)
    ensures Trimmed(a + b) == Trimmed(a) + Trimmed(b)
  {
    if a == [] {
      assert a + b == b;
    } else {
      TrimmedAppend(a[1..], b);
      assert (a + b)[1..] == a[1..] + b && (a + b)[0] == a[0];
      var part := TrimSpace(a[0]);
      Regroup(if part == [] then [] else [part], Trimmed(a[1..]), Trimmed(b));
    }
  }

  /** A dotted key is the path of its two halves. */
  lemma SplitKeyDotted(a: Bytes, b: Bytes)
    ensures SplitKey(a + ['.'] + b) == SplitKey(a) + SplitKey(b)
  {
    SplitDotted(a, '.', b);
    TrimmedAppend(Split(a, '.'), Split(b, '.'));
  }

  /** Before any malformed line, some line without a key name stands under a section. */
  predicate BareKeyUnderSection(section: Bytes, lines: seq<Line>)
    decreases |lines|
  {
    if lines == [] then false
    else
      match lines[0]
      case Skip => BareKeyUnderSection(section, lines[1..])
      case Header(name) => BareKeyUnderSection(name, lines[1..])
      case Malformed => false
      case Entry(key, _) =>
        if SplitKey(key) == [] then SplitKey(section) != [] else BareKeyUnderSection(section, lines[1..])
  }

  /** A line is only ever blamed for itself. */
  lemma {:induction false} BlamesLater(read: Reader, section: seq<Bytes>, lines: seq<Line>, number: nat)
    ensures var r := Assignments(read, section, lines, number); r.Err? ==> r.error >= number
    decreases |lines|
  {
    if lines != [] {
      BlamesLater(read, if lines[0].Header? then SplitKey(lines[0].name) else section, lines[1..], number + 1);
    }
  }

  /** One more assignment in front. */
  function Preceded(a: Assignment, rest: Result<seq<Assignment>, nat>): Result<seq<Assignment>, nat> {
    match rest
    case Err(e) => Err(e)
    case Ok(more) => Ok([a] + more)
  }

  lemma PrecededIsInjective(a: Assignment, r: Result<seq<Assignment>, nat>, q: Result<seq<Assignment>, nat>)
    ensures Preceded(a, r) == Preceded(a, q) <==> r == q
  {
    if r.Ok? && q.Ok? {
      assert ([a] + r.value)[1..] == r.value && ([a] + q.value)[1..] == q.value;
    }
  }

  lemma FirstEntry(read: Reader, section: seq<Bytes>, lines: seq<Line>, number: nat, path: Path)
    requires lines != [] && lines[0].Entry? && SplitKey(lines[0].key) != [] && path == section + SplitKey(lines[0].key)
    ensures Assignments(read, section, lines, number)
         == Preceded(Assignment(path, read(lines[0].raw, path)), Assignments(read, section, lines[1..], number + 1))
  {
  }

  /** The step of the theorem at a line that assigns. */
  lemma EntryMatters(read: Reader, section: Bytes, lines: seq<Line>, number: nat)
    requires lines != [] && lines[0].Entry?
    requires Assignments(read, [], Dotted(section, lines[1..]), number + 1)
          == Assignments(read, SplitKey(section), lines[1..], number + 1)
          <==> !BareKeyUnderSection(section, lines[1..])
    ensures Assignments(read, [], Dotted(section, lines), number) == Assignments(read, SplitKey(section), lines, number)
            <==> !BareKeyUnderSection(section, lines)
  {
    var Entry(key, raw) := lines[0];
    var dotted, rest := Dotted(section, lines), Dotted(section, lines[1..]);
    assert dotted[0] == Entry(section + ['.'] + key, raw) && dotted[1..] == rest;
    SplitKeyDotted(section, key);
    var joined := SplitKey(section) + SplitKey(key);
    assert [] + joined == joined;
    if joined != [] {
      FirstEntry(read, [], dotted, number, joined);
      if SplitKey(key) == [] {
        BlamesLater(read, [], rest, number + 1);
      } else {
        FirstEntry(read, SplitKey(section), lines, number, joined);
        PrecededIsInjective(Assignment(joined, read(raw, joined)), Assignments(read, [], rest, number + 1),
                            Assignments(read, SplitKey(section), lines[1..], number + 1));
      }
    }
  }

  /**
   Headers and dotted keys matter only through the joined path: a document and its dotted form
   make the same assignments, or fail at the same line, exactly when no line without a key name
   is met under a section.
   */
  lemma {:induction false} OnlyPathsMatter(read: Reader, section: Bytes, lines: seq<Line>, number: nat)
    ensures Assignments(read, [], Dotted(section, lines), number) == Assignments(read, SplitKey(section), lines, number)
            <==> !BareKeyUnderSection(section, lines)
    decreases |lines|
  {
    if lines != [] {
      var next := if lines[0].Header? then lines[0].name else section;
      OnlyPathsMatter(read, next, lines[1..], number + 1);
      if lines[0].Entry? {
        EntryMatters(read, section, lines, number);
      } else {
        assert Dotted(section, lines)[1..] == Dotted(next, lines[1..]);
      }
    }
  }

  /** The one way they differ: a line without a key name is refused, while its dotted form assigns to the section. */
  lemma BareKeyDiffers(read: Reader, section: Bytes, key: Bytes, raw: Bytes, number: nat)
    requires SplitKey(section) != [] && SplitKey(key) == []
    ensures Assignments(read, SplitKey(section), [Entry(key, raw)], number) == Err(number)
    ensures Assignments(read, [], Dotted(section, [Entry(key, raw)]), number)
         == Ok([Assignment(SplitKey(section), read(raw, SplitKey(section)))])
  {
    SplitKeyDotted(section, key);
    var path: Path := SplitKey(section);
    var dotted := section + ['.'] + key;
    assert SplitKey(dotted) == path;
    assert Dotted(section, [Entry(key, raw)]) == [Entry(dotted, raw)];
    LoneEntry(read, dotted, raw, number);
  }

  lemma LoneEntry(read: Reader, key: Bytes, raw: Bytes, number: nat)
    requires SplitKey(key) != []
    ensures Assignments(read, [], [Entry(key, raw)], number) == Ok([Assignment(SplitKey(key), read(raw, SplitKey(key)))])
  {
    var lines := [Entry(key, raw)];
    assert Assignments(read, [], lines[1..], number + 1) == Ok([]);
    var path: Path := SplitKey(key);
    var a := Assignment(path, read(raw, path));
    assert [] + path == path && [a] + [] == [a];
  }

  // ---- Lines as they are written ------------------------------------------------------------

  ghost predicate VisibleEnds(s: Bytes) {
    s != [] && Visible(s[0]) && Visible(s[|s| - 1])
  }

  /** A line of text with white space around it. */
  ghost function Spaced(before: seq<nat>, text: Bytes, after: seq<nat>): Bytes
    requires AllSpace(before) && AllSpace(after)
  {
    Encoded(before) + (text + Encoded(after))
  }

  /** A line is what its trimmed text is. */
  lemma SpaceIsIgnored(before: seq<nat>, text: Bytes, after: seq<nat>)
    requires AllSpace(before) && AllSpace(after) && VisibleEnds(text)
    ensures Classify(Spaced(before, text, after)) == Classify(text)
  {
    TrimAround(before, text, after);
    TrimNothing(text);
    OnlyTrimmedCounts(Spaced(before, text, after), text);
  }

  lemma OnlyTrimmedCounts(a: Bytes, b: Bytes)
    requires TrimSpace(a) == TrimSpace(b)
    ensures Classify(a) == Classify(b)
  {
  }

  /** key = value; the first equals sign counts. */
  lemma EntryLine(key: Bytes, raw: Bytes)
    requires '=' !in key && VisibleEnds(key + ['='] + raw)
    requires key == [] || (key[0] != '[' && key[0] != ';' && key[0] != '#')
    ensures Classify(key + ['='] + raw) == Entry(key, raw)
  {
    var text := key + ['='] + raw;
    TrimNothing(text);
    assert text[0] == if key == [] then '=' else key[0];
    FindFirst(key, '=', raw);
    assert text[..|key|] == key && text[|key| + 1..] == raw;
  }

  /** [name], perhaps with white space and a comment behind it; the first bracket counts. */
  lemma HeaderLine(name: Bytes, space: seq<nat>, comment: Bytes)
    requires ']' !in name && AllSpace(space)
    requires comment == [] || (IsComment(comment) && VisibleEnds(comment))
    requires comment == [] ==> space == []
    ensures Classify(['['] + name + [']'] + (Encoded(space) + comment)) == Header(name)
  {
    var rest := Encoded(space) + comment;
    RestOfHeader(space, comment);
    HeaderText(name, rest);
  }

  lemma RestOfHeader(space: seq<nat>, comment: Bytes)
    requires AllSpace(space) && (comment == [] || (IsComment(comment) && VisibleEnds(comment)))
    requires comment == [] ==> space == []
    ensures TrimSpace(Encoded(space) + comment) == comment
    ensures var rest := Encoded(space) + comment; rest == [] || rest[|rest| - 1] == comment[|comment| - 1]
  {
    if comment == [] {
      assert Encoded(space) + comment == Encoded([]);
      TrimOnlySpace([]);
    } else {
      assert Encoded(space) + comment == Encoded(space) + (comment + Encoded([]));
      TrimAround(space, comment, []);
    }
  }

  lemma HeaderText(name: Bytes, rest: Bytes)
    requires ']' !in name && (TrimSpace(rest) == [] || IsComment(TrimSpace(rest)))
    requires rest == [] || Visible(rest[|rest| - 1])
    ensures Classify(['['] + name + [']'] + rest) == Header(name)
  {
    var text := ['['] + name + [']'] + rest;
    HeaderParts(name, rest);
    assert text[1..|name| + 1] == name && text[|name| + 2..] == rest;
    HeaderOf(text, |name| + 1);
  }

  lemma HeaderParts(name: Bytes, rest: Bytes)
    requires ']' !in name && (rest == [] || Visible(rest[|rest| - 1]))
    ensures var text := ['['] + name + [']'] + rest;
            && text[0] == '[' && VisibleEnds(text) && Find(text, ']') == |name| + 1
            && text[1..|name| + 1] == name && text[|name| + 2..] == rest
  {
    var front := ['['] + name;
    var text := front + [']'] + rest;
    assert text[|text| - 1] == if rest == [] then ']' else rest[|rest| - 1];
    FindFirst(front, ']', rest);
  }

  lemma HeaderOf(text: Bytes, end: nat)
    requires VisibleEnds(text) && text[0] == '[' && Find(text, ']') == end < |text|
    ensures var rest := TrimSpace(text[end + 1..]);
            Classify(text) == if rest != [] && !IsComment(rest) then Malformed else Header(text[1..end])
  {
    TrimNothing(text);
  }

  /** Anything else behind a header, a header without an end, and a line without an equals sign are malformed. */
  lemma MalformedLine(text: Bytes)
    requires VisibleEnds(text) && !IsComment(text)
    ensures text[0] == '[' && ']' !in text ==> Classify(text) == Malformed
    ensures text[0] != '[' && '=' !in text ==> Classify(text) == Malformed
    ensures text[0] == '[' && ']' in text ==>
              var rest := TrimSpace(text[Find(text, ']') + 1..]);
              (Classify(text) == Malformed <==> rest != [] && !IsComment(rest))
  {
    TrimNothing(text);
    if ']' !in text {
      FindAbsent(text, ']');
    }
    if '=' !in text {
      FindAbsent(text, '=');
    }
  }

  /** Comments and empty lines are skipped. */
  lemma SkippedLine(text: Bytes, space: seq<nat>)
    requires AllSpace(space)
    ensures IsComment(text) && VisibleEnds(text) ==> Classify(text) == Skip
    ensures Classify(Encoded(space)) == Skip
  {
    if VisibleEnds(text) {
      TrimNothing(text);
    }
    TrimOnlySpace(space);
  }

  /** A key or section name of visible parts without dots is split into just these. */
  lemma {:induction false} SplitKeyOfParts(parts: seq<Bytes>)
    requires parts != [] && forall part <- parts :: VisibleEnds(part) && '.' !in part
    ensures SplitKey(Join(parts, '.')) == parts
  {
    SplitJoin(parts, '.');
    TrimmedVisible(parts);
  }

  lemma {:induction false} TrimmedVisible(parts: seq<Bytes>)
    requires forall part <- parts :: VisibleEnds(part)
    ensures Trimmed(parts) == parts
  {
    if parts != [] {
      assert parts[0] in parts;
      TrimNothing(parts[0]);
      TrimmedVisible(parts[1..]);
    }
  }

  /** No part of a path is empty. */
  lemma {:induction false} PartsAreNotEmpty(parts: seq<Bytes>)
    ensures forall part <- Trimmed(parts) :: part != []
  {
    if parts != [] {
      PartsAreNotEmpty(parts[1..]);
    }
  }

  predicate IsBad(line: Line) {
    line.Malformed? || (line.Entry? && SplitKey(line.key) == [])
  }

  /** A document is accepted exactly if it has no bad line. */
  lemma {:induction false} GoodDocuments(read: Reader, section: seq<Bytes>, lines: seq<Line>, number: nat)
    ensures Assignments(read, section, lines, number).Ok? <==> forall k | 0 <= k < |lines| :: !IsBad(lines[k])
    decreases |lines|
  {
    if lines != [] && !IsBad(lines[0]) {
      var next := if lines[0].Header? then SplitKey(lines[0].name) else section;
      GoodDocuments(read, next, lines[1..], number + 1);
      GoodLineFirst(read, section, lines, number, next);
      assert forall k | 1 <= k < |lines| :: lines[k] == lines[1..][k - 1];
    }
  }

  /** Otherwise the number of the first bad line is reported. */
  lemma {:induction false} FirstBadLineIsNamed(read: Reader, section: seq<Bytes>, lines: seq<Line>, number: nat, bad: nat)
    requires bad < |lines| && IsBad(lines[bad]) && forall k | 0 <= k < bad :: !IsBad(lines[k])
    ensures Assignments(read, section, lines, number) == Err(number + bad)
    decreases |lines|
  {
    if bad > 0 {
      var next := if lines[0].Header? then SplitKey(lines[0].name) else section;
      FirstBadLineIsNamed(read, next, lines[1..], number + 1, bad - 1);
      GoodLineFirst(read, section, lines, number, next);
    }
  }

  lemma GoodLineFirst(read: Reader, section: seq<Bytes>, lines: seq<Line>, number: nat, next: seq<Bytes>)
    requires lines != [] && !IsBad(lines[0]) && next == if lines[0].Header? then SplitKey(lines[0].name) else section
    ensures var r, rest := Assignments(read, section, lines, number), Assignments(read, next, lines[1..], number + 1);
            (r.Ok? <==> rest.Ok?) && (r.Err? ==> r.error == rest.error)
  {
    if lines[0].Entry? {
      FirstEntry(read, section, lines, number, section + SplitKey(lines[0].key));
    }
  }

  // ---- Lists from repeated keys -------------------------------------------------------------

  ghost predicate NoList(v: Val) {
    !v.List? && !v.Texts?
  }

  /** Repeated plain values become a list of them, in order. */
  lemma {:induction false} RepeatedValues(values: seq<Val>)
    requires forall v <- values :: NoList(v)
    ensures Concatenated(values) == values
    ensures |values| > 1 ==> Answer(values) == Some(List(values))
  {
    if values != [] {
      assert values[0] in values;
      RepeatedValues(values[1..]);
      assert values == [values[0]] + values[1..];
    }
  }

  /** Repeated lists become one list, and the strings of a string list its items. */
  lemma RepeatedLists(a: seq<Val>, b: seq<Val>, texts: seq<Bytes>)
    ensures Answer([List(a), List(b)]) == Some(List(a + b))
    ensures var r := Answer([List(a), Texts(texts)]);
            && r.Some? && r.value.List? && |r.value.items| == |a| + |texts| && r.value.items[..|a|] == a
            && forall i | 0 <= i < |texts| :: r.value.items[|a| + i] == Text(texts[i])
  {
    assert [List(a), List(b)][1..] == [List(b)] && [List(b)][1..] == [];
    assert Concatenated([List(b)]) == b + [];
    assert Concatenated([List(a), List(b)]) == a + b;
    assert [List(a), Texts(texts)][1..] == [Texts(texts)] && [Texts(texts)][1..] == [];
    assert Concatenated([Texts(texts)]) == AsList(Texts(texts)) + [];
  }
}
