/**
 The strict structure check of share/portable: a recursive scan over the tokens of a JSON
 decoder, to be exactly the set of serializations of one JSON tree that is not too deep and
 repeats no name inside an object.
 */
module JsonScanner {
  import opened Wrappers

  /**
   What decoder.Token returns. Commas and colons are consumed by the decoder; the first
   character sequence it rejects ends its stream, as the token `Bad`.
   */
  datatype Token =
    | OpenObject | CloseObject | OpenArray | CloseArray
    | Str(text: string)
    | Scalar(literal: string)   // number, true, false or null
    | Bad

  datatype ScanError = InvalidJson | DuplicateField(name: string)

  datatype Tree =
    | StringLeaf(text: string)
    | ScalarLeaf(literal: string)
    | Array(items: seq<Tree>)
    | Object(members: seq<Member>)

  datatype Member = Member(name: string, value: Tree)

  // ---- The grammar --------------------------------------------------------------------------

  /** The tokens of a tree. */
  function Tokens(t: Tree): seq<Token> {
    match t
    case StringLeaf(text) => [Str(text)]
    case ScalarLeaf(literal) => [Scalar(literal)]
    case Array(items) => [OpenArray] + ItemTokens(items) + [CloseArray]
    case Object(members) => [OpenObject] + MemberTokens(members) + [CloseObject]
  }

  function ItemTokens(items: seq<Tree>): seq<Token> {
    if items == [] then [] else Tokens(items[0]) + ItemTokens(items[1..])
  }

  function MemberTokens(members: seq<Member>): seq<Token> {
    if members == [] then [] else [Str(members[0].name)] + Tokens(members[0].value) + MemberTokens(members[1..])
  }

  /** The tree fits into `levels` levels of nesting. */
  predicate Fits(t: Tree, levels: int) {
    && levels >= 1
    && match t
       case StringLeaf(_) => true
       case ScalarLeaf(_) => true
       case Array(items) => forall item <- items :: Fits(item, levels - 1)
       case Object(members) => forall member <- members :: Fits(member.value, levels - 1)
  }

  /** No object of the tree repeats a name. */
  predicate UniqueNames(t: Tree) {
    match t
    case StringLeaf(_) => true
    case ScalarLeaf(_) => true
    case Array(items) => forall item <- items :: UniqueNames(item)
    case Object(members) =>
      && (forall i, j | 0 <= i < j < |members| :: members[i].name != members[j].name)
      && (forall member <- members :: UniqueNames(member.value))
  }

  /** The first name, in reading order, that its object had before. */
  function FirstRepeat(t: Tree): Option<string> {
    match t
    case StringLeaf(_) => None
    case ScalarLeaf(_) => None
    case Array(items) => FirstInItems(items)
    case Object(members) => FirstInMembers(members, {})
  }

  function FirstInItems(items: seq<Tree>): Option<string> {
    if items == [] then None
    else
      match FirstRepeat(items[0])
      case Some(name) => Some(name)
      case None => FirstInItems(items[1..])
  }

  function FirstInMembers(members: seq<Member>, before: set<string>): Option<string> {
    if members == [] then None
    else if members[0].name in before then Some(members[0].name)
    else
      match FirstRepeat(members[0].value)
      case Some(name) => Some(name)
      case None => FirstInMembers(members[1..], before + {members[0].name})
  }

  // ---- The scan as a function ---------------------------------------------------------------

  predicate More(tokens: seq<Token>) {
    tokens != [] && tokens[0] != CloseObject && tokens[0] != CloseArray
  }

  /** scanValue with `levels` levels left: the tokens after the value, or an error. */
  function AfterValue(tokens: seq<Token>, levels: int): (r: Result<seq<Token>, ScanError>)
    ensures r.Ok? ==> |r.value| < |tokens|
    decreases |tokens|, 0
  {
    if levels < 1 || tokens == [] then Err(InvalidJson)
    else
      match tokens[0]
      case Str(_) => Ok(tokens[1..])
      case Scalar(_) => Ok(tokens[1..])
      case OpenObject => AfterMembers(tokens[1..], {}, levels - 1)
      case OpenArray => AfterItems(tokens[1..], levels - 1)
      case _ => Err(InvalidJson)
  }

  /** The loop over the members of an object and its closing token. */
  function AfterMembers(tokens: seq<Token>, fields: set<string>, levels: int): (r: Result<seq<Token>, ScanError>)
    ensures r.Ok? ==> |r.value| < |tokens|
    decreases |tokens|, 1
  {
    if !More(tokens) then
      if tokens != [] && tokens[0] == CloseObject then Ok(tokens[1..]) else Err(InvalidJson)
    else if !tokens[0].Str? then Err(InvalidJson)
    else if tokens[0].text in fields then Err(DuplicateField(tokens[0].text))
    else
      match AfterValue(tokens[1..], levels)
      case Err(e) => Err(e)
      case Ok(rest) => AfterMembers(rest, fields + {tokens[0].text}, levels)
  }

  /** The loop over the elements of an array and its closing token. */
  function AfterItems(tokens: seq<Token>, levels: int): (r: Result<seq<Token>, ScanError>)
    ensures r.Ok? ==> |r.value| < |tokens|
    decreases |tokens|, 1
  {
    if !More(tokens) then
      if tokens != [] && tokens[0] == CloseArray then Ok(tokens[1..]) else Err(InvalidJson)
    else
      match AfterValue(tokens, levels)
      case Err(e) => Err(e)
      case Ok(rest) => AfterItems(rest, levels)
  }

  /** validateJSONStructure: one value, then the end of the input. */
  function Validate(tokens: seq<Token>, maxDepth: int): Option<ScanError> {
    match AfterValue(tokens, maxDepth)
    case Err(e) => Some(e)
    case Ok(rest) => if rest == [] then None else Some(InvalidJson)
  }

  // ---- Every tree is scanned ----------------------------------------------------------------

  /** Read from left to right, no name is repeated or already in `fields`, inside or outside. */
  ghost predicate FreshNames(members: seq<Member>, fields: set<string>) {
    members != [] ==>
      && members[0].name !in fields && UniqueNames(members[0].value)
      && FreshNames(members[1..], fields + {members[0].name})
  }

  lemma {:induction false} FreshMeansDistinct(members: seq<Member>, fields: set<string>)
    ensures FreshNames(members, fields) <==>
            && (forall i, j | 0 <= i < j < |members| :: members[i].name != members[j].name)
            && (forall i | 0 <= i < |members| :: members[i].name !in fields && UniqueNames(members[i].value))
  {
    if members != [] {
      var tail := members[1..];
      FreshMeansDistinct(tail, fields + {members[0].name});
      assert forall i | 0 <= i < |tail| :: tail[i] == members[i + 1];
      assert forall i | 1 <= i < |members| :: members[i] == tail[i - 1];
    }
  }

  lemma UniqueMeansFresh(members: seq<Member>)
    ensures UniqueNames(Object(members)) <==> FreshNames(members, {})
  {
    FreshMeansDistinct(members, {});
    assert forall i | 0 <= i < |members| :: members[i] in members;
  }

  lemma Inside(open: Token, body: seq<Token>, close: Token, rest: seq<Token>)
    ensures ([open] + body + [close] + rest)[1..] == body + ([close] + rest)
  {
  }

  lemma Associates(a: seq<Token>, b: seq<Token>, c: seq<Token>)
    ensures (a + b) + c == a + (b + c)
  {
  }

  lemma AfterName(name: Token, value: seq<Token>, members: seq<Token>, end: seq<Token>)
    ensures var tokens := [name] + value + members + end;
            tokens[0] == name && tokens[1..] == value + (members + end)
  {
  }

  /** Names are unique exactly when there is no first repeated one. */
  lemma {:induction false} NoRepeatMeansUnique(t: Tree)
    ensures FirstRepeat(t).None? <==> UniqueNames(t)
    decreases t
  {
    match t
    case StringLeaf(_) =>
    case ScalarLeaf(_) =>
    case Array(items) => NoRepeatInItems(items);
    case Object(members) =>
      NoRepeatInMembers(members, {});
      UniqueMeansFresh(members);
  }

  lemma {:induction false} NoRepeatInItems(items: seq<Tree>)
    ensures FirstInItems(items).None? <==> forall item <- items :: UniqueNames(item)
    decreases items
  {
    if items != [] {
      NoRepeatMeansUnique(items[0]);
      NoRepeatInItems(items[1..]);
      assert forall item <- items :: item == items[0] || item in items[1..];
    }
  }

  lemma {:induction false} NoRepeatInMembers(members: seq<Member>, before: set<string>)
    ensures FirstInMembers(members, before).None? <==> FreshNames(members, before)
    decreases members
  {
    if members != [] {
      NoRepeatMeansUnique(members[0].value);
      NoRepeatInMembers(members[1..], before + {members[0].name});
    }
  }

  /** The scan went as it should for a tree, or list of trees, with or without a repeated name. */
  ghost predicate Outcome(r: Result<seq<Token>, ScanError>, repeated: Option<string>, rest: seq<Token>) {
    r == if repeated.None? then Ok(rest) else Err(DuplicateField(repeated.value))
  }

  /**
   A tree that is not too deep is consumed exactly, whatever follows it; if some object repeats
   a name, the first one to do so is the error reported.
   */
  lemma {:induction false} ScansTree(t: Tree, rest: seq<Token>, levels: int)
    requires Fits(t, levels)
    ensures Outcome(AfterValue(Tokens(t) + rest, levels), FirstRepeat(t), rest)
    decreases t
  {
    match t
    case StringLeaf(text) => assert ([Str(text)] + rest)[1..] == rest;
    case ScalarLeaf(literal) => assert ([Scalar(literal)] + rest)[1..] == rest;
    case Array(items) =>
      Inside(OpenArray, ItemTokens(items), CloseArray, rest);
      ScansItems(items, rest, levels - 1);
    case Object(members) =>
      Inside(OpenObject, MemberTokens(members), CloseObject, rest);
      ScansMembers(members, {}, rest, levels - 1);
  }

  lemma {:induction false} ScansItems(items: seq<Tree>, rest: seq<Token>, levels: int)
    requires forall item <- items :: Fits(item, levels)
    ensures Outcome(AfterItems(ItemTokens(items) + ([CloseArray] + rest), levels),
                    FirstInItems(items), rest)
    decreases items
  {
    var end := [CloseArray] + rest;
    if items == [] {
      assert ItemTokens(items) + end == end;
      assert end[1..] == rest;
    } else {
      var head, tail := items[0], items[1..];
      var after := ItemTokens(tail) + end;
      Associates(Tokens(head), ItemTokens(tail), end);
      ScansTree(head, after, levels);
      ScansItems(tail, rest, levels);
    }
  }

  lemma {:induction false} ScansMembers(members: seq<Member>, fields: set<string>, rest: seq<Token>, levels: int)
    requires forall member <- members :: Fits(member.value, levels)
    ensures Outcome(AfterMembers(MemberTokens(members) + ([CloseObject] + rest), fields, levels),
                    FirstInMembers(members, fields), rest)
    decreases members
  {
    var end := [CloseObject] + rest;
    if members == [] {
      assert MemberTokens(members) + end == end;
      assert end[1..] == rest;
    } else {
      var head, tail := members[0], members[1..];
      var after := MemberTokens(tail) + end;
      var tokens := MemberTokens(members) + end;
      AfterName(Str(head.name), Tokens(head.value), MemberTokens(tail), end);
      ScansTree(head.value, after, levels);
      ScansMembers(tail, fields + {head.name}, rest, levels);
    }
  }

  // ---- Only trees are scanned ---------------------------------------------------------------

  /** Whatever the scan accepts is a tree within the limits, followed by what it left over. */
  lemma {:induction false} AcceptsTree(tokens: seq<Token>, levels: int) returns (t: Tree)
    requires AfterValue(tokens, levels).Ok?
    ensures tokens == Tokens(t) + AfterValue(tokens, levels).value
    ensures Fits(t, levels) && UniqueNames(t)
    decreases |tokens|, 0
  {
    var rest := AfterValue(tokens, levels).value;
    match tokens[0]
    case Str(text) => t := StringLeaf(text);
    case Scalar(literal) => t := ScalarLeaf(literal);
    case OpenArray =>
      var items := AcceptsItems(tokens[1..], levels - 1);
      t := Array(items);
      Enclosed(tokens, ItemTokens(items), CloseArray, rest);
    case OpenObject =>
      var members := AcceptsMembers(tokens[1..], {}, levels - 1);
      t := Object(members);
      UniqueMeansFresh(members);
      Enclosed(tokens, MemberTokens(members), CloseObject, rest);
  }

  lemma Enclosed(tokens: seq<Token>, body: seq<Token>, close: Token, rest: seq<Token>)
    requires tokens != [] && tokens[1..] == body + [close] + rest
    ensures tokens == [tokens[0]] + body + [close] + rest
  {
  }

  lemma Regroup(a: seq<Token>, b: seq<Token>, c: seq<Token>, d: seq<Token>, e: seq<Token>)
    ensures a + (b + (c + d + e)) == (a + b + c) + d + e
  {
  }

  lemma {:induction false} AcceptsItems(tokens: seq<Token>, levels: int) returns (items: seq<Tree>)
    requires AfterItems(tokens, levels).Ok?
    ensures tokens == ItemTokens(items) + [CloseArray] + AfterItems(tokens, levels).value
    ensures forall item <- items :: Fits(item, levels) && UniqueNames(item)
    decreases |tokens|, 1
  {
    if !More(tokens) {
      items := [];
    } else {
      var head := AcceptsTree(tokens, levels);
      var after := AfterValue(tokens, levels).value;
      var tail := AcceptsItems(after, levels);
      items := [head] + tail;
      assert items[1..] == tail;
    }
  }

  lemma {:induction false} AcceptsMembers(tokens: seq<Token>, fields: set<string>, levels: int) returns (members: seq<Member>)
    requires AfterMembers(tokens, fields, levels).Ok?
    ensures tokens == MemberTokens(members) + [CloseObject] + AfterMembers(tokens, fields, levels).value
    ensures (forall member <- members :: Fits(member.value, levels)) && FreshNames(members, fields)
    decreases |tokens|, 1
  {
    if !More(tokens) {
      members := [];
    } else {
      var value := AcceptsTree(tokens[1..], levels);
      var after := AfterValue(tokens[1..], levels).value;
      var tail := AcceptsMembers(after, fields + {tokens[0].text}, levels);
      members := [Member(tokens[0].text, value)] + tail;
      assert members[0] == Member(tokens[0].text, value) && members[1..] == tail;
      assert tokens == [tokens[0]] + tokens[1..];
      Regroup([tokens[0]], Tokens(value), MemberTokens(tail), [CloseObject], AfterMembers(tokens, fields, levels).value);
      assert forall member <- members :: member == members[0] || member in tail;
    }
  }

  // ---- The tree is unique -------------------------------------------------------------------

  /** A serialization determines its tree and where it ends. */
  lemma {:induction false} TokensDetermineTree(t: Tree, a: seq<Token>, u: Tree, b: seq<Token>)
    requires Tokens(t) + a == Tokens(u) + b
    ensures t == u && a == b
    decreases t
  {
    assert (Tokens(t) + a)[0] == Tokens(t)[0] && (Tokens(u) + b)[0] == Tokens(u)[0];
    match t
    case StringLeaf(_) => assert a == (Tokens(t) + a)[1..] && b == (Tokens(u) + b)[1..];
    case ScalarLeaf(_) => assert a == (Tokens(t) + a)[1..] && b == (Tokens(u) + b)[1..];
    case Array(items) =>
      Inside(OpenArray, ItemTokens(items), CloseArray, a);
      Inside(OpenArray, ItemTokens(u.items), CloseArray, b);
      TokensDetermineItems(items, a, u.items, b);
    case Object(members) =>
      Inside(OpenObject, MemberTokens(members), CloseObject, a);
      Inside(OpenObject, MemberTokens(u.members), CloseObject, b);
      TokensDetermineMembers(members, a, u.members, b);
  }

  lemma {:induction false} TokensDetermineItems(s: seq<Tree>, a: seq<Token>, t: seq<Tree>, b: seq<Token>)
    requires ItemTokens(s) + ([CloseArray] + a) == ItemTokens(t) + ([CloseArray] + b)
    ensures s == t && a == b
    decreases s
  {
    var left, right := ItemTokens(s) + ([CloseArray] + a), ItemTokens(t) + ([CloseArray] + b);
    ItemsStart(s, a);
    ItemsStart(t, b);
    if s == [] {
      assert left[1..] == a && right[1..] == b;
    } else {
      Associates(Tokens(s[0]), ItemTokens(s[1..]), [CloseArray] + a);
      Associates(Tokens(t[0]), ItemTokens(t[1..]), [CloseArray] + b);
      TokensDetermineTree(s[0], ItemTokens(s[1..]) + ([CloseArray] + a), t[0], ItemTokens(t[1..]) + ([CloseArray] + b));
      TokensDetermineItems(s[1..], a, t[1..], b);
      assert s == [s[0]] + s[1..] && t == [t[0]] + t[1..];
    }
  }

  /** The next token tells whether the array goes on. */
  lemma ItemsStart(items: seq<Tree>, rest: seq<Token>)
    ensures (ItemTokens(items) + ([CloseArray] + rest))[0] == CloseArray <==> items == []
  {
    if items != [] {
      assert (ItemTokens(items) + ([CloseArray] + rest))[0] == Tokens(items[0])[0];
    }
  }

  lemma {:induction false} TokensDetermineMembers(s: seq<Member>, a: seq<Token>, t: seq<Member>, b: seq<Token>)
    requires MemberTokens(s) + ([CloseObject] + a) == MemberTokens(t) + ([CloseObject] + b)
    ensures s == t && a == b
    decreases s
  {
    var left, right := MemberTokens(s) + ([CloseObject] + a), MemberTokens(t) + ([CloseObject] + b);
    assert s != [] ==> left[0] == Str(s[0].name);
    assert t != [] ==> right[0] == Str(t[0].name);
    if s == [] {
      assert left[1..] == a && right[1..] == b;
    } else {
      var leftRest, rightRest := MemberTokens(s[1..]) + ([CloseObject] + a), MemberTokens(t[1..]) + ([CloseObject] + b);
      AfterName(Str(s[0].name), Tokens(s[0].value), MemberTokens(s[1..]), [CloseObject] + a);
      AfterName(Str(t[0].name), Tokens(t[0].value), MemberTokens(t[1..]), [CloseObject] + b);
      TokensDetermineTree(s[0].value, leftRest, t[0].value, rightRest);
      TokensDetermineMembers(s[1..], a, t[1..], b);
      assert s == [s[0]] + s[1..] && t == [t[0]] + t[1..];
    }
  }

  // ---- The language of the scanner ----------------------------------------------------------

  ghost predicate Serializes(tokens: seq<Token>, t: Tree, maxDepth: int) {
    tokens == Tokens(t) && Fits(t, maxDepth) && UniqueNames(t)
  }

  /** A token stream is accepted exactly when it serializes one tree within the limits. */
  lemma AcceptsExactlySerializations(tokens: seq<Token>, maxDepth: int)
    ensures Validate(tokens, maxDepth).None? <==> exists t :: Serializes(tokens, t, maxDepth)
  {
    if Validate(tokens, maxDepth).None? {
      var t := AcceptsTree(tokens, maxDepth);
      assert tokens == Tokens(t) + [];
      assert Serializes(tokens, t, maxDepth);
    }
    forall t | Serializes(tokens, t, maxDepth)
      ensures Validate(tokens, maxDepth).None?
    {
      ScansTree(t, [], maxDepth);
      NoRepeatMeansUnique(t);
      assert Tokens(t) + [] == tokens;
    }
  }

  lemma SerializedTreeIsUnique(tokens: seq<Token>, t: Tree, u: Tree, maxDepth: int)
    requires Serializes(tokens, t, maxDepth) && Serializes(tokens, u, maxDepth)
    ensures t == u
  {
    TokensDetermineTree(t, [], u, []);
  }

  /** Of the trees within the depth, those that repeat a name get the duplicate error, for the first such name. */
  lemma RepeatedNamesAreReported(t: Tree, maxDepth: int)
    requires Fits(t, maxDepth)
    ensures FirstRepeat(t).Some? <==> !UniqueNames(t)
    ensures FirstRepeat(t).Some? ==> Validate(Tokens(t), maxDepth) == Some(DuplicateField(FirstRepeat(t).value))
  {
    ScansTree(t, [], maxDepth);
    NoRepeatMeansUnique(t);
    assert Tokens(t) + [] == Tokens(t);
  }

  // ---- Which error --------------------------------------------------------------------------

  predicate HasName(members: seq<Member>, name: string) {
    exists member <- members :: member.name == name
  }

  /** An object that begins like this, and has the name a second time. */
  function Repeating(members: seq<Member>, name: string, after: seq<Token>): seq<Token> {
    MemberTokens(members) + ([Str(name)] + after)
  }

  /** Somewhere in the tokens an object has members, one of them with the name, and then the name again. */
  ghost predicate RepeatsIn(tokens: seq<Token>, name: string) {
    exists before: seq<Token>, members: seq<Member>, after: seq<Token> ::
      HasName(members, name) && tokens == before + ([OpenObject] + Repeating(members, name, after))
  }

  lemma RepeatsBehind(front: seq<Token>, tokens: seq<Token>, name: string)
    requires RepeatsIn(tokens, name)
    ensures RepeatsIn(front + tokens, name)
  {
    var before: seq<Token>, members: seq<Member>, after: seq<Token> :|
      HasName(members, name) && tokens == before + ([OpenObject] + Repeating(members, name, after));
    Associates(front, before, [OpenObject] + Repeating(members, name, after));
    assert front + tokens == (front + before) + ([OpenObject] + Repeating(members, name, after));
  }

  lemma RepeatingNext(member: Member, members: seq<Member>, name: string, after: seq<Token>)
    ensures Repeating([member] + members, name, after)
         == [Str(member.name)] + (Tokens(member.value) + Repeating(members, name, after))
  {
    var end := [Str(name)] + after;
    assert ([member] + members)[1..] == members;
    AfterName(Str(member.name), Tokens(member.value), MemberTokens(members), end);
    var tokens := [Str(member.name)] + Tokens(member.value) + MemberTokens(members) + end;
    assert tokens == [tokens[0]] + tokens[1..];
  }

  /** A duplicate is reported only for a name its object had before. */
  lemma {:induction false} RepeatInValue(tokens: seq<Token>, levels: int, name: string)
    requires AfterValue(tokens, levels) == Err(DuplicateField(name))
    ensures RepeatsIn(tokens, name)
    decreases |tokens|, 0
  {
    assert tokens == [tokens[0]] + tokens[1..];
    if tokens[0] == OpenObject {
      var nested, members, after := RepeatInMembers(tokens[1..], {}, levels - 1, name);
      if nested {
        RepeatsBehind([OpenObject], tokens[1..], name);
      } else {
        assert tokens == [] + ([OpenObject] + Repeating(members, name, after));
      }
    } else {
      RepeatInItems(tokens[1..], levels - 1, name);
      RepeatsBehind([OpenArray], tokens[1..], name);
    }
  }

  lemma {:induction false} RepeatInItems(tokens: seq<Token>, levels: int, name: string)
    requires AfterItems(tokens, levels) == Err(DuplicateField(name))
    ensures RepeatsIn(tokens, name)
    decreases |tokens|, 1
  {
    if AfterValue(tokens, levels).Err? {
      RepeatInValue(tokens, levels, name);
    } else {
      var head := AcceptsTree(tokens, levels);
      RepeatInItems(AfterValue(tokens, levels).value, levels, name);
      RepeatsBehind(Tokens(head), AfterValue(tokens, levels).value, name);
    }
  }

  /** The name repeated among the members is one of theirs, or was seen before them. */
  lemma {:induction false} RepeatInMembers(tokens: seq<Token>, fields: set<string>, levels: int, name: string)
    returns (nested: bool, members: seq<Member>, after: seq<Token>)
    requires AfterMembers(tokens, fields, levels) == Err(DuplicateField(name))
    ensures if nested then RepeatsIn(tokens, name)
            else tokens == Repeating(members, name, after) && (name in fields || HasName(members, name))
    decreases |tokens|, 1
  {
    nested, members, after := false, [], [];
    var key := tokens[0].text;
    assert tokens == [tokens[0]] + tokens[1..];
    if key in fields {
      after := tokens[1..];
      assert Repeating([], name, after) == [Str(name)] + after;
    } else if AfterValue(tokens[1..], levels).Err? {
      RepeatInValue(tokens[1..], levels, name);
      RepeatsBehind([tokens[0]], tokens[1..], name);
      nested := true;
    } else {
      var value := AcceptsTree(tokens[1..], levels);
      var rest := AfterValue(tokens[1..], levels).value;
      nested, members, after := RepeatInMembers(rest, fields + {key}, levels, name);
      if nested {
        RepeatsBehind(Tokens(value), rest, name);
        RepeatsBehind([tokens[0]], tokens[1..], name);
      } else {
        RepeatingNext(Member(key, value), members, name, after);
        assert ([Member(key, value)] + members)[0].name == key;
        members := [Member(key, value)] + members;
      }
    }
  }

  /**
   For any input at all: a duplicate is reported only for a name its object really had before, so
   an input that is refused without one, as too deep or as no tree, is invalid.
   */
  lemma DuplicatesAreReal(tokens: seq<Token>, maxDepth: int, name: string)
    ensures Validate(tokens, maxDepth) == Some(DuplicateField(name)) ==> RepeatsIn(tokens, name)
  {
    if Validate(tokens, maxDepth) == Some(DuplicateField(name)) {
      RepeatInValue(tokens, maxDepth, name);
    }
  }

  /** Refused input in which no object repeats a name is invalid. */
  lemma OtherwiseInvalid(tokens: seq<Token>, maxDepth: int)
    requires forall name: string :: !RepeatsIn(tokens, name)
    ensures Validate(tokens, maxDepth) ==
            if exists t :: Serializes(tokens, t, maxDepth) then None else Some(InvalidJson)
  {
    AcceptsExactlySerializations(tokens, maxDepth);
    var result := Validate(tokens, maxDepth);
    if result.Some? && result.value.DuplicateField? {
      DuplicatesAreReal(tokens, maxDepth, result.value.name);
    }
  }

  // ---- The decoder --------------------------------------------------------------------------

  /** json.Decoder as the scan uses it: a cursor over the tokens. */
  class Decoder {
    const tokens: seq<Token>
    var position: nat

    ghost predicate Valid()
      reads this
    {
      position <= |tokens|
    }

    /** The tokens not yet consumed. */
    ghost function Rest(): seq<Token>
      requires Valid()
      reads this
    {
      tokens[position..]
    }

    constructor (tokens: seq<Token>)
      ensures Valid() && this.tokens == tokens && Rest() == tokens
    {
      this.tokens, position := tokens, 0;
    }

    method HasMore() returns (more: bool)
      requires Valid()
      ensures more == More(Rest())
    {
      more := position < |tokens| && tokens[position] != CloseObject && tokens[position] != CloseArray;
    }

    /** decoder.Token; None is io.EOF, and a rejected character sequence is no token. */
    method NextToken() returns (token: Option<Token>)
      requires Valid()
      modifies this
      ensures Valid()
      ensures token == (if old(Rest()) == [] then None else Some(old(Rest())[0]))
      ensures Rest() == if old(Rest()) == [] then [] else old(Rest())[1..]
    {
      if position == |tokens| {
        return None;
      }
      token := Some(tokens[position]);
      position := position + 1;
    }

    method ScanValue(levels: int) returns (err: Option<ScanError>)
      requires Valid()
      modifies this
      ensures Valid()
      ensures match AfterValue(old(Rest()), levels)
              case Ok(rest) => err.None? && Rest() == rest
              case Err(e) => err == Some(e)
      decreases |tokens| - position, 1
    {
      if levels < 1 {
        return Some(InvalidJson);
      }
      var token := NextToken();
      if token.None? {
        return Some(InvalidJson);
      }
      match token.value
      case OpenObject => err := ScanObject(levels - 1);
      case OpenArray => err := ScanArray(levels - 1);
      case Str(_) => err := None;
      case Scalar(_) => err := None;
      case _ => err := Some(InvalidJson);
    }

    method ScanObject(levels: int) returns (err: Option<ScanError>)
      requires Valid()
      modifies this
      ensures Valid()
      ensures match AfterMembers(old(Rest()), {}, levels)
              case Ok(rest) => err.None? && Rest() == rest
              case Err(e) => err == Some(e)
      decreases |tokens| - position, 2
    {
      var fields: set<string> := {};
      var more := HasMore();
      while more
        invariant Valid() && old(position) <= position
        invariant more == More(Rest())
        invariant AfterMembers(Rest(), fields, levels) == AfterMembers(old(Rest()), {}, levels)
        decreases |tokens| - position
      {
        var key := NextToken();
        if key.None? || !key.value.Str? {
          return Some(InvalidJson);
        }
        if key.value.text in fields {
          return Some(DuplicateField(key.value.text));
        }
        fields := fields + {key.value.text};
        err := ScanValue(levels);
        if err.Some? {
          return;
        }
        more := HasMore();
      }
      var closing := NextToken();
      if closing != Some(CloseObject) {
        return Some(InvalidJson);
      }
      err := None;
    }

    method ScanArray(levels: int) returns (err: Option<ScanError>)
      requires Valid()
      modifies this
      ensures Valid()
      ensures match AfterItems(old(Rest()), levels)
              case Ok(rest) => err.None? && Rest() == rest
              case Err(e) => err == Some(e)
      decreases |tokens| - position, 2
    {
      var more := HasMore();
      while more
        invariant Valid() && old(position) <= position
        invariant more == More(Rest())
        invariant AfterItems(Rest(), levels) == AfterItems(old(Rest()), levels)
        decreases |tokens| - position
      {
        err := ScanValue(levels);
        if err.Some? {
          return;
        }
        more := HasMore();
      }
      var closing := NextToken();
      if closing != Some(CloseArray) {
        return Some(InvalidJson);
      }
      err := None;
    }
  }

  /** validateJSONStructure accepts exactly the serializations of one tree within the limits. */
  method ValidateStructure(tokens: seq<Token>, maxDepth: int) returns (err: Option<ScanError>)
    ensures err == Validate(tokens, maxDepth)
    ensures err.None? <==> exists t :: Serializes(tokens, t, maxDepth)
  {
    var decoder := new Decoder(tokens);
    err := decoder.ScanValue(maxDepth);
    AcceptsExactlySerializations(tokens, maxDepth);
    if err.Some? {
      return;
    }
    var end := decoder.NextToken();
    if end.Some? {
      return Some(InvalidJson);
    }
  }
}
