/**
 The structural part of the log sanitizer. Values form a graph that may be cyclic: a node names
 its children by reference. Key normalization and the redaction of free text are parameters.
 */
module Sanitizer {
  import opened Wrappers

  const REDACTED := "[REDACTED]"
  const MAX_DEPTH: nat := 32

  type Ref = nat

  /** A Go value, by the case of `value` or `reflectValue` that handles it. */
  datatype Node =
    | Nil
    | Text(text: string)                                // string or []byte
    | StringLists(lists: map<string, seq<string>>)      // http.Header or map[string][]string
    | StringMap(strings: map<string, string>)
    | AnyMap(children: map<string, Ref>)
    | AnyList(items: seq<Ref>)                          // []any, or another slice or array
    | StringList(texts: seq<string>)
    | Pointer(target: Option<Ref>)
    | KeyedMap(entries: seq<(string, Ref)>)             // another map: printed keys, in iteration order
    | Struct(form: JsonForm)
    | Scalar(value: int)                                // returned as it is

  /** What encoding a struct as JSON and decoding it again gives. */
  datatype JsonForm = Unencodable | Undecodable(data: string) | Decoded(ref: Ref)

  type Graph = Ref -> Node

  /** The sanitized copy, which is a tree. */
  datatype Out =
    | OutNil
    | OutText(text: string)
    | OutLists(lists: map<string, seq<string>>)
    | OutStrings(strings: map<string, string>)
    | OutMap(children: map<string, Out>)
    | OutList(items: seq<Out>)
    | OutTexts(texts: seq<string>)
    | OutScalar(value: int)

  datatype Sanitizer = Sanitizer(keys: set<string>, normalize: string -> string, clean: string -> string)

  // ---- Sensitive keys -----------------------------------------------------------------------

  /** strings.Contains. */
  predicate Contains(s: string, part: string) {
    exists i | 0 <= i <= |s| :: part <= s[i..]
  }

  predicate IsSensitive(z: Sanitizer, key: string) {
    var k := z.normalize(key);
    k != "" && exists part <- z.keys :: Contains(k, part)
  }

  /** A key is sensitive exactly when its normal form is not empty and has a configured key somewhere inside. */
  lemma SensitiveExactly(z: Sanitizer, key: string)
    ensures IsSensitive(z, key) <==>
            z.normalize(key) != "" && exists part <- z.keys, before: string, after: string :: z.normalize(key) == before + part + after
  {
    var k := z.normalize(key);
    forall part <- z.keys
      ensures Contains(k, part) <==> exists before: string, after: string :: k == before + part + after
    {
      ContainsExactly(k, part);
    }
  }

  lemma ContainsExactly(s: string, part: string)
    ensures Contains(s, part) <==> exists before: string, after: string :: s == before + part + after
  {
    if Contains(s, part) {
      var i :| 0 <= i <= |s| && part <= s[i..];
      assert s == s[..i] + part + s[i + |part|..];
    }
    forall before: string, after: string | s == before + part + after
      ensures Contains(s, part)
    {
      assert s[|before|..] == part + after;
    }
  }

  /** The search of isSensitive: an exact hit, then every configured key as a part. */
  method CheckSensitive(z: Sanitizer, key: string) returns (sensitive: bool)
    ensures sensitive == IsSensitive(z, key)
  {
    var k := z.normalize(key);
    if k == "" {
      return false;
    }
    if k in z.keys {
      assert k <= k[0..];
      assert Contains(k, k);
      return true;
    }
    var left := z.keys;
    while left != {}
      invariant left <= z.keys && forall part <- z.keys - left :: !Contains(k, part)
      decreases |left|
    {
      var part :| part in left;
      if Contains(k, part) {
        return true;
      }
      left := left - {part};
    }
    sensitive := false;
  }

  /** New: the configured keys, normalized, without the empty ones. */
  method New(keys: seq<string>, normalize: string -> string, clean: string -> string) returns (z: Sanitizer)
    ensures z.normalize == normalize && z.clean == clean
    ensures forall part :: part in z.keys <==> part != "" && exists key <- keys :: normalize(key) == part
  {
    var collected: set<string> := {};
    var i := 0;
    while i < |keys|
      invariant 0 <= i <= |keys|
      invariant forall part :: part in collected <==> part != "" && exists key <- keys[..i] :: normalize(key) == part
    {
      assert keys[..i + 1] == keys[..i] + [keys[i]];
      if normalize(keys[i]) != "" {
        collected := collected + {normalize(keys[i])};
      }
      i := i + 1;
    }
    assert keys[..i] == keys;
    z := Sanitizer(collected, normalize, clean);
  }

  // ---- The sanitizer as a function ----------------------------------------------------------

  function Markers(n: nat): seq<string> {
    seq(n, i => REDACTED)
  }

  function CleanAll(z: Sanitizer, texts: seq<string>): seq<string> {
    seq(|texts|, i requires 0 <= i < |texts| => z.clean(texts[i]))
  }

  function CleanLists(z: Sanitizer, lists: map<string, seq<string>>): map<string, seq<string>> {
    map k <- lists :: if IsSensitive(z, k) then Markers(|lists[k]|) else CleanAll(z, lists[k])
  }

  function CleanStrings(z: Sanitizer, strings: map<string, string>): map<string, string> {
    map k <- strings :: if IsSensitive(z, k) then REDACTED else z.clean(strings[k])
  }

  /** value; sensitive keys and the depth bound come first. */
  function Sanitize(z: Sanitizer, g: Graph, key: string, ref: Ref, depth: nat): Out
    decreases MAX_DEPTH + 2 - depth, 1
  {
    if key != "" && IsSensitive(z, key) then OutText(REDACTED)
    else if g(ref).Nil? then OutNil
    else if depth > MAX_DEPTH then OutText(REDACTED)
    else SanitizeNode(z, g, g(ref), depth)
  }

  /** The cases of value and reflectValue. */
  function SanitizeNode(z: Sanitizer, g: Graph, node: Node, depth: nat): Out
    requires depth <= MAX_DEPTH
    decreases MAX_DEPTH + 2 - depth, 0
  {
    match node
    case Nil => OutNil
    case Text(text) => OutText(z.clean(text))
    case StringLists(lists) => OutLists(CleanLists(z, lists))
    case StringMap(strings) => OutStrings(CleanStrings(z, strings))
    case AnyMap(children) => OutMap(SanitizeChildren(z, g, children, depth + 1))
    case AnyList(items) => OutList(SanitizeItems(z, g, items, depth + 1))
    case StringList(texts) => OutTexts(CleanAll(z, texts))
    case Pointer(None) => OutNil
    case Pointer(Some(target)) => Sanitize(z, g, "", target, depth + 1)
    case KeyedMap(entries) => OutMap(SanitizeEntries(z, g, entries, depth + 1))
    case Struct(Unencodable) => OutText(REDACTED)
    case Struct(Undecodable(data)) => OutText(z.clean(data))
    case Struct(Decoded(decoded)) => Sanitize(z, g, "", decoded, depth + 1)
    case Scalar(value) => OutScalar(value)
  }

  function SanitizeChildren(z: Sanitizer, g: Graph, children: map<string, Ref>, depth: nat): map<string, Out>
    requires depth <= MAX_DEPTH + 1
    decreases MAX_DEPTH + 2 - depth, 2
  {
    map k <- children :: Sanitize(z, g, k, children[k], depth)
  }

  function SanitizeItems(z: Sanitizer, g: Graph, items: seq<Ref>, depth: nat): seq<Out>
    requires depth <= MAX_DEPTH + 1
    decreases MAX_DEPTH + 2 - depth, 2
  {
    seq(|items|, i requires 0 <= i < |items| => Sanitize(z, g, "", items[i], depth))
  }

  /** Entries in iteration order; a later entry with the same printed key wins. */
  function SanitizeEntries(z: Sanitizer, g: Graph, entries: seq<(string, Ref)>, depth: nat): map<string, Out>
    requires depth <= MAX_DEPTH + 1
    decreases MAX_DEPTH + 2 - depth, 2, |entries|
  {
    if entries == [] then map[]
    else
      var last := entries[|entries| - 1];
      SanitizeEntries(z, g, entries[..|entries| - 1], depth)[last.0 := Sanitize(z, g, last.0, last.1, depth)]
  }

  // ---- Nothing sensitive is left ------------------------------------------------------------

  /** Trimming and lowering an empty key, as normalizeKey does, gives an empty key. */
  predicate Proper(z: Sanitizer) {
    z.normalize("") == ""
  }

  /** Every entry under a sensitive key, at any level, is the marker or a list of markers. */
  ghost predicate Safe(z: Sanitizer, out: Out) {
    match out
    case OutLists(lists) =>
      forall k <- lists | IsSensitive(z, k) :: lists[k] == Markers(|lists[k]|)
    case OutStrings(strings) =>
      forall k <- strings | IsSensitive(z, k) :: strings[k] == REDACTED
    case OutMap(children) =>
      forall k <- children :: Safe(z, children[k]) && (IsSensitive(z, k) ==> children[k] == OutText(REDACTED))
    case OutList(items) => forall i | 0 <= i < |items| :: Safe(z, items[i])
    case _ => true
  }

  /** Below n levels nothing is left but nil and the marker. */
  ghost predicate Bounded(out: Out, n: int) {
    if n < 0 then out == OutNil || out == OutText(REDACTED)
    else
      match out
      case OutMap(children) => forall k <- children :: Bounded(children[k], n - 1)
      case OutList(items) => forall i | 0 <= i < |items| :: Bounded(items[i], n - 1)
      case _ => true
  }

  lemma {:induction false} BoundedGrows(out: Out, n: int)
    requires Bounded(out, n)
    ensures Bounded(out, n + 1)
  {
    if n >= 0 {
      match out
      case OutMap(children) =>
        forall k <- children
          ensures Bounded(children[k], n)
        {
          BoundedGrows(children[k], n - 1);
        }
      case OutList(items) =>
        forall i | 0 <= i < |items|
          ensures Bounded(items[i], n)
        {
          BoundedGrows(items[i], n - 1);
        }
      case _ =>
    }
  }

  /** On every graph, cyclic or not, the copy is redacted and nothing below depth 32 survives. */
  lemma {:induction false} SanitizedIsSafe(z: Sanitizer, g: Graph, key: string, ref: Ref, depth: nat)
    requires Proper(z)
    ensures Safe(z, Sanitize(z, g, key, ref, depth))
    ensures Bounded(Sanitize(z, g, key, ref, depth), MAX_DEPTH - depth)
    ensures IsSensitive(z, key) ==> Sanitize(z, g, key, ref, depth) == OutText(REDACTED)
    decreases MAX_DEPTH + 2 - depth, 1
  {
    if depth <= MAX_DEPTH {
      NodeIsSafe(z, g, g(ref), depth);
    }
  }

  /** Both at once. */
  ghost predicate Redacted(z: Sanitizer, out: Out, n: int) {
    Safe(z, out) && Bounded(out, n)
  }

  lemma {:induction false} NodeIsSafe(z: Sanitizer, g: Graph, node: Node, depth: nat)
    requires Proper(z) && depth <= MAX_DEPTH
    ensures Redacted(z, SanitizeNode(z, g, node, depth), MAX_DEPTH - depth)
    decreases MAX_DEPTH + 2 - depth, 0
  {
    match node
    case AnyMap(children) => ChildrenAreSafe(z, g, children, depth + 1);
    case AnyList(items) => ItemsAreSafe(z, g, items, depth + 1);
    case Pointer(Some(target)) => TargetIsSafe(z, g, target, depth + 1);
    case Struct(Decoded(decoded)) => TargetIsSafe(z, g, decoded, depth + 1);
    case KeyedMap(entries) => EntriesAreSafe(z, g, entries, depth + 1);
    case _ => FlatIsSafe(z, g, node, depth);
  }

  lemma FlatIsSafe(z: Sanitizer, g: Graph, node: Node, depth: nat)
    requires depth <= MAX_DEPTH
    requires !node.AnyMap? && !node.AnyList? && !node.KeyedMap?
    requires (node.Pointer? ==> node.target.None?) && (node.Struct? ==> !node.form.Decoded?)
    ensures Redacted(z, SanitizeNode(z, g, node, depth), MAX_DEPTH - depth)
  {
    match node
    case StringLists(lists) => assert Safe(z, OutLists(CleanLists(z, lists)));
    case StringMap(strings) => assert Safe(z, OutStrings(CleanStrings(z, strings)));
    case _ =>
  }

  ghost predicate SafeMap(z: Sanitizer, out: map<string, Out>, n: int) {
    forall k <- out ::
      Safe(z, out[k]) && Bounded(out[k], n) && (IsSensitive(z, k) ==> out[k] == OutText(REDACTED))
  }

  ghost predicate SafeList(z: Sanitizer, out: seq<Out>, n: int) {
    forall i | 0 <= i < |out| :: Safe(z, out[i]) && Bounded(out[i], n)
  }

  lemma MapIsSafe(z: Sanitizer, out: map<string, Out>, n: nat)
    requires SafeMap(z, out, n - 1)
    ensures Redacted(z, OutMap(out), n)
  {
  }

  lemma ListIsSafe(z: Sanitizer, out: seq<Out>, n: nat)
    requires SafeList(z, out, n - 1)
    ensures Redacted(z, OutList(out), n)
  {
  }

  lemma TargetIsSafe(z: Sanitizer, g: Graph, target: Ref, depth: nat)
    requires Proper(z) && depth <= MAX_DEPTH + 1
    ensures Redacted(z, Sanitize(z, g, "", target, depth), MAX_DEPTH - depth + 1)
    decreases MAX_DEPTH + 2 - depth, 2
  {
    SanitizedIsSafe(z, g, "", target, depth);
    BoundedGrows(Sanitize(z, g, "", target, depth), MAX_DEPTH - depth);
  }

  lemma ChildrenAreSafe(z: Sanitizer, g: Graph, children: map<string, Ref>, depth: nat)
    requires Proper(z) && depth <= MAX_DEPTH + 1
    ensures Redacted(z, OutMap(SanitizeChildren(z, g, children, depth)), MAX_DEPTH - depth + 1)
    decreases MAX_DEPTH + 2 - depth, 2
  {
    forall k <- children {
      SanitizedIsSafe(z, g, k, children[k], depth);
    }
    MapIsSafe(z, SanitizeChildren(z, g, children, depth), MAX_DEPTH - depth + 1);
  }

  lemma ItemsAreSafe(z: Sanitizer, g: Graph, items: seq<Ref>, depth: nat)
    requires Proper(z) && depth <= MAX_DEPTH + 1
    ensures Redacted(z, OutList(SanitizeItems(z, g, items, depth)), MAX_DEPTH - depth + 1)
    decreases MAX_DEPTH + 2 - depth, 2
  {
    forall i | 0 <= i < |items| {
      SanitizedIsSafe(z, g, "", items[i], depth);
    }
    ListIsSafe(z, SanitizeItems(z, g, items, depth), MAX_DEPTH - depth + 1);
  }

  lemma EntriesAreSafe(z: Sanitizer, g: Graph, entries: seq<(string, Ref)>, depth: nat)
    requires Proper(z) && depth <= MAX_DEPTH + 1
    ensures Redacted(z, OutMap(SanitizeEntries(z, g, entries, depth)), MAX_DEPTH - depth + 1)
    decreases MAX_DEPTH + 2 - depth, 3
  {
    EachEntryIsSafe(z, g, entries, depth);
    MapIsSafe(z, SanitizeEntries(z, g, entries, depth), MAX_DEPTH - depth + 1);
  }

  lemma {:induction false} EachEntryIsSafe(z: Sanitizer, g: Graph, entries: seq<(string, Ref)>, depth: nat)
    requires Proper(z) && depth <= MAX_DEPTH + 1
    ensures SafeMap(z, SanitizeEntries(z, g, entries, depth), MAX_DEPTH - depth)
    decreases MAX_DEPTH + 2 - depth, 2, |entries|
  {
    if entries != [] {
      var last := entries[|entries| - 1];
      EachEntryIsSafe(z, g, entries[..|entries| - 1], depth);
      SanitizedIsSafe(z, g, last.0, last.1, depth);
    }
  }

  // ---- What is hidden does not show ---------------------------------------------------------

  ghost predicate AlikeChildren(z: Sanitizer, p: map<string, Ref>, q: map<string, Ref>) {
    p.Keys == q.Keys && forall k <- p :: !IsSensitive(z, k) ==> p[k] == q[k]
  }

  ghost predicate AlikeEntries(z: Sanitizer, p: seq<(string, Ref)>, q: seq<(string, Ref)>) {
    |p| == |q| && forall i | 0 <= i < |p| :: p[i].0 == q[i].0 && (!IsSensitive(z, p[i].0) ==> p[i].1 == q[i].1)
  }

  /**
   Two nodes a reader may not tell apart: equal but for what stands under sensitive keys. A list
   of header values under a sensitive key still shows its length.
   */
  ghost predicate Alike(z: Sanitizer, a: Node, b: Node) {
    match (a, b)
    case (StringLists(p), StringLists(q)) =>
      p.Keys == q.Keys && forall k <- p :: if IsSensitive(z, k) then |p[k]| == |q[k]| else p[k] == q[k]
    case (StringMap(p), StringMap(q)) =>
      p.Keys == q.Keys && forall k <- p :: !IsSensitive(z, k) ==> p[k] == q[k]
    case (AnyMap(p), AnyMap(q)) => AlikeChildren(z, p, q)
    case (KeyedMap(p), KeyedMap(q)) => AlikeEntries(z, p, q)
    case _ => a == b
  }

  /** The values a node names under no sensitive key. */
  function Shown(z: Sanitizer, node: Node): set<Ref> {
    match node
    case AnyMap(children) => set k <- children | !IsSensitive(z, k) :: children[k]
    case AnyList(items) => set r <- items
    case Pointer(Some(target)) => {target}
    case Struct(Decoded(decoded)) => {decoded}
    case KeyedMap(entries) => set e <- entries | !IsSensitive(z, e.0) :: e.1
    case _ => {}
  }

  /**
   `shown` holds of every value that can be reached at that depth under no sensitive key, and
   there the two graphs are alike. Beyond the depth bound they need agree on nil alone.
   */
  ghost predicate AlikeWhereShown(z: Sanitizer, g: Graph, h: Graph, shown: (Ref, nat) -> bool) {
    && (forall r: Ref, d: nat | shown(r, d) :: if d <= MAX_DEPTH then Alike(z, g(r), h(r)) else g(r).Nil? == h(r).Nil?)
    && (forall r: Ref, d: nat | shown(r, d) && d <= MAX_DEPTH :: forall child <- Shown(z, g(r)) :: shown(child, d + 1))
  }

  /**
   Noninterference: whatever stands under sensitive keys or beyond the depth bound may change at
   will, and the sanitized copy stays the same.
   */
  lemma {:induction false} HiddenDoesNotShow(
      z: Sanitizer, g: Graph, h: Graph, shown: (Ref, nat) -> bool, key: string, ref: Ref, depth: nat)
    requires Proper(z) && AlikeWhereShown(z, g, h, shown)
    requires shown(ref, depth) || IsSensitive(z, key)
    ensures Sanitize(z, g, key, ref, depth) == Sanitize(z, h, key, ref, depth)
    decreases MAX_DEPTH + 2 - depth, 1
  {
    if !IsSensitive(z, key) && depth <= MAX_DEPTH {
      HiddenInNode(z, g, h, shown, g(ref), h(ref), depth);
    }
  }

  lemma {:induction false} HiddenInNode(
      z: Sanitizer, g: Graph, h: Graph, shown: (Ref, nat) -> bool, a: Node, b: Node, depth: nat)
    requires Proper(z) && AlikeWhereShown(z, g, h, shown) && depth <= MAX_DEPTH && Alike(z, a, b)
    requires forall child <- Shown(z, a) :: shown(child, depth + 1)
    ensures SanitizeNode(z, g, a, depth) == SanitizeNode(z, h, b, depth)
    decreases MAX_DEPTH + 2 - depth, 0
  {
    assert a.Pointer? && a.target.Some? ==> a.target.value in Shown(z, a);
    assert a.Struct? && a.form.Decoded? ==> a.form.ref in Shown(z, a);
    match a
    case AnyMap(children) => HiddenChildren(z, g, h, shown, children, b.children, depth + 1);
    case AnyList(items) => HiddenItems(z, g, h, shown, items, depth + 1);
    case Pointer(Some(target)) => HiddenDoesNotShow(z, g, h, shown, "", target, depth + 1);
    case Struct(Decoded(decoded)) => HiddenDoesNotShow(z, g, h, shown, "", decoded, depth + 1);
    case KeyedMap(entries) => HiddenEntries(z, g, h, shown, entries, b.entries, depth + 1);
    case StringLists(lists) => HiddenLists(z, lists, b.lists);
    case StringMap(strings) => HiddenStrings(z, strings, b.strings);
    case _ =>
  }

  lemma HiddenLists(z: Sanitizer, p: map<string, seq<string>>, q: map<string, seq<string>>)
    requires Alike(z, StringLists(p), StringLists(q))
    ensures CleanLists(z, p) == CleanLists(z, q)
  {
  }

  lemma HiddenStrings(z: Sanitizer, p: map<string, string>, q: map<string, string>)
    requires Alike(z, StringMap(p), StringMap(q))
    ensures CleanStrings(z, p) == CleanStrings(z, q)
  {
  }

  lemma HiddenItems(z: Sanitizer, g: Graph, h: Graph, shown: (Ref, nat) -> bool, items: seq<Ref>, depth: nat)
    requires Proper(z) && AlikeWhereShown(z, g, h, shown) && depth <= MAX_DEPTH + 1
    requires forall child <- Shown(z, AnyList(items)) :: shown(child, depth)
    ensures SanitizeItems(z, g, items, depth) == SanitizeItems(z, h, items, depth)
    decreases MAX_DEPTH + 2 - depth, 2
  {
    forall i | 0 <= i < |items|
      ensures Sanitize(z, g, "", items[i], depth) == Sanitize(z, h, "", items[i], depth)
    {
      assert items[i] in Shown(z, AnyList(items));
      HiddenDoesNotShow(z, g, h, shown, "", items[i], depth);
    }
  }

  lemma HiddenChildren(
      z: Sanitizer, g: Graph, h: Graph, shown: (Ref, nat) -> bool, p: map<string, Ref>, q: map<string, Ref>, depth: nat)
    requires Proper(z) && AlikeWhereShown(z, g, h, shown) && depth <= MAX_DEPTH + 1
    requires AlikeChildren(z, p, q)
    requires forall child <- Shown(z, AnyMap(p)) :: shown(child, depth)
    ensures SanitizeChildren(z, g, p, depth) == SanitizeChildren(z, h, q, depth)
    decreases MAX_DEPTH + 2 - depth, 2
  {
    forall k <- p
      ensures Sanitize(z, g, k, p[k], depth) == Sanitize(z, h, k, q[k], depth)
    {
      assert !IsSensitive(z, k) ==> p[k] in Shown(z, AnyMap(p));
      HiddenDoesNotShow(z, g, h, shown, k, p[k], depth);
    }
  }

  lemma {:induction false} HiddenEntries(
      z: Sanitizer, g: Graph, h: Graph, shown: (Ref, nat) -> bool,
      p: seq<(string, Ref)>, q: seq<(string, Ref)>, depth: nat)
    requires Proper(z) && AlikeWhereShown(z, g, h, shown) && depth <= MAX_DEPTH + 1
    requires AlikeEntries(z, p, q)
    requires forall child <- Shown(z, KeyedMap(p)) :: shown(child, depth)
    ensures SanitizeEntries(z, g, p, depth) == SanitizeEntries(z, h, q, depth)
    decreases MAX_DEPTH + 2 - depth, 2, |p|
  {
    if p != [] {
      var n := |p| - 1;
      assert Shown(z, KeyedMap(p[..n])) <= Shown(z, KeyedMap(p));
      HiddenEntries(z, g, h, shown, p[..n], q[..n], depth);
      assert p[n] in p && (!IsSensitive(z, p[n].0) ==> p[n].1 in Shown(z, KeyedMap(p)));
      HiddenDoesNotShow(z, g, h, shown, p[n].0, p[n].1, depth);
    }
  }

  // ---- What is not hidden is kept in place --------------------------------------------------

  /** A step into a value; `Deref` is one the copy does not show. */
  datatype Select = Key(key: string) | Index(index: nat) | Deref

  /** The last entry with the key, which is the one that stays. */
  function LastEntry(entries: seq<(string, Ref)>, key: string): Option<Ref> {
    if entries == [] then None
    else if entries[|entries| - 1].0 == key then Some(entries[|entries| - 1].1)
    else LastEntry(entries[..|entries| - 1], key)
  }

  function StepInto(node: Node, select: Select): Option<Ref> {
    match (node, select)
    case (AnyMap(children), Key(k)) => if k in children then Some(children[k]) else None
    case (KeyedMap(entries), Key(k)) => LastEntry(entries, k)
    case (AnyList(items), Index(i)) => if i < |items| then Some(items[i]) else None
    case (Pointer(target), Deref) => target
    case (Struct(Decoded(decoded)), Deref) => Some(decoded)
    case _ => None
  }

  function Follow(g: Graph, ref: Ref, path: seq<Select>): Option<Ref>
    decreases |path|
  {
    if path == [] then Some(ref)
    else
      match StepInto(g(ref), path[0])
      case None => None
      case Some(child) => Follow(g, child, path[1..])
  }

  function Lookup(out: Out, path: seq<Select>): Option<Out>
    decreases |path|
  {
    if path == [] then Some(out)
    else
      match (out, path[0])
      case (_, Deref) => Lookup(out, path[1..])
      case (OutMap(children), Key(k)) => if k in children then Lookup(children[k], path[1..]) else None
      case (OutList(items), Index(i)) => if i < |items| then Lookup(items[i], path[1..]) else None
      case _ => None
  }

  ghost predicate Public(z: Sanitizer, path: seq<Select>) {
    forall i | 0 <= i < |path| && path[i].Key? :: !IsSensitive(z, path[i].key)
  }

  lemma {:induction false} LastEntryStays(z: Sanitizer, g: Graph, entries: seq<(string, Ref)>, key: string, depth: nat)
    requires depth <= MAX_DEPTH + 1
    ensures var out := SanitizeEntries(z, g, entries, depth);
            match LastEntry(entries, key)
            case None => key !in out
            case Some(child) => key in out && out[key] == Sanitize(z, g, key, child, depth)
    decreases |entries|
  {
    if entries != [] {
      LastEntryStays(z, g, entries[..|entries| - 1], key, depth);
    }
  }

  function KeyOf(select: Select): string {
    if select.Key? then select.key else ""
  }

  lemma StepIsKept(z: Sanitizer, g: Graph, node: Node, path: seq<Select>, depth: nat)
    requires path != [] && depth <= MAX_DEPTH && StepInto(node, path[0]).Some?
    ensures Lookup(SanitizeNode(z, g, node, depth), path)
         == Lookup(Sanitize(z, g, KeyOf(path[0]), StepInto(node, path[0]).value, depth + 1), path[1..])
  {
    if node.KeyedMap? {
      LastEntryStays(z, g, node.entries, path[0].key, depth + 1);
    }
  }

  /** The key a value is reached by. */
  function LastKey(key: string, path: seq<Select>): string {
    if path == [] then key else KeyOf(path[|path| - 1])
  }

  /**
   A value at most 33 steps away, with no sensitive key before the last step, has its sanitized
   form at the same path of the copy: the marker if the last key is sensitive, and otherwise
   what the value itself becomes.
   */
  lemma {:induction false} PathsAreKept(
      z: Sanitizer, g: Graph, key: string, ref: Ref, path: seq<Select>, depth: nat)
    requires Proper(z) && depth + |path| <= MAX_DEPTH + 1 && Follow(g, ref, path).Some?
    requires path != [] ==> !IsSensitive(z, key) && Public(z, path[..|path| - 1])
    ensures Lookup(Sanitize(z, g, key, ref, depth), path)
         == Some(Sanitize(z, g, LastKey(key, path), Follow(g, ref, path).value, depth + |path|))
    decreases |path|
  {
    if path != [] {
      var child := StepInto(g(ref), path[0]).value;
      StepIsKept(z, g, g(ref), path, depth);
      if |path| > 1 {
        assert path[..|path| - 1][0] == path[0];
        assert path[1..][..|path| - 2] == path[..|path| - 1][1..];
      }
      PathsAreKept(z, g, KeyOf(path[0]), child, path[1..], depth + 1);
    }
  }

  predicate HasEntry(entries: seq<(string, Ref)>, key: string) {
    exists e <- entries :: e.0 == key
  }

  /** What the source promises of a value of each kind, when it is shown. */
  ghost predicate Becomes(z: Sanitizer, node: Node, out: Out) {
    match node
    case Nil => out == OutNil
    case Text(text) => out == OutText(z.clean(text))
    case Scalar(value) => out == OutScalar(value)
    case StringList(texts) =>
      out.OutTexts? && |out.texts| == |texts| && forall i | 0 <= i < |texts| :: out.texts[i] == z.clean(texts[i])
    case StringMap(strings) =>
      && out.OutStrings? && out.strings.Keys == strings.Keys
      && forall k <- strings :: out.strings[k] == if IsSensitive(z, k) then "[REDACTED]" else z.clean(strings[k])
    case StringLists(lists) =>
      && out.OutLists? && out.lists.Keys == lists.Keys
      && forall k <- lists :: |out.lists[k]| == |lists[k]| &&
           forall i | 0 <= i < |lists[k]| :: out.lists[k][i] == if IsSensitive(z, k) then "[REDACTED]" else z.clean(lists[k][i])
    case AnyMap(children) => out.OutMap? && out.children.Keys == children.Keys
    case AnyList(items) => out.OutList? && |out.items| == |items|
    case KeyedMap(entries) => out.OutMap? && forall k: string :: k in out.children <==> HasEntry(entries, k)
    case Pointer(None) => out == OutNil
    case Struct(Unencodable) => out == OutText("[REDACTED]")
    case Struct(Undecodable(data)) => out == OutText(z.clean(data))
    case _ => true
  }

  lemma {:induction false} EntryKeys(z: Sanitizer, g: Graph, entries: seq<(string, Ref)>, depth: nat, k: string)
    requires depth <= MAX_DEPTH + 1
    ensures k in SanitizeEntries(z, g, entries, depth) <==> HasEntry(entries, k)
    decreases |entries|
  {
    if entries != [] {
      var front, last := entries[..|entries| - 1], entries[|entries| - 1];
      EntryKeys(z, g, front, depth, k);
      assert forall e <- entries :: e in front || e == last;
      assert last in entries && forall e <- front :: e in entries;
    }
  }

  lemma NodeBecomes(z: Sanitizer, g: Graph, node: Node, depth: nat)
    requires depth <= MAX_DEPTH
    ensures Becomes(z, node, SanitizeNode(z, g, node, depth))
  {
    if node.KeyedMap? {
      forall k: string
        ensures k in SanitizeEntries(z, g, node.entries, depth + 1) <==> HasEntry(node.entries, k)
      {
        EntryKeys(z, g, node.entries, depth + 1, k);
      }
    }
  }

  /**
   A value at most 32 steps away, under no sensitive key, is shown at the same path as what its kind
   becomes: free text cleaned, string maps and lists cleaned or redacted entry by entry, other
   scalars as they are, and maps and lists with the same keys and length. Where a pointer or struct
   leads on, that is the value one step further.
   */
  lemma ShownValuesBecome(z: Sanitizer, g: Graph, ref: Ref, path: seq<Select>)
    requires Proper(z) && |path| <= MAX_DEPTH && Public(z, path) && Follow(g, ref, path).Some?
    ensures var shown := Lookup(Sanitize(z, g, "", ref, 0), path);
            shown.Some? && Becomes(z, g(Follow(g, ref, path).value), shown.value)
  {
    PathsAreKept(z, g, "", ref, path, 0);
    assert path != [] ==> path[|path| - 1].Key? ==> !IsSensitive(z, path[|path| - 1].key);
    NodeBecomes(z, g, g(Follow(g, ref, path).value), |path|);
  }

  /** A value 33 steps away is gone, unless it is nil. */
  lemma DeepValuesAreMarked(z: Sanitizer, g: Graph, ref: Ref, path: seq<Select>)
    requires Proper(z) && |path| == 33 && Public(z, path) && Follow(g, ref, path).Some?
    ensures Lookup(Sanitize(z, g, "", ref, 0), path)
         == Some(if g(Follow(g, ref, path).value).Nil? then OutNil else OutText("[REDACTED]"))
  {
    PathsAreKept(z, g, "", ref, path, 0);
    assert path[32].Key? ==> !IsSensitive(z, path[32].key);
  }

  // ---- The loops ----------------------------------------------------------------------------

  /** Enabled. */
  predicate Enabled(z: Sanitizer) {
    z.keys != {}
  }

  method MarkAll(values: seq<string>) returns (out: array<string>)
    ensures out[..] == Markers(|values|)
  {
    out := new string[|values|];
    for i := 0 to |values|
      invariant forall j | 0 <= j < i :: out[j] == REDACTED
    {
      out[i] := REDACTED;
    }
  }

  method CleanEach(z: Sanitizer, values: seq<string>) returns (out: array<string>)
    ensures out[..] == CleanAll(z, values)
  {
    out := new string[|values|];
    for i := 0 to |values|
      invariant forall j | 0 <= j < i :: out[j] == z.clean(values[j])
    {
      out[i] := z.clean(values[i]);
    }
  }

  /** The loop of Headers, and of value on a map[string][]string. */
  method CleanHeaders(z: Sanitizer, headers: map<string, seq<string>>) returns (out: map<string, seq<string>>)
    ensures out == CleanLists(z, headers)
  {
    out := map[];
    var left := headers.Keys;
    while left != {}
      invariant left <= headers.Keys && out.Keys == headers.Keys - left
      invariant forall k <- out :: out[k] == CleanLists(z, headers)[k]
      decreases |left|
    {
      var key :| key in left;
      left := left - {key};
      var values: array<string>;
      var sensitive := CheckSensitive(z, key);
      if sensitive {
        values := MarkAll(headers[key]);
      } else {
        values := CleanEach(z, headers[key]);
      }
      out := out[key := values[..]];
    }
  }

  method CleanStringMap(z: Sanitizer, strings: map<string, string>) returns (out: map<string, string>)
    ensures out == CleanStrings(z, strings)
  {
    out := map[];
    var left := strings.Keys;
    while left != {}
      invariant left <= strings.Keys && out.Keys == strings.Keys - left
      invariant forall k <- out :: out[k] == CleanStrings(z, strings)[k]
      decreases |left|
    {
      var key :| key in left;
      left := left - {key};
      var sensitive := CheckSensitive(z, key);
      out := out[key := if sensitive then REDACTED else z.clean(strings[key])];
    }
  }

  /** Headers; a nil or disabled call gives the headers back. */
  method Headers(z: Sanitizer, headers: Option<map<string, seq<string>>>) returns (out: Option<map<string, seq<string>>>)
    ensures out == if headers.None? || z.keys == {} then headers else Some(CleanLists(z, headers.value))
    ensures headers.Some? && z.keys != {} ==> Becomes(z, StringLists(headers.value), OutLists(out.value))
  {
    if headers.None? || !Enabled(z) {
      return headers;
    }
    var cleaned := CleanHeaders(z, headers.value);
    out := Some(cleaned);
  }

  /** Value; None stands for the value itself, which a disabled sanitizer gives back. */
  method Value(z: Sanitizer, g: Graph, ref: Ref) returns (out: Option<Out>)
    ensures out == if z.keys == {} then None else Some(Sanitize(z, g, "", ref, 0))
    ensures Proper(z) && out.Some? ==> Safe(z, out.value) && Bounded(out.value, 32) && Becomes(z, g(ref), out.value)
  {
    if !Enabled(z) {
      return None;
    }
    var value := ValueOf(z, g, "", ref, 0);
    if Proper(z) {
      SanitizedIsSafe(z, g, "", ref, 0);
      assert Follow(g, ref, []) == Some(ref) && Lookup(value, []) == Some(value);
      ShownValuesBecome(z, g, ref, []);
    }
    out := Some(value);
  }

  method ValueOf(z: Sanitizer, g: Graph, key: string, ref: Ref, depth: nat) returns (out: Out)
    ensures out == Sanitize(z, g, key, ref, depth)
    decreases MAX_DEPTH + 2 - depth, 1
  {
    if key != "" {
      var sensitive := CheckSensitive(z, key);
      if sensitive {
        return OutText(REDACTED);
      }
    }
    if g(ref).Nil? {
      return OutNil;
    }
    if depth > MAX_DEPTH {
      return OutText(REDACTED);
    }
    out := ValueOfNode(z, g, g(ref), depth);
  }

  method ValueOfNode(z: Sanitizer, g: Graph, node: Node, depth: nat) returns (out: Out)
    requires depth <= MAX_DEPTH
    ensures out == SanitizeNode(z, g, node, depth)
    decreases MAX_DEPTH + 2 - depth, 0
  {
    match node
    case StringLists(lists) =>
      var cleaned := CleanHeaders(z, lists);
      out := OutLists(cleaned);
    case StringMap(strings) =>
      var cleaned := CleanStringMap(z, strings);
      out := OutStrings(cleaned);
    case AnyMap(children) =>
      var cleaned := ValueOfChildren(z, g, children, depth + 1);
      out := OutMap(cleaned);
    case AnyList(items) =>
      var cleaned := ValueOfItems(z, g, items, depth + 1);
      out := OutList(cleaned);
    case StringList(texts) =>
      var cleaned := CleanEach(z, texts);
      out := OutTexts(cleaned[..]);
    case Pointer(Some(target)) => out := ValueOf(z, g, "", target, depth + 1);
    case KeyedMap(entries) =>
      var cleaned := ValueOfEntries(z, g, entries, depth + 1);
      out := OutMap(cleaned);
    case Struct(Decoded(decoded)) => out := ValueOf(z, g, "", decoded, depth + 1);
    case Nil => out := OutNil;
    case Pointer(None) => out := OutNil;
    case Text(text) => out := OutText(z.clean(text));
    case Struct(Unencodable) => out := OutText(REDACTED);
    case Struct(Undecodable(data)) => out := OutText(z.clean(data));
    case Scalar(value) => out := OutScalar(value);
  }

  method ValueOfChildren(z: Sanitizer, g: Graph, children: map<string, Ref>, depth: nat) returns (out: map<string, Out>)
    requires depth <= MAX_DEPTH + 1
    ensures out == SanitizeChildren(z, g, children, depth)
    decreases MAX_DEPTH + 2 - depth, 2
  {
    out := map[];
    var left := children.Keys;
    while left != {}
      invariant left <= children.Keys && out.Keys == children.Keys - left
      invariant forall k <- out :: out[k] == Sanitize(z, g, k, children[k], depth)
      decreases |left|
    {
      var key :| key in left;
      left := left - {key};
      var value := ValueOf(z, g, key, children[key], depth);
      out := out[key := value];
    }
  }

  method ValueOfItems(z: Sanitizer, g: Graph, items: seq<Ref>, depth: nat) returns (out: seq<Out>)
    requires depth <= MAX_DEPTH + 1
    ensures out == SanitizeItems(z, g, items, depth)
    decreases MAX_DEPTH + 2 - depth, 2
  {
    out := [];
    for i := 0 to |items|
      invariant |out| == i
      invariant forall j | 0 <= j < i :: out[j] == Sanitize(z, g, "", items[j], depth)
    {
      var value := ValueOf(z, g, "", items[i], depth);
      out := out + [value];
    }
  }

  method ValueOfEntries(z: Sanitizer, g: Graph, entries: seq<(string, Ref)>, depth: nat) returns (out: map<string, Out>)
    requires depth <= MAX_DEPTH + 1
    ensures out == SanitizeEntries(z, g, entries, depth)
    decreases MAX_DEPTH + 2 - depth, 2
  {
    out := map[];
    for i := 0 to |entries|
      invariant out == SanitizeEntries(z, g, entries[..i], depth)
    {
      assert entries[..i + 1][..i] == entries[..i];
      var value := ValueOf(z, g, entries[i].0, entries[i].1, depth);
      out := out[entries[i].0 := value];
    }
    assert entries[..|entries|] == entries;
  }
}
