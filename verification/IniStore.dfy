/**
 parseINI as it works: the nested maps live in a store and are changed in place, and the builder
 walks down to the map it changes.
 */
module IniStore {
  import opened Wrappers
  import opened GoStrings
  import opened Ini

  /** What a map holds under a key: a value, another map of the store, or a list made by a repeated key. */
  datatype Cell = Plain(value: Val) | Link(ref: nat) | Many(cells: seq<Cell>)

  type Table = map<Bytes, Cell>
  type Store = seq<Table>

  /** The place of a map: the key of the map that holds it. */
  type Place = (nat, Bytes)

  // ---- The settings a store stands for ------------------------------------------------------

  /** The map at `ref`, as a value; maps are made after the map that holds them. */
  ghost function MapAt(nodes: Store, ref: nat): Settings
    decreases |nodes| - ref, 1
  {
    if ref >= |nodes| then map[] else map k <- nodes[ref] :: ValueOf(nodes, nodes[ref][k], ref)
  }

  ghost function ValueOf(nodes: Store, cell: Cell, ref: nat): Val
    requires ref < |nodes|
    decreases |nodes| - ref, 0, cell
  {
    match cell
    case Plain(value) => value
    case Link(child) => Node(if ref < child < |nodes| then MapAt(nodes, child) else map[])
    case Many(cells) => List(seq(|cells|, i requires 0 <= i < |cells| => ValueOf(nodes, cells[i], ref)))
  }

  ghost predicate LinksTo(cell: Cell, ref: nat) {
    match cell
    case Plain(_) => false
    case Link(child) => child == ref
    case Many(cells) => exists c <- cells :: LinksTo(c, ref)
  }

  /** No map is held in two places, and none by a later one. */
  ghost predicate Owned(nodes: Store, home: seq<Place>) {
    && |home| == |nodes|
    && forall r, k | 0 <= r < |nodes| && k in nodes[r] :: AllLinksFrom(nodes[r][k], home, r, k)
  }

  ghost predicate AllLinksFrom(cell: Cell, home: seq<Place>, r: nat, k: Bytes) {
    forall x: nat | LinksTo(cell, x) :: r < x < |home| && home[x] == (r, k)
  }

  /** No line assigns a map, so a key that leads on is always a link. */
  ghost predicate NoPlainNode(nodes: Store) {
    forall r, k | 0 <= r < |nodes| && k in nodes[r] :: nodes[r][k].Plain? ==> !nodes[r][k].value.Node?
  }

  // ---- The way down -------------------------------------------------------------------------

  /** The maps passed on the way down from the root along the path. */
  ghost predicate Trail(nodes: Store, trail: seq<nat>, path: Path) {
    && 0 < |trail| <= |path| && trail[0] == 0
    && (forall j | 0 <= j < |trail| :: trail[j] < |nodes|)
    && (forall j | 0 <= j < |trail| - 1 ::
          path[j] in nodes[trail[j]] && nodes[trail[j]][path[j]] == Link(trail[j + 1]))
  }

  function Last(trail: seq<nat>): nat
    requires trail != []
  {
    trail[|trail| - 1]
  }

  /** Only the map at `ref` was changed; new ones may have been made. */
  ghost predicate OnlyChanged(was: Store, nodes: Store, ref: nat) {
    |was| <= |nodes| && forall r | 0 <= r < |was| && r != ref :: nodes[r] == was[r]
  }

  lemma {:induction false} TrailGrows(nodes: Store, home: seq<Place>, trail: seq<nat>, path: Path, i: nat, j: nat)
    requires Owned(nodes, home) && Trail(nodes, trail, path) && i < j < |trail|
    ensures trail[i] < trail[j]
    decreases j - i
  {
    assert AllLinksFrom(nodes[trail[j - 1]][path[j - 1]], home, trail[j - 1], path[j - 1]);
    assert LinksTo(nodes[trail[j - 1]][path[j - 1]], trail[j]);
    if i < j - 1 {
      TrailGrows(nodes, home, trail, path, i, j - 1);
    }
  }

  /** A cell off the trail links to no map of the trail. */
  lemma OffTheTrail(nodes: Store, home: seq<Place>, trail: seq<nat>, path: Path, r: nat, k: Bytes, x: nat)
    requires Owned(nodes, home) && Trail(nodes, trail, path)
    requires r < |nodes| && k in nodes[r] && LinksTo(nodes[r][k], x)
    requires forall j | 0 <= j < |trail| - 1 :: trail[j] == r ==> path[j] != k
    ensures x !in trail
  {
    assert AllLinksFrom(nodes[r][k], home, r, k);
    forall j | 0 <= j < |trail|
      ensures trail[j] != x
    {
      if j > 0 {
        assert AllLinksFrom(nodes[trail[j - 1]][path[j - 1]], home, trail[j - 1], path[j - 1]);
        assert LinksTo(nodes[trail[j - 1]][path[j - 1]], trail[j]);
      }
    }
  }

  lemma {:induction false} SameCell(was: Store, nodes: Store, home: seq<Place>, trail: seq<nat>, path: Path, cell: Cell, ref: nat)
    requires Owned(was, home) && Trail(was, trail, path) && OnlyChanged(was, nodes, Last(trail))
    requires ref < |was| && forall x: nat | LinksTo(cell, x) :: ref < x < |was| && x !in trail
    ensures ValueOf(nodes, cell, ref) == ValueOf(was, cell, ref)
    decreases |was| - ref, 0, cell
  {
    match cell
    case Plain(_) =>
    case Link(child) =>
      assert LinksTo(cell, child);
      SameMap(was, nodes, home, trail, path, child);
    case Many(cells) =>
      forall i | 0 <= i < |cells|
        ensures ValueOf(nodes, cells[i], ref) == ValueOf(was, cells[i], ref)
      {
        assert forall x: nat | LinksTo(cells[i], x) :: LinksTo(cell, x);
        SameCell(was, nodes, home, trail, path, cells[i], ref);
      }
  }

  /** A map off the trail stays what it was. */
  lemma {:induction false} SameMap(was: Store, nodes: Store, home: seq<Place>, trail: seq<nat>, path: Path, ref: nat)
    requires Owned(was, home) && Trail(was, trail, path) && OnlyChanged(was, nodes, Last(trail))
    requires ref < |was| && ref !in trail
    ensures MapAt(nodes, ref) == MapAt(was, ref)
    decreases |was| - ref, 1
  {
    forall k <- was[ref]
      ensures ValueOf(nodes, was[ref][k], ref) == ValueOf(was, was[ref][k], ref)
    {
      forall x: nat | LinksTo(was[ref][k], x)
        ensures x !in trail
      {
        OffTheTrail(was, home, trail, path, ref, k, x);
      }
      assert AllLinksFrom(was[ref][k], home, ref, k);
      SameCell(was, nodes, home, trail, path, was[ref][k], ref);
    }
  }

  /** On the trail, only the key that leads on may hold something else. */
  lemma SameBeside(was: Store, nodes: Store, home: seq<Place>, trail: seq<nat>, path: Path, j: nat, k: Bytes)
    requires Owned(was, home) && Trail(was, trail, path) && OnlyChanged(was, nodes, Last(trail))
    requires j < |trail| && k in was[trail[j]] && (j < |trail| - 1 ==> k != path[j])
    ensures ValueOf(nodes, was[trail[j]][k], trail[j]) == ValueOf(was, was[trail[j]][k], trail[j])
  {
    var ref := trail[j];
    forall i | 0 <= i < |trail| && i != j
      ensures trail[i] != ref
    {
      TrailGrows(was, home, trail, path, if i < j then i else j, if i < j then j else i);
    }
    forall x: nat | LinksTo(was[ref][k], x)
      ensures x !in trail
    {
      OffTheTrail(was, home, trail, path, ref, k, x);
    }
    assert AllLinksFrom(was[ref][k], home, ref, k);
    SameCell(was, nodes, home, trail, path, was[ref][k], ref);
  }

  /** A map above the changed one is what it was but for the map that leads on. */
  lemma OneUp(was: Store, nodes: Store, home: seq<Place>, trail: seq<nat>, path: Path, j: nat)
    requires Owned(was, home) && Trail(was, trail, path) && OnlyChanged(was, nodes, Last(trail))
    requires j < |trail| - 1
    ensures MapAt(nodes, trail[j]) == MapAt(was, trail[j])[path[j] := Node(MapAt(nodes, trail[j + 1]))]
    ensures Child(MapAt(was, trail[j]), path[j]) == MapAt(was, trail[j + 1])
  {
    var ref := trail[j];
    TrailGrows(was, home, trail, path, j, j + 1);
    TrailGrows(was, home, trail, path, j, |trail| - 1);
    assert nodes[ref] == was[ref];
    forall k <- was[ref] | k != path[j]
      ensures ValueOf(nodes, was[ref][k], ref) == ValueOf(was, was[ref][k], ref)
    {
      SameBeside(was, nodes, home, trail, path, j, k);
    }
  }

  lemma PathFrom(path: Path, j: nat)
    requires j < |path| - 1
    ensures path[j..] == [path[j]] + path[j + 1..]
  {
  }

  lemma AssignVia(m: Settings, key: Bytes, rest: Path, v: Val)
    ensures Assign(m, [key] + rest, v) == m[key := Node(Assign(Child(m, key), rest, v))]
  {
    assert ([key] + rest)[1..] == rest;
  }

  /** A change below that makes no difference to the assignment makes none from the root. */
  lemma {:induction false} SameAssignment(was: Store, nodes: Store, home: seq<Place>, trail: seq<nat>, path: Path, v: Val, j: nat)
    requires Owned(was, home) && Trail(was, trail, path) && OnlyChanged(was, nodes, Last(trail))
    requires var at := |trail| - 1;
             Assign(MapAt(nodes, trail[at]), path[at..], v) == Assign(MapAt(was, trail[at]), path[at..], v)
    requires j < |trail|
    ensures Assign(MapAt(nodes, trail[j]), path[j..], v) == Assign(MapAt(was, trail[j]), path[j..], v)
    decreases |trail| - j
  {
    if j < |trail| - 1 {
      SameAssignment(was, nodes, home, trail, path, v, j + 1);
      OneUp(was, nodes, home, trail, path, j);
      PathFrom(path, j);
      AssignVia(MapAt(nodes, trail[j]), path[j], path[j + 1..], v);
      AssignVia(MapAt(was, trail[j]), path[j], path[j + 1..], v);
    }
  }

  /** An assignment made below is made from the root. */
  lemma {:induction false} AssignedBelow(was: Store, nodes: Store, home: seq<Place>, trail: seq<nat>, path: Path, v: Val, j: nat)
    requires Owned(was, home) && Trail(was, trail, path) && OnlyChanged(was, nodes, Last(trail))
    requires var at := |trail| - 1; MapAt(nodes, trail[at]) == Assign(MapAt(was, trail[at]), path[at..], v)
    requires j < |trail|
    ensures MapAt(nodes, trail[j]) == Assign(MapAt(was, trail[j]), path[j..], v)
    decreases |trail| - j
  {
    if j < |trail| - 1 {
      AssignedBelow(was, nodes, home, trail, path, v, j + 1);
      OneUp(was, nodes, home, trail, path, j);
      PathFrom(path, j);
      AssignVia(MapAt(was, trail[j]), path[j], path[j + 1..], v);
    }
  }

  // ---- The two changes ----------------------------------------------------------------------

  ghost predicate Sound(nodes: Store, home: seq<Place>) {
    nodes != [] && Owned(nodes, home) && NoPlainNode(nodes)
  }

  /** A new, empty map under a key. */
  function WithChild(nodes: Store, at: nat, key: Bytes): Store
    requires at < |nodes|
  {
    nodes[at := nodes[at][key := Link(|nodes|)]] + [map[]]
  }

  lemma ChildIsOwned(nodes: Store, home: seq<Place>, at: nat, key: Bytes)
    requires Sound(nodes, home) && at < |nodes|
    ensures Sound(WithChild(nodes, at, key), home + [(at, key)])
  {
    var n, h := WithChild(nodes, at, key), home + [(at, key)];
    forall r, k | 0 <= r < |n| && k in n[r]
      ensures AllLinksFrom(n[r][k], h, r, k)
    {
      if !(r == at && k == key) {
        assert n[r][k] == nodes[r][k] && AllLinksFrom(nodes[r][k], home, r, k);
      }
    }
  }

  /** Making room for the rest of the path changes nothing the assignment would not overwrite. */
  lemma ChildMakesNoDifference(nodes: Store, home: seq<Place>, trail: seq<nat>, path: Path, v: Val)
    requires Sound(nodes, home) && Trail(nodes, trail, path) && |trail| < |path|
    requires var (at, key) := (Last(trail), path[|trail| - 1]);
             key in nodes[at] ==> !nodes[at][key].Link?
    ensures Assign(MapAt(WithChild(nodes, Last(trail), path[|trail| - 1]), 0), path, v)
         == Assign(MapAt(nodes, 0), path, v)
  {
    var i, at, key := |trail| - 1, Last(trail), path[|trail| - 1];
    var n := WithChild(nodes, at, key);
    forall k <- nodes[at]
      ensures ValueOf(n, nodes[at][k], at) == ValueOf(nodes, nodes[at][k], at)
    {
      SameBeside(nodes, n, home, trail, path, i, k);
    }
    assert MapAt(n, |nodes|) == map[];
    assert MapAt(n, at) == MapAt(nodes, at)[key := Node(map[])];
    assert path[i..][0] == key && |path[i..]| > 1;
    SameAssignment(nodes, n, home, trail, path, v, 0);
    assert path[0..] == path;
  }

  function CellList(cell: Cell): seq<Cell> {
    match cell
    case Plain(value) => var list := AsList(value); seq(|list|, i requires 0 <= i < |list| => Plain(list[i]))
    case Link(_) => [cell]
    case Many(cells) => cells
  }

  /** What the last key of a path holds after the assignment. */
  function MergedCell(table: Table, key: Bytes, v: Val): Cell {
    if key in table then Many(CellList(table[key]) + CellList(Plain(v))) else Plain(v)
  }

  ghost function ValuesOf(nodes: Store, cells: seq<Cell>, ref: nat): seq<Val>
    requires ref < |nodes|
  {
    seq(|cells|, i requires 0 <= i < |cells| => ValueOf(nodes, cells[i], ref))
  }

  lemma CellListValues(nodes: Store, cell: Cell, ref: nat)
    requires ref < |nodes|
    ensures ValuesOf(nodes, CellList(cell), ref) == AsList(ValueOf(nodes, cell, ref))
  {
  }

  lemma MergedValue(nodes: Store, table: Table, key: Bytes, v: Val, ref: nat)
    requires ref < |nodes|
    ensures ValueOf(nodes, MergedCell(table, key, v), ref)
         == Merge(if key in table then Some(ValueOf(nodes, table[key], ref)) else None, v)
  {
    if key in table {
      var a, b := CellList(table[key]), CellList(Plain(v));
      CellListValues(nodes, table[key], ref);
      CellListValues(nodes, Plain(v), ref);
      assert ValuesOf(nodes, a + b, ref) == ValuesOf(nodes, a, ref) + ValuesOf(nodes, b, ref);
    }
  }

  function WithLeaf(nodes: Store, at: nat, key: Bytes, v: Val): Store
    requires at < |nodes|
  {
    nodes[at := nodes[at][key := MergedCell(nodes[at], key, v)]]
  }

  lemma CellListLinks(cell: Cell, part: Cell, x: nat)
    requires part in CellList(cell) && LinksTo(part, x)
    ensures LinksTo(cell, x)
  {
  }

  lemma LeafIsOwned(nodes: Store, home: seq<Place>, at: nat, key: Bytes, v: Val)
    requires Sound(nodes, home) && at < |nodes| && !v.Node?
    ensures Sound(WithLeaf(nodes, at, key, v), home)
  {
    var n := WithLeaf(nodes, at, key, v);
    forall r, k | 0 <= r < |n| && k in n[r]
      ensures AllLinksFrom(n[r][k], home, r, k)
    {
      if r == at && k == key {
        forall x: nat | LinksTo(n[r][k], x)
          ensures r < x < |home| && home[x] == (r, k)
        {
          var part :| part in n[r][k].cells && LinksTo(part, x);
          if part in CellList(nodes[at][key]) {
            CellListLinks(nodes[at][key], part, x);
            assert AllLinksFrom(nodes[at][key], home, at, key);
          } else {
            CellListLinks(Plain(v), part, x);
          }
        }
      } else {
        assert n[r][k] == nodes[r][k] && AllLinksFrom(nodes[r][k], home, r, k);
      }
    }
  }

  /** Changing the last map of the way down is the assignment. */
  lemma LeafAssigns(nodes: Store, home: seq<Place>, trail: seq<nat>, path: Path, v: Val)
    requires Sound(nodes, home) && Trail(nodes, trail, path) && |trail| == |path|
    ensures MapAt(WithLeaf(nodes, Last(trail), path[|path| - 1], v), 0) == Assign(MapAt(nodes, 0), path, v)
  {
    var i, at, key := |trail| - 1, Last(trail), path[|path| - 1];
    var n := WithLeaf(nodes, at, key, v);
    forall k <- nodes[at]
      ensures ValueOf(n, nodes[at][k], at) == ValueOf(nodes, nodes[at][k], at)
    {
      SameBeside(nodes, n, home, trail, path, i, k);
    }
    MergedValue(n, nodes[at], key, v, at);
    assert path[i..] == [key];
    assert MapAt(n, at) == Assign(MapAt(nodes, at), [key], v);
    AssignedBelow(nodes, n, home, trail, path, v, 0);
    assert path[0..] == path;
  }

  lemma TrailStays(nodes: Store, trail: seq<nat>, path: Path, home: seq<Place>)
    requires Sound(nodes, home) && Trail(nodes, trail, path) && |trail| < |path|
    ensures Trail(WithChild(nodes, Last(trail), path[|trail| - 1]), trail + [|nodes|], path)
  {
    forall j | 0 <= j < |trail| - 1
      ensures trail[j] != Last(trail)
    {
      TrailGrows(nodes, home, trail, path, j, |trail| - 1);
    }
  }

  // ---- The object ---------------------------------------------------------------------------

  class IniSettings {
    var nodes: Store
    ghost var home: seq<Place>

    ghost predicate Valid()
      reads this
    {
      Sound(nodes, home)
    }

    ghost function Contents(): Settings
      reads this
    {
      MapAt(nodes, 0)
    }

    constructor ()
      ensures Valid() && Contents() == map[]
    {
      nodes, home := [map[]], [(0, "")];
    }

    /** setINIValue. */
    method SetValue(path: Path, value: Val)
      requires Valid() && !value.Node?
      modifies this
      ensures Valid() && Contents() == Assign(old(Contents()), path, value)
    {
      var node, i := 0, 0;
      ghost var trail: seq<nat> := [0];
      while i < |path| - 1
        invariant 0 <= i < |path| && |trail| == i + 1 && Last(trail) == node
        invariant Valid() && Trail(nodes, trail, path)
        invariant Assign(Contents(), path, value) == Assign(old(Contents()), path, value)
      {
        var part := path[i];
        if part in nodes[node] && nodes[node][part].Link? {
          trail := trail + [nodes[node][part].ref];
          assert AllLinksFrom(nodes[node][part], home, node, part);
          assert LinksTo(nodes[node][part], nodes[node][part].ref);
          node := nodes[node][part].ref;
        } else {
          ChildIsOwned(nodes, home, node, part);
          ChildMakesNoDifference(nodes, home, trail, path, value);
          TrailStays(nodes, trail, path, home);
          trail := trail + [|nodes|];
          home := home + [(node, part)];
          var child := |nodes|;
          nodes := WithChild(nodes, node, part);
          node := child;
        }
        i := i + 1;
      }
      var leaf := path[|path| - 1];
      LeafIsOwned(nodes, home, node, leaf, value);
      LeafAssigns(nodes, home, trail, path, value);
      if leaf !in nodes[node] {
        nodes := nodes[node := nodes[node][leaf := Plain(value)]];
      } else {
        var list := Many(CellList(nodes[node][leaf]) + CellList(Plain(value)));
        nodes := nodes[node := nodes[node][leaf := list]];
      }
    }
  }

  // ---- Parsing ------------------------------------------------------------------------------

  /** splitINIKey. */
  method SplitIniKey(raw: Bytes) returns (parts: seq<Bytes>)
    ensures parts == SplitKey(raw)
  {
    parts := [];
    var pieces := Split(raw, '.');
    for i := 0 to |pieces|
      invariant parts + Trimmed(pieces[i..]) == SplitKey(raw)
    {
      var part := TrimSpace(pieces[i]);
      assert pieces[i..][1..] == pieces[i + 1..];
      Regroup(parts, if part == [] then [] else [part], Trimmed(pieces[i + 1..]));
      if part != [] {
        parts := parts + [part];
      }
    }
  }

  function Classified(lines: seq<Bytes>): seq<Line> {
    seq(|lines|, i requires 0 <= i < |lines| => Classify(lines[i]))
  }

  ghost function After(done: seq<Assignment>, rest: Result<seq<Assignment>, nat>): Result<seq<Assignment>, nat> {
    match rest
    case Err(e) => Err(e)
    case Ok(more) => Ok(done + more)
  }

  lemma AfterNothing(all: Result<seq<Assignment>, nat>)
    ensures After([], all) == all
  {
    if all.Ok? {
      assert [] + all.value == all.value;
    }
  }

  /** The assignment of a line with a key. */
  function Entered(read: Reader, section: seq<Bytes>, key: Bytes, raw: Bytes): Assignment
    requires SplitKey(key) != []
  {
    var path: Path := section + SplitKey(key);
    Assignment(path, read(raw, path))
  }

  /** One line that assigns, then the others. */
  lemma AfterEntry(read: Reader, section: seq<Bytes>, done: seq<Assignment>, lines: seq<Line>, number: nat)
    requires lines != [] && lines[0].Entry? && SplitKey(lines[0].key) != []
    ensures var a := Entered(read, section, lines[0].key, lines[0].raw);
            var next := done + [a];
            && After(done, Assignments(read, section, lines, number))
               == After(next, Assignments(read, section, lines[1..], number + 1))
            && Build(next) == Assign(Build(done), a.path, a.value)
  {
    var a := Entered(read, section, lines[0].key, lines[0].raw);
    match Assignments(read, section, lines[1..], number + 1)
    case Err(_) =>
    case Ok(rest) => Regroup(done, [a], rest);
    assert (done + [a])[..|done|] == done;
  }

  lemma AfterOther(read: Reader, section: seq<Bytes>, lines: seq<Line>, number: nat)
    requires lines != [] && (lines[0].Skip? || lines[0].Header?)
    ensures Assignments(read, section, lines, number)
         == Assignments(read, if lines[0].Header? then SplitKey(lines[0].name) else section, lines[1..], number + 1)
  {
  }

  /** The end of the loop body of parseINI; a line without a key name is refused. */
  method ParseEntry(read: Reader, settings: IniSettings, section: seq<Bytes>, key: Bytes, raw: Bytes) returns (ok: bool)
    requires settings.Valid() && forall r, p :: !read(r, p).Node?
    modifies settings
    ensures settings.Valid() && (ok <==> SplitKey(key) != [])
    ensures settings.Contents() ==
              if ok then var a := Entered(read, section, key, raw); Assign(old(settings.Contents()), a.path, a.value)
              else old(settings.Contents())
  {
    var leaf := SplitIniKey(key);
    if leaf == [] {
      return false;
    }
    var path: Path := section + leaf;
    settings.SetValue(path, read(raw, path));
    ok := true;
  }

  /** parseINI. */
  method Parse(read: Reader, lines: seq<Bytes>) returns (result: Result<IniSettings, nat>)
    requires forall raw, path :: !read(raw, path).Node?
    ensures match Assignments(read, [], Classified(lines), 1)
            case Err(number) => result == Err(number)
            case Ok(assignments) => result.Ok? && result.value.Valid() && result.value.Contents() == Build(assignments)
  {
    var settings := new IniSettings();
    var section: seq<Bytes> := [];
    ghost var done: seq<Assignment> := [];
    ghost var kinds := Classified(lines);
    ghost var all := Assignments(read, [], kinds, 1);
    AfterNothing(all);
    assert kinds[0..] == kinds;
    for i := 0 to |lines|
      invariant settings.Valid() && settings.Contents() == Build(done)
      invariant After(done, Assignments(read, section, kinds[i..], i + 1)) == all
    {
      assert kinds[i..][1..] == kinds[i + 1..] && kinds[i..][0] == Classify(lines[i]);
      match Classify(lines[i])
      case Skip => AfterOther(read, section, kinds[i..], i + 1);
      case Header(name) =>
        AfterOther(read, section, kinds[i..], i + 1);
        section := SplitIniKey(name);
      case Malformed => return Err(i + 1);
      case Entry(key, raw) =>
        var ok := ParseEntry(read, settings, section, key, raw);
        if !ok {
          return Err(i + 1);
        }
        AfterEntry(read, section, done, kinds[i..], i + 1);
        done := done + [Entered(read, section, key, raw)];
    }
    assert done + [] == done;
    result := Ok(settings);
  }
}
