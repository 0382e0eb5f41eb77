/** How ParseCLI builds its tree in place: `tmp` walks down nested maps that are changed where they
    stand (utils/env_parse.go). */
module CliBuilder {
  import opened Options
  import opened Strings
  import opened CliModel

  /** A map is referred to by its number; what an entry or an array element holds. */
  datatype Cell = NilCell | LeafCell(v: Scalar) | Ref(ref: nat) | ArrCell(items: seq<Cell>)

  type Cells = seq<map<string, Cell>>

  /** The only place that refers to a map. */
  datatype Spot = NoSpot | NameSpot(owner: nat, key: string) | ItemSpot(owner: nat, key: string, index: nat)

  // ----- The tree that maps stand for ----------------------------------------------------------

  /** The tree under map r, with map t standing for x. */
  ghost function MapOf(cells: Cells, r: nat, t: nat, x: map<string, Value>): map<string, Value>
    decreases |cells| - r
  {
    if r == t then x
    else if r >= |cells| then map[]
    else map key | key in cells[r] :: ValueOf(cells, r, cells[r][key], t, x)
  }

  ghost function ValueOf(cells: Cells, r: nat, c: Cell, t: nat, x: map<string, Value>): Value
    decreases |cells| - r, c
  {
    match c
    case NilCell => Nil
    case LeafCell(v) => Leaf(v)
    case Ref(s) => if r < s < |cells| then Obj(MapOf(cells, s, t, x)) else Nil
    case ArrCell(items) => Arr(seq(|items|, i requires 0 <= i < |items| => ValueOf(cells, r, items[i], t, x)))
  }

  ghost function TreeAt(cells: Cells, r: nat): map<string, Value> {
    MapOf(cells, r, |cells|, map[])
  }

  /** References go to later maps, and each map is referred to from its one spot at most. */
  ghost predicate Linked(cells: Cells, spots: seq<Spot>) {
    && |spots| == |cells| >= 1
    && forall r, key :: 0 <= r < |cells| && key in cells[r] ==> LinkedCell(spots, r, key, cells[r][key])
  }

  ghost predicate LinkedCell(spots: seq<Spot>, r: nat, key: string, c: Cell) {
    && (c.Ref? ==> r < c.ref < |spots| && spots[c.ref] == NameSpot(r, key))
    && (c.ArrCell? ==> forall i :: 0 <= i < |c.items| ==> LinkedItem(spots, r, key, i, c.items[i]))
  }

  ghost predicate LinkedItem(spots: seq<Spot>, r: nat, key: string, i: nat, c: Cell) {
    !c.ArrCell? && (c.Ref? ==> r < c.ref < |spots| && spots[c.ref] == ItemSpot(r, key, i))
  }

  /** Two readings of a cell agree if they agree on the maps it refers to. */
  lemma ValueSame(cells: Cells, cells': Cells, spots: seq<Spot>, r: nat, key: string, t: nat, t': nat,
                  x: map<string, Value>, x': map<string, Value>)
    requires Linked(cells, spots) && r < |cells| <= |cells'| && key in cells[r]
    requires forall s :: r < s < |cells| && Refers(cells[r][key], s) ==> MapOf(cells, s, t, x) == MapOf(cells', s, t', x')
    ensures ValueOf(cells, r, cells[r][key], t, x) == ValueOf(cells', r, cells[r][key], t', x')
  {
    var c := cells[r][key];
    assert LinkedCell(spots, r, key, c);
    if c.ArrCell? {
      forall i | 0 <= i < |c.items| ensures ValueOf(cells, r, c.items[i], t, x) == ValueOf(cells', r, c.items[i], t', x') {
        assert LinkedItem(spots, r, key, i, c.items[i]);
      }
    }
  }

  ghost predicate Refers(c: Cell, s: nat) {
    c == Ref(s) || (c.ArrCell? && Ref(s) in c.items)
  }

  /** A map is only reached through the owner of its spot: seen from elsewhere, changing it is changing
      the owner. */
  lemma {:induction false} ThroughOwner(cells: Cells, spots: seq<Spot>, r: nat, owner: nat, s: nat, y: map<string, Value>)
    requires Linked(cells, spots) && r < |cells| && s < |cells| && r != s && spots[s] != NoSpot && spots[s].owner == owner
    ensures MapOf(cells, r, s, y) == MapOf(cells, r, owner, MapOf(cells, owner, s, y))
    decreases |cells| - r
  {
    if r != owner {
      var x := MapOf(cells, owner, s, y);
      forall key | key in cells[r] ensures ValueOf(cells, r, cells[r][key], s, y) == ValueOf(cells, r, cells[r][key], owner, x) {
        forall s' | r < s' < |cells| && Refers(cells[r][key], s') ensures MapOf(cells, s', s, y) == MapOf(cells, s', owner, x) {
          RefersFrom(spots, r, key, cells[r][key], s');
          ThroughOwner(cells, spots, s', owner, s, y);
        }
        ValueSame(cells, cells, spots, r, key, s, owner, y, x);
      }
    }
  }

  lemma RefersFrom(spots: seq<Spot>, r: nat, key: string, c: Cell, s: nat)
    requires LinkedCell(spots, r, key, c) && Refers(c, s)
    ensures s < |spots| && spots[s] != NoSpot && spots[s].owner == r && spots[s].key == key
    ensures spots[s].ItemSpot? ==> c.ArrCell? && spots[s].index < |c.items| && c.items[spots[s].index] == Ref(s)
  {
    if c.ArrCell? {
      var i :| 0 <= i < |c.items| && c.items[i] == Ref(s);
      assert LinkedItem(spots, r, key, i, c.items[i]);
    }
  }

  /** From a later map than the owner, a map is not reached; nor does a map added at the end matter, nor
      what an earlier map holds. */
  lemma {:induction false} NotReached(cells: Cells, cells': Cells, spots: seq<Spot>, r: nat, owner: nat, s: nat, y: map<string, Value>)
    requires Linked(cells, spots) && owner < r < |cells| <= |cells'| && r != s
    requires forall i :: owner < i < |cells| ==> cells'[i] == cells[i]
    requires s < |cells| ==> spots[s] != NoSpot && spots[s].owner == owner
    ensures MapOf(cells', r, s, y) == TreeAt(cells, r)
    decreases |cells| - r
  {
    forall key | key in cells[r] ensures ValueOf(cells', r, cells[r][key], s, y) == ValueOf(cells, r, cells[r][key], |cells|, map[]) {
      forall s' | r < s' < |cells| && Refers(cells[r][key], s') ensures MapOf(cells', s', s, y) == TreeAt(cells, s') {
        RefersFrom(spots, r, key, cells[r][key], s');
        NotReached(cells, cells', spots, s', owner, s, y);
      }
      ValueSame(cells, cells', spots, r, key, |cells|, s, map[], y);
    }
  }

  /** What map t itself holds does not matter when it is replaced anyway. */
  lemma {:induction false} OnlyAt(cells: Cells, cells': Cells, spots: seq<Spot>, r: nat, t: nat, x: map<string, Value>)
    requires Linked(cells, spots) && r < |cells| <= |cells'|
    requires forall i :: 0 <= i < |cells| && i != t ==> cells'[i] == cells[i]
    ensures MapOf(cells', r, t, x) == MapOf(cells, r, t, x)
    decreases |cells| - r
  {
    if r != t {
      forall key | key in cells[r] ensures ValueOf(cells', r, cells[r][key], t, x) == ValueOf(cells, r, cells[r][key], t, x) {
        forall s | r < s < |cells| && Refers(cells[r][key], s) ensures MapOf(cells', s, t, x) == MapOf(cells, s, t, x) {
          OnlyAt(cells, cells', spots, s, t, x);
        }
        ValueSame(cells, cells', spots, r, key, t, t, x, x);
      }
    }
  }

  /** Replacing a map by what it stands for changes nothing. */
  lemma {:induction false} Itself(cells: Cells, spots: seq<Spot>, r: nat, t: nat)
    requires Linked(cells, spots) && r < |cells| && t < |cells|
    ensures MapOf(cells, r, t, TreeAt(cells, t)) == TreeAt(cells, r)
    decreases |cells| - r
  {
    if r != t {
      var x := TreeAt(cells, t);
      forall key | key in cells[r] ensures ValueOf(cells, r, cells[r][key], t, x) == ValueOf(cells, r, cells[r][key], |cells|, map[]) {
        forall s | r < s < |cells| && Refers(cells[r][key], s) ensures MapOf(cells, s, t, x) == TreeAt(cells, s) {
          Itself(cells, spots, s, t);
        }
        ValueSame(cells, cells, spots, r, key, t, |cells|, x, map[]);
      }
    }
  }

  /** What a map stands for after one of its entries was assigned, maps possibly having been added. */
  lemma Assigned(cells: Cells, cells': Cells, spots: seq<Spot>, t: nat, key: string, c: Cell)
    requires Linked(cells, spots) && t < |cells| <= |cells'| && cells'[t] == cells[t][key := c]
    requires forall i :: t < i < |cells| ==> cells'[i] == cells[i]
    ensures TreeAt(cells', t) == TreeAt(cells, t)[key := ValueOf(cells', t, c, |cells'|, map[])]
  {
    forall k | k in cells[t] ensures ValueOf(cells', t, cells[t][k], |cells'|, map[]) == ValueOf(cells, t, cells[t][k], |cells|, map[]) {
      forall s | t < s < |cells| && Refers(cells[t][k], s) ensures TreeAt(cells', s) == TreeAt(cells, s) {
        NotReached(cells, cells', spots, s, t, |cells'|, map[]);
      }
      ValueSame(cells, cells', spots, t, k, |cells|, |cells'|, map[], map[]);
    }
  }

  lemma Unchanged(cells: Cells, cells': Cells, spots: seq<Spot>, t: nat)
    requires Linked(cells, spots) && t < |cells| <= |cells'| && forall i :: t <= i < |cells| ==> cells'[i] == cells[i]
    ensures TreeAt(cells', t) == TreeAt(cells, t)
  {
    forall k | k in cells[t] ensures ValueOf(cells', t, cells[t][k], |cells'|, map[]) == ValueOf(cells, t, cells[t][k], |cells|, map[]) {
      forall s | t < s < |cells| && Refers(cells[t][k], s) ensures TreeAt(cells', s) == TreeAt(cells, s) {
        NotReached(cells, cells', spots, s, t, |cells'|, map[]);
      }
      ValueSame(cells, cells', spots, t, k, |cells|, |cells'|, map[], map[]);
    }
  }

  /** With the map at a spot standing for y, its owner has y at that spot. */
  lemma OwnerOf(cells: Cells, spots: seq<Spot>, t: nat, key: string, s: nat, y: map<string, Value>)
    requires Linked(cells, spots) && t < s < |cells| && key in cells[t] && Refers(cells[t][key], s)
    ensures MapOf(cells, t, s, y) == TreeAt(cells, t)[key := ValueOf(cells, t, cells[t][key], s, y)]
  {
    assert LinkedCell(spots, t, key, cells[t][key]);
    RefersFrom(spots, t, key, cells[t][key], s);
    forall k | k in cells[t] && k != key ensures ValueOf(cells, t, cells[t][k], s, y) == ValueOf(cells, t, cells[t][k], |cells|, map[]) {
      assert LinkedCell(spots, t, k, cells[t][k]);
      forall s' | t < s' < |cells| && Refers(cells[t][k], s') ensures MapOf(cells, s', s, y) == TreeAt(cells, s') {
        RefersFrom(spots, t, k, cells[t][k], s');
        NotReached(cells, cells, spots, s', t, s, y);
      }
      ValueSame(cells, cells, spots, t, k, |cells|, s, map[], y);
    }
  }

  lemma ItemValue(cells: Cells, spots: seq<Spot>, t: nat, key: string, index: nat, s: nat, y: map<string, Value>)
    requires Linked(cells, spots) && t < s < |cells| && key in cells[t] && cells[t][key].ArrCell?
    requires index < |cells[t][key].items| && cells[t][key].items[index] == Ref(s)
    ensures var items := ValueOf(cells, t, cells[t][key], |cells|, map[]).items;
      index < |items| && ValueOf(cells, t, cells[t][key], s, y) == Arr(items[index := Obj(y)])
      && items[index] == Obj(TreeAt(cells, s))
  {
    var c := cells[t][key];
    assert LinkedCell(spots, t, key, c);
    assert LinkedItem(spots, t, key, index, c.items[index]);
    forall i | 0 <= i < |c.items| && i != index
      ensures ValueOf(cells, t, c.items[i], s, y) == ValueOf(cells, t, c.items[i], |cells|, map[])
    {
      assert LinkedItem(spots, t, key, i, c.items[i]);
      if c.items[i].Ref? {
        NotReached(cells, cells, spots, c.items[i].ref, t, s, y);
      }
    }
    assert ValueOf(cells, t, c.items[index], s, y) == Obj(y);
    var items := ValueOf(cells, t, c, |cells|, map[]).items;
    assert ValueOf(cells, t, c, s, y).items == items[index := Obj(y)];
  }

  // ----- The builder ---------------------------------------------------------------------------

  datatype Result = Built | CollisionError | Panic

  class TreeBuilder {
    var cells: Cells
    ghost var spots: seq<Spot>

    ghost predicate Valid()
      reads this
    {
      Linked(cells, spots)
    }

    /** The whole tree. */
    ghost function Tree(): map<string, Value>
      reads this
    {
      TreeAt(cells, 0)
    }

    constructor ()
      ensures Valid() && Tree() == map[]
    {
      cells, spots := [map[]], [NoSpot];
    }

    /** Assigns an entry of map t. */
    method Assign(t: nat, key: string, c: Cell)
      requires Valid() && t < |cells| && LinkedCell(spots, t, key, c)
      modifies this`cells
      ensures Valid() && |cells| == |old(cells)| && cells == old(cells)[t := old(cells)[t][key := c]]
      ensures TreeAt(cells, t) == TreeAt(old(cells), t)[key := ValueOf(cells, t, c, |cells|, map[])]
      ensures forall x :: MapOf(cells, 0, t, x) == MapOf(old(cells), 0, t, x)
    {
      cells := cells[t := cells[t][key := c]];
      Assigned(old(cells), cells, spots, t, key, c);
      forall x ensures MapOf(cells, 0, t, x) == MapOf(old(cells), 0, t, x) {
        OnlyAt(old(cells), cells, spots, 0, t, x);
      }
    }

    /** A new map, to be referred to from one spot. */
    method AddMap(t: nat, spot: Spot) returns (n: nat)
      requires Valid() && t < |cells| && spot != NoSpot
      modifies this
      ensures Valid() && n == |old(cells)| && cells == old(cells) + [map[]] && spots == old(spots) + [spot]
      ensures TreeAt(cells, t) == TreeAt(old(cells), t)
      ensures forall x :: MapOf(cells, 0, t, x) == MapOf(old(cells), 0, t, x)
    {
      n := |cells|;
      cells, spots := cells + [map[]], spots + [spot];
      LinkedMore(old(cells), old(spots), spot);
      Unchanged(old(cells), cells, old(spots), t);
      forall x ensures MapOf(cells, 0, t, x) == MapOf(old(cells), 0, t, x) {
        OnlyAt(old(cells), cells, old(spots), 0, t, x);
      }
    }
  
    /** Goes down to the map at a name, which is made if there is nothing yet. */
    method EnterName(t: nat, key: string) returns (next: Option<nat>)
      requires Valid() && t < |cells|
      modifies this
      ensures Valid()
      ensures var here := TreeAt(old(cells), t);
        && (next.None? <==> key in here && !here[key].Obj?)
        && (next.Some? ==>
              && t < next.value < |cells|
              && TreeAt(cells, next.value) == (if key in here then here[key].fields else map[])
              && forall y :: MapOf(cells, 0, next.value, y) == MapOf(old(cells), 0, t, here[key := Obj(y)]))
    {
      Entry(cells, t, key);
      if key in cells[t] {
        var existing := cells[t][key];
        assert LinkedCell(spots, t, key, existing);
        if !existing.Ref? {
          return None;
        }
        WayDown(cells, spots, t, key, existing.ref);
        return Some(existing.ref);
      }
      var n := AddMap(t, NameSpot(t, key));
      Assign(t, key, Ref(n));
      WayDown(cells, spots, t, key, n);
      AssignTwice(cells, t, TreeAt(old(cells), t), TreeAt(cells, t), key, ValueOf(cells, t, Ref(n), |cells|, map[]));
      return Some(n);
    }
  
    /** Makes room for an index: a new array is made large enough, an old one grows by at most one. */
    method Grow(t: nat, key: string, index: nat) returns (ok: bool)
      requires Valid() && t < |cells|
      modifies this`cells
      ensures Valid() && |cells| == |old(cells)|
      ensures ok == Slots(TreeAt(old(cells), t), key, index).Some?
      ensures ok ==>
        && key in cells[t] && cells[t][key].ArrCell?
        && TreeAt(cells, t) == TreeAt(old(cells), t)[key := Arr(Slots(TreeAt(old(cells), t), key, index).value)]
        && forall x :: MapOf(cells, 0, t, x) == MapOf(old(cells), 0, t, x)
    {
      Entry(cells, t, key);
      if index == MAX_INT {
        return false;
      }
      if key !in cells[t] {
        if index >= MAX_LEN {
          return false;
        }
        var items := seq(index + 1, _ => NilCell);
        Assign(t, key, ArrCell(items));
        assert ValueOf(cells, t, ArrCell(items), |cells|, map[]).items == Nils(index + 1);
        return true;
      }
      assert LinkedCell(spots, t, key, cells[t][key]);
      if !cells[t][key].ArrCell? {
        return false;
      }
      var items := cells[t][key].items;
      if |items| <= index {
        GrownItems(cells, spots, t, key, items);
        Assign(t, key, ArrCell(items + [NilCell]));
      } else {
        assert TreeAt(cells, t)[key := TreeAt(cells, t)[key]] == TreeAt(cells, t);
      }
      return true;
    }

    /** Assigns an element of the array at a name. */
    method AssignItem(t: nat, key: string, index: nat, c: Cell)
      requires Valid() && t < |cells| && key in cells[t] && cells[t][key].ArrCell? && index < |cells[t][key].items|
      requires LinkedItem(spots, t, key, index, c)
      modifies this`cells
      ensures Valid() && |cells| == |old(cells)| && key in cells[t] && cells[t][key].ArrCell?
      ensures index < |cells[t][key].items| && cells[t][key].items[index] == c
      ensures forall i :: 0 <= i < |cells| && i != t ==> cells[i] == old(cells)[i]
      ensures var here := TreeAt(old(cells), t);
        && here[key].Arr? && index < |here[key].items|
        && TreeAt(cells, t) == here[key := Arr(here[key].items[index := ValueOf(cells, t, c, |cells|, map[])])]
      ensures forall x :: MapOf(cells, 0, t, x) == MapOf(old(cells), 0, t, x)
    {
      var items := cells[t][key].items;
      Entry(cells, t, key);
      AssignedItems(cells, cells[t := cells[t][key := ArrCell(items[index := c])]], spots, t, key, index, c);
      Assign(t, key, ArrCell(items[index := c]));
    }
  
    method MakeAtItem(t: nat, key: string, index: nat) returns (n: nat)
      requires Valid() && t < |cells| && key in cells[t] && cells[t][key].ArrCell? && index < |cells[t][key].items|
      modifies this
      ensures Valid() && t < n < |cells| && TreeAt(cells, n) == map[]
      ensures var here := TreeAt(old(cells), t);
        && here[key].Arr? && index < |here[key].items|
        && forall y :: MapOf(cells, 0, n, y) == MapOf(old(cells), 0, t, here[key := Arr(here[key].items[index := Obj(y)])])
    {
      n := AddMap(t, ItemSpot(t, key, index));
      AssignItem(t, key, index, Ref(n));
      assert cells[n] == map[] && TreeAt(cells, n) == map[];
      WayDownItem(cells, spots, t, key, index, n);
      AssignItemTwice(cells, t, TreeAt(old(cells), t), TreeAt(cells, t), key, index, ValueOf(cells, t, Ref(n), |cells|, map[]));
    }

    /** Goes down to the map at an element of an array, which is made if the element is nil. */
    method EnterItem(t: nat, key: string, index: nat) returns (next: Option<nat>)
      requires Valid() && t < |cells| && key in cells[t] && cells[t][key].ArrCell? && index < |cells[t][key].items|
      modifies this
      ensures Valid()
      ensures var here := TreeAt(old(cells), t);
        && here[key].Arr? && index < |here[key].items|
        && var slot := here[key].items[index];
        && (next.None? <==> !slot.Nil? && !slot.Obj?)
        && (next.Some? ==>
              && t < next.value < |cells|
              && TreeAt(cells, next.value) == (if slot.Obj? then slot.fields else map[])
              && forall y :: MapOf(cells, 0, next.value, y)
                   == MapOf(old(cells), 0, t, here[key := Arr(here[key].items[index := Obj(y)])]))
    {
      Entry(cells, t, key);
      EntryItem(cells, spots, t, key, index);
      var existing := cells[t][key].items[index];
      if existing.NilCell? {
        var n := MakeAtItem(t, key, index);
        return Some(n);
      }
      if !existing.Ref? {
        return None;
      }
      WayDownItem(cells, spots, t, key, index, existing.ref);
      return Some(existing.ref);
    }

    /** Grows the array at a name and tells whether that made room for the index. */
    method Reach(t: nat, key: string, index: nat) returns (ok: bool)
      requires Valid() && t < |cells|
      modifies this`cells
      ensures Valid() && |cells| == |old(cells)|
      ensures var here := TreeAt(old(cells), t); ok == Fits(here, Item(key, index))
      ensures ok ==> Reached(t, key, index, TreeAt(old(cells), t))
      ensures ok ==> forall x :: MapOf(cells, 0, t, x) == MapOf(old(cells), 0, t, x)
    {
      ok := Grow(t, key, index);
      if ok {
        Entry(cells, t, key);
        ok := index < |cells[t][key].items|;
      }
    }

    /** The array at a name has room for the index, its map being otherwise as it was. */
    ghost predicate Reached(t: nat, key: string, index: nat, here: map<string, Value>)
      requires t < |cells|
      reads this
    {
      && Fits(here, Item(key, index)) && key in cells[t] && cells[t][key].ArrCell? && index < |cells[t][key].items|
      && TreeAt(cells, t) == here[key := Arr(Slots(here, key, index).value)]
    }

    method PutItem(t: nat, key: string, index: nat, leaf: Scalar, ghost here: map<string, Value>)
      requires Valid() && t < |cells| && Reached(t, key, index, here)
      modifies this`cells
      ensures Valid() && |cells| == |old(cells)| && TreeAt(cells, t) == Replaced(here, Item(key, index), Leaf(leaf))
      ensures forall x :: MapOf(cells, 0, t, x) == MapOf(old(cells), 0, t, x)
    {
      AssignItem(t, key, index, LeafCell(leaf));
      assert ValueOf(cells, t, LeafCell(leaf), |cells|, map[]) == Leaf(leaf);
    }

    method EnterReached(t: nat, key: string, index: nat, ghost here: map<string, Value>, ghost before: Cells) returns (next: Option<nat>)
      requires Valid() && t < |cells| && Reached(t, key, index, here)
      requires forall x :: MapOf(cells, 0, t, x) == MapOf(before, 0, t, x)
      modifies this
      ensures Valid()
      ensures next.None? <==> Ahead(here, Item(key, index)).None?
      ensures next.Some? ==> next.value < |cells| && Ahead(here, Item(key, index)) == Some(TreeAt(cells, next.value))
      ensures next.Some? ==>
        forall y :: MapOf(cells, 0, next.value, y) == MapOf(before, 0, t, Replaced(here, Item(key, index), Obj(y)))
    {
      ghost var there := TreeAt(cells, t);
      next := EnterItem(t, key, index);
      if next.Some? {
        forall y ensures MapOf(cells, 0, next.value, y) == MapOf(before, 0, t, Replaced(here, Item(key, index), Obj(y))) {
          assert there[key := Arr(there[key].items[index := Obj(y)])] == Replaced(here, Item(key, index), Obj(y));
        }
      }
    }

    /** One argument's path: `tmp` walks down, and the leaf goes where the path ends. */
    method SetPath(steps: seq<Step>, leaf: Scalar) returns (result: Result)
      requires Valid()
      modifies this
      ensures Valid()
      ensures Put(old(Tree()), steps, Leaf(leaf)) == Reported(result, Tree())
    {
      var tmp: nat := 0;
      assert steps[0..] == steps;
      for i := 0 to |steps|
        invariant Valid() && tmp < |cells| && LeadsTo(old(Tree()), steps, Leaf(leaf), cells, tmp, i)
      {
        ghost var before := cells;
        match steps[i] {
          case Skip =>
            TakeSkip(old(Tree()), steps, Leaf(leaf), cells, tmp, i);
          case Name(key) =>
            TakeName(old(Tree()), steps, Leaf(leaf), cells, tmp, i);
            if i == |steps| - 1 {
              Assign(tmp, key, LeafCell(leaf));
              Itself(cells, spots, 0, tmp);
              return Built;
            }
            var next := EnterName(tmp, key);
            if next.None? {
              return CollisionError;
            }
            Arrive(old(Tree()), steps, Leaf(leaf), before, tmp, i, cells, next.value);
            tmp := next.value;
          case Item(key, index) =>
            TakeItem(old(Tree()), steps, Leaf(leaf), cells, tmp, i);
            var ok := Reach(tmp, key, index);
            if !ok {
              return Panic;
            }
            if i == |steps| - 1 {
              PutItem(tmp, key, index, leaf, TreeAt(before, tmp));
              Itself(cells, spots, 0, tmp);
              return Built;
            }
            var next := EnterReached(tmp, key, index, TreeAt(before, tmp), before);
            if next.None? {
              return CollisionError;
            }
            Arrive(old(Tree()), steps, Leaf(leaf), before, tmp, i, cells, next.value);
            tmp := next.value;
        }
      }
      Itself(cells, spots, 0, tmp);
      return Built;
    }

    /** All arguments, built in place, give what putting them one after another gives. */
    method ParseCLI(prefix: string, args: seq<string>, conv: (string, string) -> Scalar) returns (result: Result)
      requires Valid()
      modifies this
      ensures Valid()
      ensures ParseArgs(old(Tree()), prefix, args, conv) == Reported(result, Tree())
    {
      assert args[0..] == args;
      for i := 0 to |args|
        invariant Valid() && ParseArgs(old(Tree()), prefix, args, conv) == ParseArgs(Tree(), prefix, args[i..], conv)
      {
        assert args[i..][0] == args[i] && args[i..][1..] == args[i + 1..];
        var line := ParseArg(prefix, args[i]);
        if line.Some? {
          var outcome := SetPath(StepsOf(line.value.elems), conv(Join(line.value.elems, '.'), line.value.text));
          if outcome != Built {
            return outcome;
          }
        }
      }
      return Built;
    }
  }

  ghost function Reported(result: Result, tree: map<string, Value>): Outcome {
    match result
    case Built => Done(tree)
    case CollisionError => Collision
    case Panic => Crash
  }

  /** The first i steps taken, the rest of the path decides from map t on what the whole path does. */
  ghost predicate LeadsTo(tree: map<string, Value>, steps: seq<Step>, leaf: Value, cells: Cells, t: nat, i: nat)
    requires i <= |steps|
  {
    var sub := Put(TreeAt(cells, t), steps[i..], leaf);
    Put(tree, steps, leaf) == if sub.Done? then Done(MapOf(cells, 0, t, sub.fields)) else sub
  }

  lemma TakeSkip(tree: map<string, Value>, steps: seq<Step>, leaf: Value, cells: Cells, t: nat, i: nat)
    requires i < |steps| && steps[i].Skip? && LeadsTo(tree, steps, leaf, cells, t, i)
    ensures LeadsTo(tree, steps, leaf, cells, t, i + 1)
  {
    assert steps[i..][1..] == steps[i + 1..];
  }

  /** An array element can be reached. */
  ghost predicate Fits(here: map<string, Value>, step: Step) {
    step.Item? ==> Slots(here, step.key, step.index).Some? && step.index < |Slots(here, step.key, step.index).value|
  }

  /** The tree where the next step of the path leads, None for a collision. */
  ghost function Ahead(here: map<string, Value>, step: Step): Option<map<string, Value>>
    requires Fits(here, step)
  {
    match step
    case Skip => Some(here)
    case Name(key) => if key !in here then Some(map[]) else if here[key].Obj? then Some(here[key].fields) else None
    case Item(key, index) =>
      var slot := Slots(here, key, index).value[index];
      if slot.Nil? then Some(map[]) else if slot.Obj? then Some(slot.fields) else None
  }

  /** The tree with another value where the next step leads. */
  ghost function Replaced(here: map<string, Value>, step: Step, value: Value): map<string, Value>
    requires !step.Skip?
    requires Fits(here, step)
  {
    if step.Name? then here[step.key := value]
    else here[step.key := Arr(Slots(here, step.key, step.index).value[step.index := value])]
  }

  /** What the whole path does, told by its next step. */
  ghost predicate Told(tree: map<string, Value>, steps: seq<Step>, leaf: Value, cells: Cells, t: nat, i: nat)
    requires i < |steps| && !steps[i].Skip?
    requires Fits(TreeAt(cells, t), steps[i])
  {
    var here, step := TreeAt(cells, t), steps[i];
    Put(tree, steps, leaf) ==
      if i == |steps| - 1 then Done(MapOf(cells, 0, t, Replaced(here, step, leaf)))
      else if Ahead(here, step).None? then Collision
      else
        var sub := Put(Ahead(here, step).value, steps[i + 1..], leaf);
        if sub.Done? then Done(MapOf(cells, 0, t, Replaced(here, step, Obj(sub.fields)))) else sub
  }

  lemma TakeName(tree: map<string, Value>, steps: seq<Step>, leaf: Value, cells: Cells, t: nat, i: nat)
    requires i < |steps| && steps[i].Name? && LeadsTo(tree, steps, leaf, cells, t, i)
    ensures Told(tree, steps, leaf, cells, t, i)
  {
    assert steps[i..][1..] == steps[i + 1..];
  }

  lemma TakeItem(tree: map<string, Value>, steps: seq<Step>, leaf: Value, cells: Cells, t: nat, i: nat)
    requires i < |steps| && steps[i].Item? && LeadsTo(tree, steps, leaf, cells, t, i)
    ensures if Fits(TreeAt(cells, t), steps[i]) then Told(tree, steps, leaf, cells, t, i)
      else Put(tree, steps, leaf) == Crash
  {
    assert steps[i..][1..] == steps[i + 1..];
  }

  /** Having gone down one step, the rest of the path decides from there. */
  lemma Arrive(tree: map<string, Value>, steps: seq<Step>, leaf: Value, cells: Cells, t: nat, i: nat, cells': Cells, next: nat)
    requires i < |steps| - 1 && !steps[i].Skip?
    requires Fits(TreeAt(cells, t), steps[i])
    requires Told(tree, steps, leaf, cells, t, i) && Ahead(TreeAt(cells, t), steps[i]) == Some(TreeAt(cells', next))
    requires forall y :: MapOf(cells', 0, next, y) == MapOf(cells, 0, t, Replaced(TreeAt(cells, t), steps[i], Obj(y)))
    ensures LeadsTo(tree, steps, leaf, cells', next, i + 1)
  {
  }

  /** An array's element stands for what its cell holds. */
  lemma EntryItem(cells: Cells, spots: seq<Spot>, t: nat, key: string, index: nat)
    requires Linked(cells, spots) && t < |cells| && key in cells[t] && cells[t][key].ArrCell? && index < |cells[t][key].items|
    ensures var v := ValueOf(cells, t, cells[t][key], |cells|, map[]); var c := cells[t][key].items[index];
      && v.Arr? && |v.items| == |cells[t][key].items| && v.items[index] == ValueOf(cells, t, c, |cells|, map[])
      && (c.Ref? ==> t < c.ref < |cells| && v.items[index] == Obj(TreeAt(cells, c.ref)))
      && !c.ArrCell?
  {
    assert LinkedCell(spots, t, key, cells[t][key]);
    assert LinkedItem(spots, t, key, index, cells[t][key].items[index]);
  }

  lemma AssignItemTwice(cells: Cells, t: nat, here: map<string, Value>, there: map<string, Value>, key: string, index: nat, v: Value)
    requires key in here && here[key].Arr? && index < |here[key].items| && there == here[key := Arr(here[key].items[index := v])]
    ensures forall y: map<string, Value> {:trigger MapOf(cells, 0, t, there[key := Arr(there[key].items[index := Obj(y)])])} ::
      MapOf(cells, 0, t, there[key := Arr(there[key].items[index := Obj(y)])])
      == MapOf(cells, 0, t, here[key := Arr(here[key].items[index := Obj(y)])])
  {
    forall y: map<string, Value>
      ensures MapOf(cells, 0, t, there[key := Arr(there[key].items[index := Obj(y)])])
        == MapOf(cells, 0, t, here[key := Arr(here[key].items[index := Obj(y)])])
    {
      assert there[key].items[index := Obj(y)] == here[key].items[index := Obj(y)];
      assert there[key := Arr(here[key].items[index := Obj(y)])] == here[key := Arr(here[key].items[index := Obj(y)])];
    }
  }

  lemma WayDownItem(cells: Cells, spots: seq<Spot>, t: nat, key: string, index: nat, s: nat)
    requires Linked(cells, spots) && t < |cells| && key in cells[t] && cells[t][key].ArrCell?
    requires index < |cells[t][key].items| && cells[t][key].items[index] == Ref(s)
    ensures var here := TreeAt(cells, t);
      && t < s < |cells| && key in here && here[key].Arr? && index < |here[key].items|
      && here[key].items[index] == Obj(TreeAt(cells, s))
      && forall y :: MapOf(cells, 0, s, y) == MapOf(cells, 0, t, here[key := Arr(here[key].items[index := Obj(y)])])
  {
    Entry(cells, t, key);
    EntryItem(cells, spots, t, key, index);
    assert LinkedCell(spots, t, key, cells[t][key]);
    assert LinkedItem(spots, t, key, index, cells[t][key].items[index]);
    var here := TreeAt(cells, t);
    forall y ensures MapOf(cells, 0, s, y) == MapOf(cells, 0, t, here[key := Arr(here[key].items[index := Obj(y)])]) {
      ThroughOwner(cells, spots, 0, t, s, y);
      OwnerOf(cells, spots, t, key, s, y);
      ItemValue(cells, spots, t, key, index, s, y);
    }
  }

  lemma GrownItems(cells: Cells, spots: seq<Spot>, t: nat, key: string, items: seq<Cell>)
    requires Linked(cells, spots) && t < |cells| && key in cells[t] && cells[t][key] == ArrCell(items)
    ensures LinkedCell(spots, t, key, ArrCell(items + [NilCell]))
    ensures var cells' := cells[t := cells[t][key := ArrCell(items + [NilCell])]];
      ValueOf(cells', t, ArrCell(items + [NilCell]), |cells|, map[])
      == Arr(ValueOf(cells, t, ArrCell(items), |cells|, map[]).items + [Nil])
  {
    assert LinkedCell(spots, t, key, cells[t][key]);
    var cells' := cells[t := cells[t][key := ArrCell(items + [NilCell])]];
    SameItems(cells, cells', spots, t, key);
    assert ValueOf(cells', t, ArrCell(items + [NilCell]), |cells|, map[]).items
      == ValueOf(cells, t, ArrCell(items), |cells|, map[]).items + [Nil];
  }

  /** Elements of an array stand for the same after its map was changed. */
  lemma SameItems(cells: Cells, cells': Cells, spots: seq<Spot>, t: nat, key: string)
    requires Linked(cells, spots) && t < |cells| == |cells'| && forall i :: t < i < |cells| ==> cells'[i] == cells[i]
    requires key in cells[t] && cells[t][key].ArrCell?
    ensures forall i :: 0 <= i < |cells[t][key].items| ==>
      LinkedItem(spots, t, key, i, cells[t][key].items[i])
      && ValueOf(cells', t, cells[t][key].items[i], |cells|, map[]) == ValueOf(cells, t, cells[t][key].items[i], |cells|, map[])
  {
    var items := cells[t][key].items;
    assert LinkedCell(spots, t, key, cells[t][key]);
    forall i | 0 <= i < |items|
      ensures LinkedItem(spots, t, key, i, items[i])
      ensures ValueOf(cells', t, items[i], |cells|, map[]) == ValueOf(cells, t, items[i], |cells|, map[])
    {
      assert LinkedItem(spots, t, key, i, items[i]);
      if items[i].Ref? {
        NotReached(cells, cells', spots, items[i].ref, t, |cells|, map[]);
      }
    }
  }

  lemma AssignedItems(cells: Cells, cells': Cells, spots: seq<Spot>, t: nat, key: string, index: nat, c: Cell)
    requires Linked(cells, spots) && t < |cells| == |cells'| && key in cells[t] && cells[t][key].ArrCell?
    requires index < |cells[t][key].items| && LinkedItem(spots, t, key, index, c)
    requires cells' == cells[t := cells[t][key := ArrCell(cells[t][key].items[index := c])]]
    ensures LinkedCell(spots, t, key, cells'[t][key])
    ensures ValueOf(cells', t, cells'[t][key], |cells|, map[])
      == Arr(ValueOf(cells, t, cells[t][key], |cells|, map[]).items[index := ValueOf(cells', t, c, |cells|, map[])])
  {
    SameItems(cells, cells', spots, t, key);
    assert ValueOf(cells', t, cells'[t][key], |cells|, map[]).items
      == ValueOf(cells, t, cells[t][key], |cells|, map[]).items[index := ValueOf(cells', t, c, |cells|, map[])];
  }

  /** What an entry stands for, by what it holds. */
  lemma Entry(cells: Cells, t: nat, key: string)
    requires t < |cells|
    ensures key in TreeAt(cells, t) <==> key in cells[t]
    ensures key in cells[t] ==> TreeAt(cells, t)[key] == ValueOf(cells, t, cells[t][key], |cells|, map[])
    ensures key in cells[t] && cells[t][key].Ref? && t < cells[t][key].ref < |cells| ==>
      ValueOf(cells, t, cells[t][key], |cells|, map[]) == Obj(TreeAt(cells, cells[t][key].ref))
  {
  }

  lemma AssignTwice(cells: Cells, t: nat, here: map<string, Value>, there: map<string, Value>, key: string, v: Value)
    requires there == here[key := v]
    ensures forall y: map<string, Value> {:trigger MapOf(cells, 0, t, there[key := Obj(y)])} ::
      MapOf(cells, 0, t, there[key := Obj(y)]) == MapOf(cells, 0, t, here[key := Obj(y)])
  {
    forall y: map<string, Value>
      ensures MapOf(cells, 0, t, there[key := Obj(y)]) == MapOf(cells, 0, t, here[key := Obj(y)])
    {
      assert there[key := Obj(y)] == here[key := Obj(y)];
    }
  }

  /** Seen from the root, changing the map at a name is changing that entry of its owner. */
  lemma WayDown(cells: Cells, spots: seq<Spot>, t: nat, key: string, s: nat)
    requires Linked(cells, spots) && t < |cells| && key in cells[t] && cells[t][key] == Ref(s)
    ensures t < s < |cells| && TreeAt(cells, t)[key] == Obj(TreeAt(cells, s))
    ensures forall y :: MapOf(cells, 0, s, y) == MapOf(cells, 0, t, TreeAt(cells, t)[key := Obj(y)])
  {
    assert LinkedCell(spots, t, key, cells[t][key]);
    Entry(cells, t, key);
    forall y ensures MapOf(cells, 0, s, y) == MapOf(cells, 0, t, TreeAt(cells, t)[key := Obj(y)]) {
      ThroughOwner(cells, spots, 0, t, s, y);
      OwnerOf(cells, spots, t, key, s, y);
    }
  }

  lemma LinkedMore(cells: Cells, spots: seq<Spot>, spot: Spot)
    requires Linked(cells, spots)
    ensures Linked(cells + [map[]], spots + [spot])
  {
    forall r, key | 0 <= r < |cells| && key in cells[r] ensures LinkedCell(spots + [spot], r, key, cells[r][key]) {
      var c := cells[r][key];
      assert LinkedCell(spots, r, key, c);
      if c.ArrCell? {
        forall i | 0 <= i < |c.items| ensures LinkedItem(spots + [spot], r, key, i, c.items[i]) {
          assert LinkedItem(spots, r, key, i, c.items[i]);
        }
      }
    }
  }
}
