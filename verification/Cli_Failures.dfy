/** When building a tree from arguments panics or collides: read off the tree and the path, without
    building (utils/env_parse.go). */
module CliFailures {
  import opened Options
  import opened Strings
  import opened CliModel
  import opened CliResults

  // ----- One path ------------------------------------------------------------------------------

  /** The tree a step leads to, None if something else is in the way. */
  ghost function Enter(here: map<string, Value>, step: Step): Option<map<string, Value>> {
    match step
    case Skip => Some(here)
    case Name(key) => if key in here then FieldsOf(here[key]) else Some(map[])
    case Item(key, index) =>
      if NoRoom(here, step) then None
      else if key in here && index < |here[key].items| && !here[key].items[index].Nil? then FieldsOf(here[key].items[index])
      else Some(map[])
  }

  ghost function FieldsOf(value: Value): Option<map<string, Value>> {
    if value.Obj? then Some(value.fields) else None
  }

  /** An index too large for a new array, or that goes to what is no array, or beyond the end of an array,
      or is the largest int. */
  ghost predicate NoRoom(here: map<string, Value>, step: Step) {
    && step.Item?
    && if step.key in here then !here[step.key].Arr? || Beyond(|here[step.key].items|, step.index)
       else step.index >= MAX_LEN
  }

  /** An index past the end of an array of length l, by more than it can grow. */
  ghost predicate Beyond(l: nat, index: nat) {
    index > l || index == MAX_INT
  }

  /** The tree the first j steps of a path lead to. */
  ghost function At(fields: map<string, Value>, steps: seq<Step>, j: nat): Option<map<string, Value>>
    requires j <= |steps|
  {
    if j == 0 then Some(fields)
    else
      var here := At(fields, steps, j - 1);
      if here.Some? then Enter(here.value, steps[j - 1]) else None
  }

  /** Step j of the path is reached and finds no room. */
  ghost predicate PanicsAt(fields: map<string, Value>, steps: seq<Step>, j: nat)
    requires j < |steps|
  {
    At(fields, steps, j).Some? && NoRoom(At(fields, steps, j).value, steps[j])
  }

  /** Step j is reached, is not the last, has room, and finds no tree to go on with. */
  ghost predicate CollidesAt(fields: map<string, Value>, steps: seq<Step>, j: nat)
    requires j < |steps|
  {
    && j < |steps| - 1 && At(fields, steps, j).Some? && !NoRoom(At(fields, steps, j).value, steps[j])
    && Enter(At(fields, steps, j).value, steps[j]).None?
  }

  ghost predicate Panics(fields: map<string, Value>, steps: seq<Step>) {
    exists j :: 0 <= j < |steps| && PanicsAt(fields, steps, j)
  }

  ghost predicate Collides(fields: map<string, Value>, steps: seq<Step>) {
    exists j :: 0 <= j < |steps| && CollidesAt(fields, steps, j)
  }

  lemma {:induction false} AtNext(fields: map<string, Value>, steps: seq<Step>, j: nat)
    requires j < |steps|
    ensures var inner := Enter(fields, steps[0]);
      At(fields, steps, j + 1) == if inner.Some? then At(inner.value, steps[1..], j) else None
  {
    if j > 0 { AtNext(fields, steps, j - 1); }
  }

  /** A failure further on is one of the rest of the path. */
  lemma FailsNext(fields: map<string, Value>, steps: seq<Step>, j: nat)
    requires 0 < j < |steps|
    ensures var inner := Enter(fields, steps[0]);
      && (PanicsAt(fields, steps, j) <==> inner.Some? && PanicsAt(inner.value, steps[1..], j - 1))
      && (CollidesAt(fields, steps, j) <==> inner.Some? && CollidesAt(inner.value, steps[1..], j - 1))
  {
    AtNext(fields, steps, j - 1);
  }

  /** A path fails at its first step or where the rest of it fails. */
  lemma PanicsInside(fields: map<string, Value>, steps: seq<Step>)
    requires steps != []
    ensures var inner := Enter(fields, steps[0]);
      Panics(fields, steps) <==> NoRoom(fields, steps[0]) || (inner.Some? && Panics(inner.value, steps[1..]))
  {
    var inner := Enter(fields, steps[0]);
    assert PanicsAt(fields, steps, 0) <==> NoRoom(fields, steps[0]);
    if Panics(fields, steps) {
      var j :| 0 <= j < |steps| && PanicsAt(fields, steps, j);
      if j > 0 { FailsNext(fields, steps, j); }
    }
    if inner.Some? && Panics(inner.value, steps[1..]) {
      var j :| 0 <= j < |steps[1..]| && PanicsAt(inner.value, steps[1..], j);
      FailsNext(fields, steps, j + 1);
    }
  }

  lemma CollidesInside(fields: map<string, Value>, steps: seq<Step>)
    requires steps != []
    ensures var inner := Enter(fields, steps[0]);
      Collides(fields, steps) <==>
        (|steps| > 1 && !NoRoom(fields, steps[0]) && inner.None?) || (inner.Some? && Collides(inner.value, steps[1..]))
  {
    var inner := Enter(fields, steps[0]);
    assert CollidesAt(fields, steps, 0) <==> |steps| > 1 && !NoRoom(fields, steps[0]) && inner.None?;
    if Collides(fields, steps) {
      var j :| 0 <= j < |steps| && CollidesAt(fields, steps, j);
      if j > 0 { FailsNext(fields, steps, j); }
    }
    if inner.Some? && Collides(inner.value, steps[1..]) {
      var j :| 0 <= j < |steps[1..]| && CollidesAt(inner.value, steps[1..], j);
      FailsNext(fields, steps, j + 1);
    }
  }

  /** EXACTLY WHEN ONE PATH FAILS.  Putting a leaf panics if and only if the path reaches an index without
      room; it collides if and only if it reaches, before its end, something that is no tree. */
  lemma {:induction false} PutFailsIff(fields: map<string, Value>, steps: seq<Step>, leaf: Value)
    ensures Put(fields, steps, leaf) == Crash <==> Panics(fields, steps)
    ensures Put(fields, steps, leaf) == Collision <==> Collides(fields, steps)
    decreases |steps|
  {
    if steps != [] {
      PanicsInside(fields, steps);
      CollidesInside(fields, steps);
      var inner := Enter(fields, steps[0]);
      if inner.Some? {
        PutFailsIff(inner.value, steps[1..], leaf);
      }
    }
  }

  // ----- Indices into one array ----------------------------------------------------------------

  function Max(a: nat, b: nat): nat {
    if a < b then b else a
  }

  /** The length an array of length l has reached after the first j of these indices. */
  function LengthAfter(l: nat, indices: seq<nat>, j: nat): nat
    requires j <= |indices|
  {
    if j == 0 then l else Max(LengthAfter(l, indices, j - 1), indices[j - 1] + 1)
  }

  lemma {:induction false} LengthNext(l: nat, indices: seq<nat>, j: nat)
    requires j < |indices|
    ensures LengthAfter(l, indices, j + 1) == LengthAfter(Max(l, indices[0] + 1), indices[1..], j)
  {
    if j > 0 { LengthNext(l, indices, j - 1); }
  }

  /** Index j is the largest int, or beyond the end of the array there is by then. */
  ghost predicate TooFar(l: nat, indices: seq<nat>, j: nat)
    requires j < |indices|
  {
    Beyond(LengthAfter(l, indices, j), indices[j])
  }

  ghost predicate AnyTooFar(l: nat, indices: seq<nat>) {
    exists j :: 0 <= j < |indices| && TooFar(l, indices, j)
  }

  function ItemSettings(key: string, indices: seq<nat>, leaves: seq<Value>): (r: seq<Setting>)
    requires |leaves| == |indices|
    ensures |r| == |indices|
  {
    seq(|indices|, j requires 0 <= j < |indices| => Setting([Item(key, indices[j])], leaves[j]))
  }

  lemma SomeTooFar(l: nat, indices: seq<nat>)
    requires indices != []
    ensures AnyTooFar(l, indices) <==> TooFar(l, indices, 0) || AnyTooFar(Max(l, indices[0] + 1), indices[1..])
  {
    var l', rest := Max(l, indices[0] + 1), indices[1..];
    if j :| 0 <= j < |indices| && TooFar(l, indices, j) {
      if j > 0 {
        LengthNext(l, indices, j - 1);
        assert TooFar(l', rest, j - 1);
      }
    }
    if j :| 0 <= j < |rest| && TooFar(l', rest, j) {
      LengthNext(l, indices, j);
      assert TooFar(l, indices, j + 1);
    }
  }

  /** One index into an array that is there. */
  lemma PutIndex(fields: map<string, Value>, key: string, index: nat, leaf: Value)
    requires key in fields && fields[key].Arr?
    ensures var l := |fields[key].items|; var outcome := Put(fields, [Item(key, index)], leaf);
      && (outcome == Crash <==> Beyond(l, index))
      && (outcome.Done? <==> outcome != Crash)
      && (outcome.Done? ==> key in outcome.fields && outcome.fields[key].Arr? && |outcome.fields[key].items| == Max(l, index + 1))
  {
  }

  /** Into an array that is there, indices in turn panic exactly when one of them is too far; else all
      their leaves are put. */
  lemma {:induction false} IndicesPanicIff(fields: map<string, Value>, key: string, indices: seq<nat>, leaves: seq<Value>)
    requires |leaves| == |indices| && key in fields && fields[key].Arr?
    ensures var l := |fields[key].items|; var outcome := PutAll(fields, ItemSettings(key, indices, leaves));
      && (outcome == Crash <==> AnyTooFar(l, indices))
      && (outcome.Done? <==> outcome != Crash)
    decreases |indices|
  {
    if indices != [] {
      var settings := ItemSettings(key, indices, leaves);
      PutIndex(fields, key, indices[0], leaves[0]);
      assert settings[1..] == ItemSettings(key, indices[1..], leaves[1..]);
      SomeTooFar(|fields[key].items|, indices);
      var outcome := Put(fields, [Item(key, indices[0])], leaves[0]);
      if outcome.Done? {
        IndicesPanicIff(outcome.fields, key, indices[1..], leaves[1..]);
      }
    }
  }

  /** The first index is too large for a new array, or a later one is beyond the end of the array that the
      ones before it have made. */
  ghost predicate Gap(indices: seq<nat>) {
    exists j :: 0 <= j < |indices| && GapAt(indices, j)
  }

  ghost predicate GapAt(indices: seq<nat>, j: nat)
    requires j < |indices|
  {
    if j == 0 then indices[0] >= MAX_LEN else TooFar(0, indices, j)
  }

  /** A first index makes its array; from then on as above. */
  lemma NewArrayPanicsIff(fields: map<string, Value>, key: string, indices: seq<nat>, leaves: seq<Value>)
    requires |leaves| == |indices| && key !in fields
    ensures var outcome := PutAll(fields, ItemSettings(key, indices, leaves));
      (outcome == Crash <==> Gap(indices)) && (outcome.Done? <==> outcome != Crash)
  {
    if indices != [] {
      var settings := ItemSettings(key, indices, leaves);
      assert settings[1..] == ItemSettings(key, indices[1..], leaves[1..]);
      GapAfterFirst(indices);
      var outcome := Put(fields, [Item(key, indices[0])], leaves[0]);
      if outcome.Done? {
        IndicesPanicIff(outcome.fields, key, indices[1..], leaves[1..]);
      }
    }
  }

  lemma GapAfterFirst(indices: seq<nat>)
    requires indices != []
    ensures Gap(indices) <==> indices[0] >= MAX_LEN || AnyTooFar(indices[0] + 1, indices[1..])
  {
    var l, rest := indices[0] + 1, indices[1..];
    assert GapAt(indices, 0) <==> indices[0] >= MAX_LEN;
    if j :| 0 <= j < |indices| && GapAt(indices, j) {
      if j > 0 {
        LengthNext(0, indices, j - 1);
        assert TooFar(l, rest, j - 1);
      }
    }
    if j :| 0 <= j < |rest| && TooFar(l, rest, j) {
      LengthNext(0, indices, j);
      assert GapAt(indices, j + 1);
    }
  }

  // ----- Arguments -----------------------------------------------------------------------------

  /** The arguments `key[i]=text` for these indices. */
  function IndexArgs(key: string, indices: seq<nat>, texts: seq<string>): (r: seq<string>)
    requires |texts| == |indices|
    ensures |r| == |indices|
  {
    seq(|indices|, j requires 0 <= j < |indices| => ItemElem(key, indices[j]) + "=" + texts[j])
  }

  /** EXACTLY WHEN INDICES PANIC.  Arguments that set elements of one array panic if and only if the
      first is too large or a later one leaves a gap after those before it; otherwise the tree is built. */
  lemma IndexArgsPanicIff(key: string, indices: seq<nat>, texts: seq<string>, conv: (string, string) -> Scalar)
    requires ArrayName(key) && '.' !in key && '=' !in key && |texts| == |indices|
    requires forall j :: 0 <= j < |indices| ==> indices[j] <= MAX_INT
    ensures var outcome := ParseArgs(map[], "", IndexArgs(key, indices, texts), conv);
      (outcome == Crash <==> Gap(indices)) && (outcome.Done? <==> outcome != Crash)
  {
    var lines := seq(|indices|, j requires 0 <= j < |indices| => Line([ItemElem(key, indices[j])], texts[j]));
    var leaves := seq(|indices|, j requires 0 <= j < |indices| => SettingOf([], lines[j], conv).leaf);
    forall j | 0 <= j < |indices|
      ensures CleanElems(lines[j].elems) && ArgOf(lines[j]) == IndexArgs(key, indices, texts)[j]
      ensures SettingOf([], lines[j], conv) == Setting([Item(key, indices[j])], leaves[j])
    {
      ItemElemClean(key, indices[j]);
      StepOfItem(key, indices[j]);
      assert StepsOf(lines[j].elems) == [StepOf(ItemElem(key, indices[j]))];
    }
    assert ArgsOf(lines) == IndexArgs(key, indices, texts);
    assert SettingsOf([], lines, conv) == ItemSettings(key, indices, leaves);
    ParseArgsOf(map[], "", lines, conv);
    NewArrayPanicsIff(map[], key, indices, leaves);
  }

  lemma SpelledOut()
    ensures ItemElem("a", 0) == "a[0]" && ItemElem("a", 2) == "a[2]"
  {
    assert Decimal(0) == "0" && Decimal(2) == "2";
  }

  /** A gap. */
  lemma GapPanics(conv: (string, string) -> Scalar)
    ensures ParseArgs(map[], "", ["a[0]=x", "a[2]=y"], conv) == Crash
  {
    var args := IndexArgs("a", [0, 2], ["x", "y"]);
    SpelledOut();
    assert args[0] == "a[0]" + "=" + "x" == "a[0]=x" && args[1] == "a[2]" + "=" + "y" == "a[2]=y";
    assert args == ["a[0]=x", "a[2]=y"];
    assert LengthAfter(0, [0, 2], 1) == 1 && [0, 2][1] == 2;
    assert GapAt([0, 2], 1);
    IndexArgsPanicIff("a", [0, 2], ["x", "y"], conv);
  }

  /** An index to what is a leaf already. */
  lemma IndexIntoLeafPanics(conv: (string, string) -> Scalar)
    ensures ParseArgs(map[], "", ["a=x", "a[0]=y"], conv) == Crash
  {
    var lines := [Line(["a"], "x"), Line(["a[0]"], "y")];
    var args := ArgsOf(lines);
    assert args[0] == "a" + "=" + "x" == "a=x" && args[1] == "a[0]" + "=" + "y" == "a[0]=y";
    assert args == ["a=x", "a[0]=y"];
    ParseArgsOf(map[], "", lines, conv);
    LeafThenIndex(lines, conv);
  }

  lemma LeafThenIndex(lines: seq<Line>, conv: (string, string) -> Scalar)
    requires lines == [Line(["a"], "x"), Line(["a[0]"], "y")]
    ensures PutAll(map[], SettingsOf([], lines, conv)) == Crash
  {
    SpelledOut();
    StepOfItem("a", 0);
    var settings := SettingsOf([], lines, conv);
    assert StepsOf(["a"]) == [Name("a")] && StepsOf(["a[0]"]) == [Item("a", 0)];
    assert Put(map[], settings[0].steps, settings[0].leaf) == Done(map["a" := settings[0].leaf]);
    assert settings[1..][0] == settings[1];
  }
}
