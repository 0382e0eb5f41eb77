/** What building a tree from arguments means: one path is set and nothing else, and arguments that
    spell out a tree build that tree (utils/env_parse.go). */
module CliResults {
  import opened Options
  import opened Strings
  import opened CliModel

  // ----- One path ------------------------------------------------------------------------------

  /** The value at the end of a path; an unfilled array element counts as absent. */
  ghost function Get(fields: map<string, Value>, steps: seq<Step>): Option<Value>
    decreases |steps|, 0
  {
    if steps == [] then None
    else
      match steps[0]
      case Skip => Get(fields, steps[1..])
      case Name(key) => if key in fields then GetFrom(fields[key], steps[1..]) else None
      case Item(key, index) =>
        if key in fields && fields[key].Arr? && index < |fields[key].items| then GetFrom(fields[key].items[index], steps[1..])
        else None
  }

  ghost function GetFrom(value: Value, steps: seq<Step>): Option<Value>
    decreases |steps|, 1
  {
    if steps == [] then (if value.Nil? then None else Some(value))
    else if value.Obj? then Get(value.fields, steps) else None
  }

  /** The two paths part: at different names, or at different elements of an array. */
  ghost predicate Apart(p: seq<Step>, q: seq<Step>)
    decreases |p| + |q|
  {
    && p != [] && q != []
    && if p[0].Skip? then Apart(p[1..], q)
       else if q[0].Skip? then Apart(p, q[1..])
       else if p[0] == q[0] then Apart(p[1..], q[1..])
       else p[0].key != q[0].key || (p[0].Item? && q[0].Item?)
  }

  lemma GetNothing(steps: seq<Step>)
    ensures Get(map[], steps) == None
    decreases |steps|
  {
    if steps != [] && steps[0].Skip? { GetNothing(steps[1..]); }
  }

  /** FRAME.  Setting one path leaves every path that parts from it as it was. */
  lemma {:induction false} PutFrame(fields: map<string, Value>, p: seq<Step>, leaf: Value, q: seq<Step>)
    requires Put(fields, p, leaf).Done? && Apart(p, q)
    ensures Get(Put(fields, p, leaf).fields, q) == Get(fields, q)
    decreases |p| + |q|
  {
    if p[0].Skip? {
      PutFrame(fields, p[1..], leaf, q);
    } else if q[0].Skip? {
      PutFrame(fields, p, leaf, q[1..]);
    } else if p[0] == q[0] {
      GetNothing(q[1..]);
      if p[0].Name? {
        PutFrame(if p[0].key in fields then fields[p[0].key].fields else map[], p[1..], leaf, q[1..]);
      } else {
        var slot := Slots(fields, p[0].key, p[0].index).value[p[0].index];
        PutFrame(if slot.Nil? then map[] else slot.fields, p[1..], leaf, q[1..]);
      }
    }
  }

  /** The path set reads the leaf afterwards. */
  lemma {:induction false} PutGet(fields: map<string, Value>, p: seq<Step>, leaf: Value)
    requires Put(fields, p, leaf).Done? && p != [] && !p[|p| - 1].Skip? && !leaf.Nil?
    ensures Get(Put(fields, p, leaf).fields, p) == Some(leaf)
    decreases |p|
  {
    if p[0].Skip? {
      PutGet(fields, p[1..], leaf);
    } else if |p| > 1 {
      if p[0].Name? {
        PutGet(if p[0].key in fields then fields[p[0].key].fields else map[], p[1..], leaf);
      } else {
        var slot := Slots(fields, p[0].key, p[0].index).value[p[0].index];
        PutGet(if slot.Nil? then map[] else slot.fields, p[1..], leaf);
      }
    }
  }

  // ----- Spelling out a tree -------------------------------------------------------------------

  /** A tree in the order in which it is spelled out. */
  datatype Fields = NoFields | Field(name: string, value: Content, rest: Fields)
  datatype Content = Plain(text: string) | Sub(fields: Fields) | List(items: Items)
  datatype Items = NoItems | OneItem(value: Content, rest: Items)

  /** The text ends in an index in brackets whose digits start at j, and something on the same line is
      before the bracket. */
  predicate Bracketed(elem: string, j: nat) {
    && 2 <= j < |elem| - 1 && elem[|elem| - 1] == ']' && Digits(elem[j..|elem| - 1])
    && elem[j - 1] == '[' && elem[j - 2] != '\n'
  }

  predicate Unbracketed(elem: string) {
    forall j :: 0 <= j < |elem| ==> !Bracketed(elem, j)
  }

  /** A name without separators that does not end in an index. */
  predicate PlainName(name: string) {
    '.' !in name && '=' !in name && Unbracketed(name)
  }

  /** A name that can carry an index. */
  predicate ArrayName(name: string) {
    name != "" && '\n' !in name
  }

  function Names(fields: Fields): set<string> {
    match fields
    case NoFields => {}
    case Field(name, _, rest) => {name} + Names(rest)
  }

  function Length(items: Items): nat {
    match items
    case NoItems => 0
    case OneItem(_, rest) => 1 + Length(rest)
  }

  /** Names differ and are read as themselves, nothing is empty, lists hold no lists. */
  predicate SpellableFields(fields: Fields) {
    match fields
    case NoFields => true
    case Field(name, value, rest) =>
      && PlainName(name) && (value.List? ==> ArrayName(name)) && name !in Names(rest)
      && Spellable(value) && SpellableFields(rest)
  }

  predicate Spellable(content: Content) {
    match content
    case Plain(_) => true
    case Sub(fields) => fields != NoFields && SpellableFields(fields)
    case List(items) => items != NoItems && Length(items) < MAX_INT && SpellableItems(items)
  }

  predicate SpellableItems(items: Items) {
    match items
    case NoItems => true
    case OneItem(value, rest) => !value.List? && Spellable(value) && SpellableItems(rest)
  }

  function Under(elem: string, lines: seq<Line>): (r: seq<Line>)
    ensures |r| == |lines|
  {
    seq(|lines|, i requires 0 <= i < |lines| => Line([elem] + lines[i].elems, lines[i].text))
  }

  function ItemElem(name: string, index: nat): string {
    name + "[" + Decimal(index) + "]"
  }

  function Lines(fields: Fields): seq<Line>
    decreases fields
  {
    match fields
    case NoFields => []
    case Field(name, value, rest) => ContentLines(name, value) + Lines(rest)
  }

  function ContentLines(elem: string, content: Content): seq<Line>
    decreases content
  {
    match content
    case Plain(text) => [Line([elem], text)]
    case Sub(fields) => Under(elem, Lines(fields))
    case List(items) => ItemLines(elem, 0, items)
  }

  function ItemLines(name: string, index: nat, items: Items): seq<Line>
    decreases items
  {
    match items
    case NoItems => []
    case OneItem(value, rest) =>
      ContentLines(ItemElem(name, index), value) + ItemLines(name, index + 1, rest)
  }

  /** The tree itself; a leaf is converted knowing its path. */
  function Tree(fields: Fields, at: seq<string>, conv: (string, string) -> Scalar): map<string, Value>
    decreases fields
  {
    match fields
    case NoFields => map[]
    case Field(name, value, rest) => Tree(rest, at, conv)[name := TreeOf(name, value, at, conv)]
  }

  function TreeOf(elem: string, content: Content, at: seq<string>, conv: (string, string) -> Scalar): Value
    decreases content
  {
    match content
    case Plain(text) => Leaf(conv(Join(at + [elem], '.'), text))
    case Sub(fields) => Obj(Tree(fields, at + [elem], conv))
    case List(items) => Arr(TreeItems(elem, 0, items, at, conv))
  }

  function TreeItems(name: string, index: nat, items: Items, at: seq<string>, conv: (string, string) -> Scalar): (r: seq<Value>)
    ensures |r| == Length(items)
    decreases items
  {
    match items
    case NoItems => []
    case OneItem(value, rest) =>
      [TreeOf(ItemElem(name, index), value, at, conv)] + TreeItems(name, index + 1, rest, at, conv)
  }

  // ----- Putting one leaf after another --------------------------------------------------------

  /** A line below the path `at`, as it is put. */
  datatype Setting = Setting(steps: seq<Step>, leaf: Value)

  function SettingOf(at: seq<string>, line: Line, conv: (string, string) -> Scalar): Setting {
    Setting(StepsOf(line.elems), Leaf(conv(Join(at + line.elems, '.'), line.text)))
  }

  function SettingsOf(at: seq<string>, lines: seq<Line>, conv: (string, string) -> Scalar): (r: seq<Setting>)
    ensures |r| == |lines|
  {
    seq(|lines|, i requires 0 <= i < |lines| => SettingOf(at, lines[i], conv))
  }

  ghost function PutAll(fields: map<string, Value>, settings: seq<Setting>): Outcome
    decreases |settings|
  {
    if settings == [] then Done(fields)
    else
      var outcome := Put(fields, settings[0].steps, settings[0].leaf);
      if outcome.Done? then PutAll(outcome.fields, settings[1..]) else outcome
  }

  lemma {:induction false} PutAllAppend(fields: map<string, Value>, xs: seq<Setting>, ys: seq<Setting>)
    requires PutAll(fields, xs).Done?
    ensures PutAll(fields, xs + ys) == PutAll(PutAll(fields, xs).fields, ys)
    decreases |xs|
  {
    if xs == [] {
      assert xs + ys == ys;
    } else {
      assert (xs + ys)[0] == xs[0] && (xs + ys)[1..] == xs[1..] + ys;
      PutAllAppend(Put(fields, xs[0].steps, xs[0].leaf).fields, xs[1..], ys);
    }
  }

  lemma SettingsAppend(at: seq<string>, xs: seq<Line>, ys: seq<Line>, conv: (string, string) -> Scalar)
    ensures SettingsOf(at, xs + ys, conv) == SettingsOf(at, xs, conv) + SettingsOf(at, ys, conv)
  {
  }

  function Below(step: Step, settings: seq<Setting>): (r: seq<Setting>)
    ensures |r| == |settings|
  {
    seq(|settings|, i requires 0 <= i < |settings| => Setting([step] + settings[i].steps, settings[i].leaf))
  }

  lemma SettingsUnder(at: seq<string>, elem: string, lines: seq<Line>, conv: (string, string) -> Scalar)
    ensures SettingsOf(at, Under(elem, lines), conv) == Below(StepOf(elem), SettingsOf(at + [elem], lines, conv))
  {
    forall i | 0 <= i < |lines|
      ensures SettingOf(at, Line([elem] + lines[i].elems, lines[i].text), conv)
        == Setting([StepOf(elem)] + StepsOf(lines[i].elems), SettingOf(at + [elem], lines[i], conv).leaf)
    {
      StepsOfCons(elem, lines[i].elems);
      assert at + ([elem] + lines[i].elems) == at + [elem] + lines[i].elems;
    }
  }

  lemma StepsOfCons(elem: string, elems: seq<string>)
    ensures StepsOf([elem] + elems) == [StepOf(elem)] + StepsOf(elems)
  {
  }

  ghost predicate NoneEmpty(settings: seq<Setting>) {
    forall i :: 0 <= i < |settings| ==> settings[i].steps != []
  }

  /** Leaves put below a name go to the tree below it. */
  lemma {:induction false} PutAllBelowName(fields: map<string, Value>, key: string, settings: seq<Setting>, below: map<string, Value>)
    requires settings != [] && NoneEmpty(settings) && PutAll(below, settings).Done?
    requires if key in fields then fields[key] == Obj(below) else below == map[]
    ensures PutAll(fields, Below(Name(key), settings)) == Done(fields[key := Obj(PutAll(below, settings).fields)])
    decreases |settings|
  {
    var first := Put(below, settings[0].steps, settings[0].leaf).fields;
    var step := [Name(key)] + settings[0].steps;
    assert step[1..] == settings[0].steps;
    assert Put(fields, step, settings[0].leaf) == Done(fields[key := Obj(first)]);
    assert Below(Name(key), settings)[1..] == Below(Name(key), settings[1..]);
    if |settings| > 1 {
      PutAllBelowName(fields[key := Obj(first)], key, settings[1..], first);
      var last := Obj(PutAll(first, settings[1..]).fields);
      assert fields[key := Obj(first)][key := last] == fields[key := last];
    } else {
      assert settings[1..] == [];
    }
  }

  /** Leaves put below an element of an array go to the tree below it. */
  lemma {:induction false} PutAllBelowItem(fields: map<string, Value>, key: string, index: nat, slots: seq<Value>,
                                           settings: seq<Setting>, below: map<string, Value>)
    requires settings != [] && NoneEmpty(settings) && PutAll(below, settings).Done?
    requires Slots(fields, key, index) == Some(slots) && index < |slots|
    requires slots[index] == Obj(below) || (slots[index] == Nil && below == map[])
    ensures PutAll(fields, Below(Item(key, index), settings))
      == Done(fields[key := Arr(slots[index := Obj(PutAll(below, settings).fields)])])
    decreases |settings|
  {
    var first := Put(below, settings[0].steps, settings[0].leaf).fields;
    var step := [Item(key, index)] + settings[0].steps;
    assert step[1..] == settings[0].steps;
    var slots' := slots[index := Obj(first)];
    var fields' := fields[key := Arr(slots')];
    assert Put(fields, step, settings[0].leaf) == Done(fields');
    assert Below(Item(key, index), settings)[1..] == Below(Item(key, index), settings[1..]);
    if |settings| > 1 {
      PutAllBelowItem(fields', key, index, slots', settings[1..], first);
      var last := Obj(PutAll(first, settings[1..]).fields);
      assert slots'[index := last] == slots[index := last];
      assert fields'[key := Arr(slots[index := last])] == fields[key := Arr(slots[index := last])];
    } else {
      assert settings[1..] == [];
    }
  }

  lemma {:induction false} PutOne(fields: map<string, Value>, at: seq<string>, elem: string, text: string, conv: (string, string) -> Scalar)
    ensures PutAll(fields, SettingsOf(at, [Line([elem], text)], conv))
      == Put(fields, [StepOf(elem)], Leaf(conv(Join(at + [elem], '.'), text)))
  {
    assert StepsOf([elem]) == [StepOf(elem)];
    assert SettingsOf(at, [Line([elem], text)], conv)[1..] == [];
  }

  // ----- Element names -------------------------------------------------------------------------

  lemma {:induction false} DigitsStartIs(s: string, j: nat, e: nat)
    requires 0 < j <= e <= |s| && !('0' <= s[j - 1] <= '9') && forall k :: j <= k < e ==> '0' <= s[k] <= '9'
    ensures DigitsStart(s, e) == j
    decreases e
  {
    if e > j { DigitsStartIs(s, j, e - 1); }
  }

  lemma {:induction false} LastLineWhole(s: string)
    requires '\n' !in s
    ensures LastLine(s) == s
  {
    if s != "" {
      LastLineWhole(s[..|s| - 1]);
      assert s == s[..|s| - 1] + [s[|s| - 1]];
    }
  }

  lemma StepOfParts(elem: string, j: nat, name: string, digits: string)
    requires 2 <= j < |elem| - 1 && elem[j - 1] == '[' && elem[|elem| - 1] == ']'
    requires elem[..j - 1] == name && elem[j..|elem| - 1] == digits
    requires Digits(digits) && DigitsValue(digits) <= MAX_INT && '\n' !in name
    ensures StepOf(elem) == Item(name, DigitsValue(digits))
  {
    assert forall k :: j <= k < |elem| - 1 ==> elem[k] == digits[k - j];
    DigitsStartIs(elem, j, |elem| - 1);
    LastLineWhole(name);
  }

  /** A name with an index is read as that element. */
  lemma StepOfItem(name: string, index: nat)
    requires ArrayName(name) && index <= MAX_INT
    ensures StepOf(ItemElem(name, index)) == Item(name, index)
  {
    var digits := Decimal(index);
    Parts(name, digits);
    StepOfParts(ItemElem(name, index), |name| + 1, name, digits);
  }

  lemma {:induction false} DigitsStartIn(s: string, e: nat)
    requires e <= |s|
    ensures DigitsStart(s, e) > 0 && e > 0 ==> DigitsStart(s, e) == e || !('0' <= s[DigitsStart(s, e) - 1] <= '9')
  {
    if e > 0 && '0' <= s[e - 1] <= '9' { DigitsStartIn(s, e - 1); }
  }

  lemma LastLineEmpty(s: string)
    ensures LastLine(s) == "" <==> s == "" || s[|s| - 1] == '\n'
  {
  }

  /** A name that does not end in an index is a name: one that is empty, or does not end in `]`, or has
      no digits between its last brackets, or nothing before them. */
  lemma StepOfName(elem: string)
    requires Unbracketed(elem)
    ensures StepOf(elem) == Name(elem)
  {
    var n := |elem|;
    if n >= 4 && elem[n - 1] == ']' {
      var j := DigitsStart(elem, n - 1);
      if j != n - 1 && j > 0 && elem[j - 1] == '[' {
        var digits := elem[j..n - 1];
        assert forall k :: 0 <= k < |digits| ==> digits[k] == elem[j + k];
        assert Digits(digits);
        LastLineEmpty(elem[..j - 1]);
        assert !Bracketed(elem, j);
      }
    }
  }

  lemma StepOfPlain(elem: string)
    requires elem == "" || elem[|elem| - 1] != ']'
    ensures StepOf(elem) == Name(elem)
  {
    StepOfName(elem);
  }

  lemma StepOfNoDigits(name: string, inner: string)
    requires '[' !in inner && !Digits(inner)
    ensures var elem := name + "[" + inner + "]"; StepOf(elem) == Name(elem)
  {
    var elem := name + "[" + inner + "]";
    var n := |name| + 1;
    assert elem[n..|elem| - 1] == inner && elem[n - 1] == '[';
    assert forall i :: n <= i < |elem| - 1 ==> elem[i] == inner[i - n];
    forall j | 0 <= j < |elem| ensures !Bracketed(elem, j) {
      var digits := if j < |elem| - 1 then elem[j..|elem| - 1] else "";
      assert forall i :: j <= i < j + |digits| ==> elem[i] == digits[i - j];
    }
    StepOfName(elem);
  }

  /** A name that does end in an index goes to that element of the array it names, which is what stands
      on the last line before the bracket; but an index too large for an int is passed over. */
  lemma StepOfBracketed(elem: string, j: nat, lines: string, key: string)
    requires Bracketed(elem, j) && elem[..j - 1] == lines + key
    requires key != "" && '\n' !in key && (lines == "" || lines[|lines| - 1] == '\n')
    ensures var index := DigitsValue(elem[j..|elem| - 1]);
      StepOf(elem) == if index <= MAX_INT then Item(key, index) else Skip
  {
    var digits := elem[j..|elem| - 1];
    assert forall k :: j <= k < |elem| - 1 ==> elem[k] == digits[k - j];
    DigitsStartIs(elem, j, |elem| - 1);
    LastLineIs(lines, key);
  }

  lemma {:induction false} LastLineIs(lines: string, key: string)
    requires '\n' !in key && (lines == "" || lines[|lines| - 1] == '\n')
    ensures LastLine(lines + key) == key
    decreases |key|
  {
    if key == "" {
      assert lines + key == lines;
    } else {
      var s := lines + key;
      assert s[..|s| - 1] == lines + key[..|key| - 1];
      LastLineIs(lines, key[..|key| - 1]);
      assert key == key[..|key| - 1] + [key[|key| - 1]];
    }
  }

  /** An argument without `=` sets nothing. */
  lemma NoSeparator(fields: map<string, Value>, prefix: string, args: seq<string>, conv: (string, string) -> Scalar)
    requires args != [] && '=' !in args[0]
    ensures ParseArgs(fields, prefix, args, conv) == ParseArgs(fields, prefix, args[1..], conv)
  {
  }

  lemma Parts(name: string, digits: string)
    ensures var elem, j := name + "[" + digits + "]", |name| + 1;
      && |elem| == j + |digits| + 1 && elem[j - 1] == '[' && elem[|elem| - 1] == ']'
      && elem[..j - 1] == name && elem[j..|elem| - 1] == digits
  {
  }

  // ----- Round trip ----------------------------------------------------------------------------

  lemma {:induction false} TreeKeys(fields: Fields, at: seq<string>, conv: (string, string) -> Scalar)
    ensures Tree(fields, at, conv).Keys == Names(fields)
    decreases fields
  {
    if fields.Field? { TreeKeys(fields.rest, at, conv); }
  }

  /** No line is without a path, and no element of one holds a separator. */
  ghost predicate Clean(lines: seq<Line>) {
    forall i :: 0 <= i < |lines| ==> lines[i].elems != [] && CleanElems(lines[i].elems)
  }

  ghost predicate CleanElems(elems: seq<string>) {
    forall j :: 0 <= j < |elems| ==> '.' !in elems[j] && '=' !in elems[j]
  }

  lemma UnderClean(elem: string, lines: seq<Line>)
    requires Clean(lines) && '.' !in elem && '=' !in elem
    ensures Clean(Under(elem, lines))
  {
  }

  lemma ItemElemClean(name: string, index: nat)
    requires '.' !in name && '=' !in name
    ensures '.' !in ItemElem(name, index) && '=' !in ItemElem(name, index)
  {
    var digits := Decimal(index);
    assert forall k :: 0 <= k < |digits| ==> '0' <= digits[k] <= '9';
  }

  lemma {:induction false} LinesClean(fields: Fields)
    requires SpellableFields(fields)
    ensures Clean(Lines(fields)) && (fields != NoFields ==> Lines(fields) != [])
    decreases fields
  {
    if fields.Field? {
      LinesClean(fields.rest);
      match fields.value
      case Plain(_) =>
      case Sub(sub) =>
        LinesClean(sub);
        UnderClean(fields.name, Lines(sub));
      case List(items) => ItemLinesClean(fields.name, 0, items);
    }
  }

  lemma {:induction false} ItemLinesClean(name: string, index: nat, items: Items)
    requires SpellableItems(items) && '.' !in name && '=' !in name
    ensures Clean(ItemLines(name, index, items)) && (items != NoItems ==> ItemLines(name, index, items) != [])
    decreases items
  {
    if items.OneItem? {
      ItemElemClean(name, index);
      ItemLinesClean(name, index + 1, items.rest);
      match items.value
      case Plain(_) =>
      case Sub(sub) =>
        LinesClean(sub);
        UnderClean(ItemElem(name, index), Lines(sub));
      case List(_) =>
    }
  }

  lemma CleanSettings(at: seq<string>, lines: seq<Line>, conv: (string, string) -> Scalar)
    requires Clean(lines)
    ensures NoneEmpty(SettingsOf(at, lines, conv))
  {
  }

  /** Putting the lines of a tree adds the tree. */
  lemma {:induction false} PutTree(fields: map<string, Value>, at: seq<string>, tree: Fields, conv: (string, string) -> Scalar)
    requires SpellableFields(tree) && Names(tree) !! fields.Keys
    ensures PutAll(fields, SettingsOf(at, Lines(tree), conv)) == Done(fields + Tree(tree, at, conv))
    decreases tree, 0
  {
    match tree
    case NoFields => assert fields + map[] == fields;
    case Field(name, content, rest) =>
      var value := TreeOf(name, content, at, conv);
      PutContent(fields, at, name, content, conv);
      PutTree(fields[name := value], at, rest, conv);
      PutTwo(fields, fields[name := value], at, ContentLines(name, content), Lines(rest), conv);
      TreeKeys(rest, at, conv);
      AddLast(fields, name, value, Tree(rest, at, conv));
  }

  lemma AddLast(fields: map<string, Value>, key: string, value: Value, more: map<string, Value>)
    requires key !in more
    ensures fields[key := value] + more == fields + more[key := value]
  {
  }

  lemma PutTwo(fields: map<string, Value>, fields': map<string, Value>, at: seq<string>, xs: seq<Line>, ys: seq<Line>,
               conv: (string, string) -> Scalar)
    requires PutAll(fields, SettingsOf(at, xs, conv)) == Done(fields')
    ensures PutAll(fields, SettingsOf(at, xs + ys, conv)) == PutAll(fields', SettingsOf(at, ys, conv))
  {
    SettingsAppend(at, xs, ys, conv);
    PutAllAppend(fields, SettingsOf(at, xs, conv), SettingsOf(at, ys, conv));
  }

  lemma {:induction false} PutSub(at: seq<string>, elem: string, tree: Fields, conv: (string, string) -> Scalar)
    requires SpellableFields(tree) && tree != NoFields
    ensures var settings := SettingsOf(at + [elem], Lines(tree), conv);
      && settings != [] && NoneEmpty(settings) && PutAll(map[], settings) == Done(Tree(tree, at + [elem], conv))
      && SettingsOf(at, ContentLines(elem, Sub(tree)), conv) == Below(StepOf(elem), settings)
    decreases tree, 1
  {
    LinesClean(tree);
    CleanSettings(at + [elem], Lines(tree), conv);
    PutTree(map[], at + [elem], tree, conv);
    assert map[] + Tree(tree, at + [elem], conv) == Tree(tree, at + [elem], conv);
    SettingsUnder(at, elem, Lines(tree), conv);
  }

  lemma {:induction false} PutContent(fields: map<string, Value>, at: seq<string>, name: string, content: Content,
                                      conv: (string, string) -> Scalar)
    requires Spellable(content) && PlainName(name) && (content.List? ==> ArrayName(name)) && name !in fields
    ensures PutAll(fields, SettingsOf(at, ContentLines(name, content), conv)) == Done(fields[name := TreeOf(name, content, at, conv)])
    decreases content
  {
    StepOfName(name);
    match content
    case Plain(text) => PutOne(fields, at, name, text, conv);
    case Sub(sub) =>
      PutSub(at, name, sub, conv);
      PutAllBelowName(fields, name, SettingsOf(at + [name], Lines(sub), conv), map[]);
    case List(items) =>
      PutItems(fields, at, name, [], items, conv);
      assert [] + TreeItems(name, 0, items, at, conv) == TreeItems(name, 0, items, at, conv);
  }

  /** The next element finds its array just long enough. */
  lemma {:induction false} PutItem(fields: map<string, Value>, at: seq<string>, name: string, done: seq<Value>, content: Content,
                                   conv: (string, string) -> Scalar)
    requires !content.List? && Spellable(content) && ArrayName(name) && |done| < MAX_INT
    requires if done == [] then name !in fields else name in fields && fields[name] == Arr(done)
    ensures var elem := ItemElem(name, |done|);
      PutAll(fields, SettingsOf(at, ContentLines(elem, content), conv))
      == Done(fields[name := Arr(done + [TreeOf(elem, content, at, conv)])])
    decreases content
  {
    var index := |done|;
    var elem := ItemElem(name, index);
    var value := TreeOf(elem, content, at, conv);
    StepOfItem(name, index);
    NextSlot(fields, name, done, value);
    match content
    case Plain(text) =>
      PutOne(fields, at, elem, text, conv);
      assert Put(fields, [Item(name, index)], value) == Done(fields[name := Arr(done + [value])]);
    case Sub(sub) =>
      PutSub(at, elem, sub, conv);
      PutAllBelowItem(fields, name, index, done + [Nil], SettingsOf(at + [elem], Lines(sub), conv), map[]);
  }

  lemma NextSlot(fields: map<string, Value>, name: string, done: seq<Value>, value: Value)
    requires |done| < MAX_INT && if done == [] then name !in fields else name in fields && fields[name] == Arr(done)
    ensures Slots(fields, name, |done|) == Some(done + [Nil])
    ensures (done + [Nil])[|done| := value] == done + [value]
  {
    assert done == [] ==> Nils(1) == done + [Nil];
  }

  lemma {:induction false} PutItems(fields: map<string, Value>, at: seq<string>, name: string, done: seq<Value>, items: Items,
                                    conv: (string, string) -> Scalar)
    requires SpellableItems(items) && ArrayName(name) && |done| + Length(items) < MAX_INT
    requires if done == [] then name !in fields else name in fields && fields[name] == Arr(done)
    ensures PutAll(fields, SettingsOf(at, ItemLines(name, |done|, items), conv))
      == Done(if items == NoItems then fields else fields[name := Arr(done + TreeItems(name, |done|, items, at, conv))])
    decreases items
  {
    match items
    case NoItems =>
    case OneItem(content, rest) =>
      var elem := ItemElem(name, |done|);
      var value := TreeOf(elem, content, at, conv);
      var fields' := fields[name := Arr(done + [value])];
      PutItem(fields, at, name, done, content, conv);
      PutItems(fields', at, name, done + [value], rest, conv);
      PutTwo(fields, fields', at, ContentLines(elem, content), ItemLines(name, |done| + 1, rest), conv);
      MoreItems(fields, name, done, value, TreeItems(name, |done| + 1, rest, at, conv));
  }

  lemma MoreItems(fields: map<string, Value>, name: string, done: seq<Value>, value: Value, more: seq<Value>)
    ensures done + [value] + more == done + ([value] + more) && (more == [] ==> done + [value] + more == done + [value])
    ensures fields[name := Arr(done + [value])][name := Arr(done + [value] + more)] == fields[name := Arr(done + ([value] + more))]
  {
    assert done + [value] + more == done + ([value] + more);
  }

  // ----- Text ----------------------------------------------------------------------------------

  function ArgOf(line: Line): string {
    Join(line.elems, '.') + "=" + line.text
  }

  function ArgsOf(lines: seq<Line>): (r: seq<string>)
    ensures |r| == |lines|
  {
    seq(|lines|, i requires 0 <= i < |lines| => ArgOf(lines[i]))
  }

  lemma {:induction false} JoinFree(elems: seq<string>, c: char)
    requires c != '.' && forall j :: 0 <= j < |elems| ==> c !in elems[j]
    ensures c !in Join(elems, '.')
  {
    if |elems| > 1 { JoinFree(elems[1..], c); }
  }

  /** The argument of a line is read as that line. */
  lemma ParseArgOf(prefix: string, line: Line)
    requires line.elems != [] && CleanElems(line.elems)
    ensures ParseArg(prefix, ArgOf(line)) == Some(Line((if prefix == "" then [] else [prefix]) + line.elems, line.text))
  {
    JoinFree(line.elems, '=');
    CutAt(Join(line.elems, '.'), '=', line.text);
    SplitJoin(line.elems, '.');
  }

  lemma {:induction false} ParseArgsOf(fields: map<string, Value>, prefix: string, lines: seq<Line>, conv: (string, string) -> Scalar)
    requires Clean(lines)
    ensures ParseArgs(fields, prefix, ArgsOf(lines), conv)
      == PutAll(fields, SettingsOf([], if prefix == "" then lines else Under(prefix, lines), conv))
    decreases |lines|
  {
    if lines != [] {
      ParseArgOf(prefix, lines[0]);
      assert ArgsOf(lines)[1..] == ArgsOf(lines[1..]);
      assert Under(prefix, lines)[1..] == Under(prefix, lines[1..]);
      assert [] + lines[0].elems == lines[0].elems;
      var full := if prefix == "" then lines else Under(prefix, lines);
      assert ParseArg(prefix, ArgOf(lines[0])) == Some(full[0]);
      FirstSetting(fields, full, conv);
      if PutLine(fields, full[0], conv).Done? {
        ParseArgsOf(PutLine(fields, full[0], conv).fields, prefix, lines[1..], conv);
      }
    }
  }

  lemma FirstSetting(fields: map<string, Value>, lines: seq<Line>, conv: (string, string) -> Scalar)
    requires lines != []
    ensures var outcome := PutLine(fields, lines[0], conv);
      PutAll(fields, SettingsOf([], lines, conv))
      == if outcome.Done? then PutAll(outcome.fields, SettingsOf([], lines[1..], conv)) else outcome
  {
    assert [] + lines[0].elems == lines[0].elems;
    assert SettingsOf([], lines, conv)[1..] == SettingsOf([], lines[1..], conv);
  }

  /** ROUND TRIP.  Spelling out a tree as arguments and building from them gives the tree back, each leaf
      converted, under the prefix if there is one. */
  lemma RoundTrip(tree: Fields, prefix: string, conv: (string, string) -> Scalar)
    requires SpellableFields(tree) && tree != NoFields
    requires Unbracketed(prefix)
    ensures ParseArgs(map[], prefix, ArgsOf(Lines(tree)), conv)
      == Done(if prefix == "" then Tree(tree, [], conv) else map[prefix := Obj(Tree(tree, [prefix], conv))])
  {
    LinesClean(tree);
    ParseArgsOf(map[], prefix, Lines(tree), conv);
    if prefix == "" {
      PutTree(map[], [], tree, conv);
      assert map[] + Tree(tree, [], conv) == Tree(tree, [], conv);
    } else {
      assert [] + [prefix] == [prefix];
      StepOfName(prefix);
      PutSub([], prefix, tree, conv);
      PutAllBelowName(map[], prefix, SettingsOf([prefix], Lines(tree), conv), map[]);
    }
  }
}
