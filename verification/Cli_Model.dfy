/** ParseCLI of utils/env_parse.go: command line arguments `a.b[0].c=v` build a tree. */
module CliModel {
  import opened Options
  import opened Strings

  const MAX_INT := 0x7FFF_FFFF_FFFF_FFFF

  /** The longest array that can be made: 2^48 bytes, sixteen to an element. */
  const MAX_LEN := 0x1000_0000_0000

  /** What convertValue makes of a string, and the trees built from it. */
  datatype Scalar = Bool(b: bool) | Number(n: int) | Real(text: string) | Text(text: string)
  datatype Value = Nil | Leaf(v: Scalar) | Obj(fields: map<string, Value>) | Arr(items: seq<Value>)

  /** An element of a path: a name, an element of an array, or one whose index does not fit an int. */
  datatype Step = Name(key: string) | Item(key: string, index: nat) | Skip

  datatype Outcome = Done(fields: map<string, Value>) | Collision | Crash

  // ----- One path element ----------------------------------------------------------------------

  /** Where the run of digits that ends before e starts. */
  function DigitsStart(s: string, e: nat): (j: nat)
    requires e <= |s|
    ensures j <= e && forall k :: j <= k < e ==> '0' <= s[k] <= '9'
  {
    if e > 0 && '0' <= s[e - 1] <= '9' then DigitsStart(s, e - 1) else e
  }

  /** The end of a string after its last newline, which a dot in a regular expression does not match. */
  function LastLine(s: string): string {
    if s == "" || s[|s| - 1] == '\n' then "" else LastLine(s[..|s| - 1]) + [s[|s| - 1]]
  }

  /** The pattern `(.+)\[(\d+)\]$`, and what is done with its match. */
  function StepOf(elem: string): Step {
    var n := |elem|;
    if n < 4 || elem[n - 1] != ']' then Name(elem)
    else
      var j := DigitsStart(elem, n - 1);
      if j == n - 1 || j == 0 || elem[j - 1] != '[' || LastLine(elem[..j - 1]) == "" then Name(elem)
      else if DigitsValue(elem[j..n - 1]) > MAX_INT then Skip
      else Item(LastLine(elem[..j - 1]), DigitsValue(elem[j..n - 1]))
  }

  function StepsOf(elems: seq<string>): (steps: seq<Step>)
    ensures |steps| == |elems|
  {
    seq(|elems|, i requires 0 <= i < |elems| => StepOf(elems[i]))
  }

  // ----- One argument --------------------------------------------------------------------------

  function Nils(n: nat): (r: seq<Value>)
    ensures |r| == n && forall i :: 0 <= i < n ==> r[i] == Nil
  {
    seq(n, _ => Nil)
  }

  /** The array an index goes to: a new one is made large enough, or panics if that is too long; an old one
      grows by at most one. Whatever else stands there makes the type assertion panic; the largest int overflows. */
  function Slots(fields: map<string, Value>, key: string, index: nat): Option<seq<Value>> {
    if index == MAX_INT then None
    else if key !in fields then if index < MAX_LEN then Some(Nils(index + 1)) else None
    else if !fields[key].Arr? then None
    else if |fields[key].items| <= index then Some(fields[key].items + [Nil])
    else Some(fields[key].items)
  }

  function Wrap(inner: Outcome, fields: map<string, Value>, key: string): Outcome {
    if inner.Done? then Done(fields[key := Obj(inner.fields)]) else inner
  }

  function WrapItem(inner: Outcome, fields: map<string, Value>, key: string, slots: seq<Value>, index: nat): Outcome
    requires index < |slots|
  {
    if inner.Done? then Done(fields[key := Arr(slots[index := Obj(inner.fields)])]) else inner
  }

  /** The tree after a leaf has been put at the end of a path. */
  function Put(fields: map<string, Value>, steps: seq<Step>, leaf: Value): Outcome
    decreases |steps|
  {
    if steps == [] then Done(fields)
    else
      match steps[0]
      case Skip => Put(fields, steps[1..], leaf)
      case Name(key) =>
        if |steps| == 1 then Done(fields[key := leaf])
        else if key !in fields then Wrap(Put(map[], steps[1..], leaf), fields, key)
        else if fields[key].Obj? then Wrap(Put(fields[key].fields, steps[1..], leaf), fields, key)
        else Collision
      case Item(key, index) =>
        var slots := Slots(fields, key, index);
        if slots.None? || index >= |slots.value| then Crash
        else if |steps| == 1 then Done(fields[key := Arr(slots.value[index := leaf])])
        else if slots.value[index].Nil? then WrapItem(Put(map[], steps[1..], leaf), fields, key, slots.value, index)
        else if slots.value[index].Obj? then WrapItem(Put(slots.value[index].fields, steps[1..], leaf), fields, key, slots.value, index)
        else Collision
  }

  /** A path with its prefix, and the text for it. */
  datatype Line = Line(elems: seq<string>, text: string)

  /** An argument without `=` is passed over. */
  function ParseArg(prefix: string, arg: string): Option<Line> {
    if '=' !in arg then None
    else
      var i := IndexOf(arg, '=');
      Some(Line((if prefix == "" then [] else [prefix]) + Split(arg[..i], '.'), arg[i + 1..]))
  }

  function PutLine(fields: map<string, Value>, line: Line, conv: (string, string) -> Scalar): Outcome {
    Put(fields, StepsOf(line.elems), Leaf(conv(Join(line.elems, '.'), line.text)))
  }

  /** All arguments in turn, up to the first that fails. */
  function ParseArgs(fields: map<string, Value>, prefix: string, args: seq<string>, conv: (string, string) -> Scalar): Outcome
    decreases |args|
  {
    if args == [] then Done(fields)
    else
      var line := ParseArg(prefix, args[0]);
      if line.None? then ParseArgs(fields, prefix, args[1..], conv)
      else
        var outcome := PutLine(fields, line.value, conv);
        if outcome.Done? then ParseArgs(outcome.fields, prefix, args[1..], conv) else outcome
  }
}
