/** Objects in any layout, and the text that is shipped for them (file/client.go:512-549). */
module FramingText {
  import opened Framing

  // ----- Any layout ------------------------------------------------------------------------------

  /** What is kept of each object's lines. */
  function KeptEach(layouts: seq<seq<string>>): seq<seq<string>> {
    if layouts == [] then [] else KeptEach(layouts[..|layouts| - 1]) + [Kept(layouts[|layouts| - 1])]
  }

  /** Lines that balance at their end and at no earlier point, and are not all blank. */
  ghost predicate Layout(lines: seq<string>) {
    ShortestBalanced(lines) && Kept(lines) != []
  }

  lemma {:induction false} LayoutsFramed(layouts: seq<seq<string>>)
    requires forall l :: l in layouts ==> Layout(l)
    ensures Framed(Kept(Flatten(layouts)), KeptEach(layouts), [])
    decreases |layouts|
  {
    if layouts != [] {
      var front, last := layouts[..|layouts| - 1], layouts[|layouts| - 1];
      assert last in layouts;
      LayoutsFramed(front);
      KeptShortest(last);
      KeptConcat(Flatten(front), last);
      AppendGroup(Kept(Flatten(front)), KeptEach(front), Kept(last));
    }
  }

  lemma {:induction false} KeptEachIs(layouts: seq<seq<string>>)
    ensures |KeptEach(layouts)| == |layouts|
    ensures forall i :: 0 <= i < |layouts| ==> KeptEach(layouts)[i] == Kept(layouts[i])
    decreases |layouts|
  {
    if layouts != [] { KeptEachIs(layouts[..|layouts| - 1]); }
  }

  /** RECOVERY IN ANY LAYOUT.  However objects are spread over lines, if each balances at its end and not
      before they are framed object by object, and nothing stays behind. */
  lemma AnyLayoutRecovered(layouts: seq<seq<string>>, groups: seq<seq<string>>, pending: seq<string>)
    requires forall l :: l in layouts ==> Layout(l)
    requires Framed(Kept(Flatten(layouts)), groups, pending)
    ensures pending == [] && |groups| == |layouts| && forall i :: 0 <= i < |groups| ==> groups[i] == Kept(layouts[i])
  {
    LayoutsFramed(layouts);
    KeptEachIs(layouts);
    FramedUnique(Kept(Flatten(layouts)), groups, pending, KeptEach(layouts), []);
  }

  /** Lines that nest, between an opening and a closing one, are such a layout. */
  lemma WrappedLayout(first: string, inner: seq<string>, last: string)
    requires Nested(inner) && Weight(first) == 1 && Weight(last) == -1
    ensures Layout([first] + inner + [last])
  {
    var all := [first] + inner + [last];
    Wrapped(first, inner, last);
    HeavyKept(first);
    KeptConcat([first], inner + [last]);
    assert all == [first] + (inner + [last]);
  }

  lemma HeavyKept(line: string)
    requires Weight(line) == 1
    ensures Kept([line]) != []
  {
    if '{' !in line { NoOccurrence(line, '{'); }
    KeepsChar(line, '{');
    assert [line][..0] == [] && [line][0] == line;
  }

  // ----- The text that is shipped ----------------------------------------------------------------

  /** The value printed without line breaks and indentation. */
  function Compact(j: Json): string
    decreases j, 0
  {
    match j
    case Scalar(text) => text
    case Obj(fields) => "{" + CompactFields(fields) + "}"
    case Arr(items) => "[" + CompactItems(items) + "]"
  }

  function CompactFields(fields: seq<Field>): string
    decreases fields, 1
  {
    if fields == [] then ""
    else fields[0].key + ": " + Compact(fields[0].value) + (if |fields| == 1 then "" else ",") + CompactFields(fields[1..])
  }

  function CompactItems(items: seq<Json>): string
    decreases items, 1
  {
    if items == [] then ""
    else Compact(items[0]) + (if |items| == 1 then "" else ",") + CompactItems(items[1..])
  }

  /** No space at either end, and not empty. */
  predicate Tight(s: string) {
    s != "" && !IsSpace(s[0]) && !IsSpace(s[|s| - 1])
  }

  /** Scalars and keys are printed without space around them. */
  predicate TightJson(j: Json)
    decreases j, 0
  {
    match j
    case Scalar(text) => Tight(text)
    case Obj(fields) => forall f :: f in fields ==> Tight(f.key) && TightJson(f.value)
    case Arr(items) => forall i :: i in items ==> TightJson(i)
  }

  predicate Blank(s: string) {
    forall i :: 0 <= i < |s| ==> IsSpace(s[i])
  }

  lemma TrimIndent(indent: string, body: string)
    requires Blank(indent) && Tight(body)
    ensures TrimSpace(indent + body) == body
  {
    TrimmedIs(indent, body, "");
    assert indent + body + "" == indent + body;
  }

  lemma KeptLine(indent: string, body: string)
    requires Blank(indent) && Tight(body)
    ensures Kept([indent + body]) == [body] && Join(Kept([indent + body])) == body
  {
    TrimIndent(indent, body);
    var line := [indent + body];
    assert line[..0] == [] && [body][1..] == [];
    assert body + "" == body;
  }

  lemma {:induction false} JoinConcat(a: seq<string>, b: seq<string>)
    ensures Join(a + b) == Join(a) + Join(b)
  {
    if a == [] {
      assert a + b == b;
    } else {
      assert (a + b)[0] == a[0] && (a + b)[1..] == a[1..] + b;
      JoinConcat(a[1..], b);
    }
  }

  /** The text kept of some lines. */
  function TextOf(lines: seq<string>): string {
    Join(Kept(lines))
  }

  lemma TextConcat(a: seq<string>, b: seq<string>)
    ensures TextOf(a + b) == TextOf(a) + TextOf(b)
  {
    KeptConcat(a, b);
    JoinConcat(Kept(a), Kept(b));
  }

  /** What may stand before a value on its line, or behind it. */
  predicate Before(head: string) {
    head == "" || !IsSpace(head[0])
  }

  predicate Behind(tail: string) {
    tail == "" || !IsSpace(tail[|tail| - 1])
  }

  lemma LineText(indent: string, head: string, mid: string, tail: string)
    requires Blank(indent) && Before(head) && Behind(tail) && Tight(mid)
    ensures TextOf([indent + head + mid + tail]) == head + mid + tail
  {
    assert indent + head + mid + tail == indent + (head + mid + tail);
    KeptLine(indent, head + mid + tail);
  }

  lemma OpeningText(indent: string, head: string, open: string)
    requires Blank(indent) && Before(head) && Tight(open)
    ensures TextOf([indent + head + open]) == head + open
  {
    LineText(indent, head, open, "");
    assert indent + head + open + "" == indent + head + open && head + open + "" == head + open;
  }

  lemma ClosingText(indent: string, close: string, tail: string)
    requires Blank(indent) && Behind(tail) && Tight(close)
    ensures TextOf([indent + close + tail]) == close + tail
  {
    LineText(indent, "", close, tail);
    assert indent + "" + close + tail == indent + close + tail && "" + close + tail == close + tail;
  }

  lemma ThreeTexts(a: seq<string>, b: seq<string>, c: seq<string>)
    ensures TextOf(a + b + c) == TextOf(a) + TextOf(b) + TextOf(c)
  {
    TextConcat(a, b);
    TextConcat(a + b, c);
  }

  lemma Regroup(before: string, close: string, tail: string)
    ensures before + (close + tail) == before + close + tail
  {
  }

  lemma BlockText(indent: string, head: string, open: string, inner: seq<string>, close: string, tail: string)
    requires Blank(indent) && Before(head) && Behind(tail) && Tight(open) && Tight(close)
    ensures TextOf([indent + head + open] + inner + [indent + close + tail]) == head + open + TextOf(inner) + close + tail
  {
    OpeningText(indent, head, open);
    ClosingText(indent, close, tail);
    ThreeTexts([indent + head + open], inner, [indent + close + tail]);
    Regroup(head + open + TextOf(inner), close, tail);
  }

  /** Printed over lines and put together again, a value is its compact text. */
  lemma {:induction false} PrintText(j: Json, indent: string, head: string, tail: string)
    requires TightJson(j) && Blank(indent) && Before(head) && Behind(tail)
    ensures TextOf(Print(j, indent, head, tail)) == head + Compact(j) + tail
    decreases j, 0
  {
    match j
    case Scalar(text) => LineText(indent, head, text, tail);
    case Obj(fields) =>
      if fields == [] {
        LineText(indent, head, "{}", tail);
        assert Compact(j) == "{}";
      } else {
        FieldsText(fields, indent + "  ");
        BlockText(indent, head, "{", PrintFields(fields, indent + "  "), "}", tail);
        Around(head, "{", CompactFields(fields), "}", tail);
      }
    case Arr(items) =>
      if items == [] {
        LineText(indent, head, "[]", tail);
        assert Compact(j) == "[]";
      } else {
        ItemsText(items, indent + "  ");
        BlockText(indent, head, "[", PrintItems(items, indent + "  "), "]", tail);
        Around(head, "[", CompactItems(items), "]", tail);
      }
  }

  lemma Around(head: string, open: string, text: string, close: string, tail: string)
    ensures head + open + text + close + tail == head + (open + text + close) + tail
  {
  }

  lemma {:induction false} FieldsText(fields: seq<Field>, indent: string)
    requires (forall f :: f in fields ==> Tight(f.key) && TightJson(f.value)) && Blank(indent)
    ensures TextOf(PrintFields(fields, indent)) == CompactFields(fields)
    decreases fields, 1
  {
    if fields != [] {
      assert fields[0] in fields;
      var tail := if |fields| == 1 then "" else ",";
      PrintText(fields[0].value, indent, fields[0].key + ": ", tail);
      FieldsText(fields[1..], indent);
      TextConcat(Print(fields[0].value, indent, fields[0].key + ": ", tail), PrintFields(fields[1..], indent));
    }
  }

  lemma {:induction false} ItemsText(items: seq<Json>, indent: string)
    requires (forall i :: i in items ==> TightJson(i)) && Blank(indent)
    ensures TextOf(PrintItems(items, indent)) == CompactItems(items)
    decreases items, 1
  {
    if items != [] {
      assert items[0] in items;
      var tail := if |items| == 1 then "" else ",";
      PrintText(items[0], indent, "", tail);
      assert "" + Compact(items[0]) + tail == Compact(items[0]) + tail;
      ItemsText(items[1..], indent);
      TextConcat(Print(items[0], indent, "", tail), PrintItems(items[1..], indent));
    }
  }

  lemma {:induction false} GroupIs(objects: seq<Json>, indent: string, i: nat)
    requires i < |objects|
    ensures |GroupsOf(objects, indent)| == |objects| && GroupsOf(objects, indent)[i] == Kept(Print(objects[i], indent, "", ""))
    decreases |objects|
  {
    var front := objects[..|objects| - 1];
    GroupCount(front, indent);
    GroupCount(objects, indent);
    if i < |front| {
      assert front[i] == objects[i];
      GroupIs(front, indent, i);
    } else {
      LastGroup(objects, indent);
    }
  }

  lemma LastGroup(objects: seq<Json>, indent: string)
    requires objects != []
    ensures |GroupsOf(objects, indent)| > 0
    ensures var groups := GroupsOf(objects, indent); groups[|groups| - 1] == Kept(Print(objects[|objects| - 1], indent, "", ""))
  {
  }

  lemma {:induction false} GroupCount(objects: seq<Json>, indent: string)
    ensures |GroupsOf(objects, indent)| == |objects|
    decreases |objects|
  {
    if objects != [] { GroupCount(objects[..|objects| - 1], indent); }
  }

  /** WHAT IS SHIPPED.  For pretty-printed objects the i-th record shipped is the i-th object printed
      without line breaks and indentation. */
  lemma ShippedText(objects: seq<Json>, indent: string, groups: seq<seq<string>>, pending: seq<string>, i: nat)
    requires forall j :: j in objects ==> j.Obj? && BraceFree(j) && TightJson(j)
    requires NoBraces(indent) && Blank(indent) && i < |objects|
    requires Framed(Kept(PrintAll(objects, indent)), groups, pending)
    ensures |groups| == |objects| && Join(groups[i]) == Compact(objects[i])
  {
    PrettyPrintedRecovered(objects, indent, groups, pending);
    GroupIs(objects, indent, i);
    assert objects[i] in objects;
    PrintText(objects[i], indent, "", "");
    assert "" + Compact(objects[i]) + "" == Compact(objects[i]);
  }
}
