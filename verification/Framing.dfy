/** The multi-line JSON mode of the file adapter (file/client.go:512-549): lines are collected until
    their braces balance, and the collected lines are shipped as one record. */
module Framing {

  /** unicode.IsSpace. */
  predicate IsSpace(c: char) {
    || c == '\t' || c == '\n' || c == '\U{0B}' || c == '\U{0C}' || c == '\r' || c == ' '
    || c == '\U{85}' || c == '\U{A0}' || c == '\U{1680}' || '\U{2000}' <= c <= '\U{200A}'
    || c == '\U{2028}' || c == '\U{2029}' || c == '\U{202F}' || c == '\U{205F}' || c == '\U{3000}'
  }

  function TrimLeft(s: string): string {
    if s != "" && IsSpace(s[0]) then TrimLeft(s[1..]) else s
  }

  function TrimRight(s: string): string {
    if s != "" && IsSpace(s[|s| - 1]) then TrimRight(s[..|s| - 1]) else s
  }

  function TrimSpace(s: string): string {
    TrimRight(TrimLeft(s))
  }

  /** strings.Count for a single character. */
  function Occurrences(s: string, c: char): nat {
    if s == "" then 0 else (if s[0] == c then 1 else 0) + Occurrences(s[1..], c)
  }

  /** How many braces a line opens, less those it closes. */
  function Weight(line: string): int {
    Occurrences(line, '{') - Occurrences(line, '}')
  }

  function Balance(lines: seq<string>): int {
    if lines == [] then 0 else Balance(lines[..|lines| - 1]) + Weight(lines[|lines| - 1])
  }

  /** The trimmed lines, without the empty ones, in order. */
  function Kept(lines: seq<string>): seq<string> {
    if lines == [] then []
    else
      Kept(lines[..|lines| - 1]) + IfAny(TrimSpace(lines[|lines| - 1]))
  }

  function IfAny(text: string): seq<string> {
    if text == "" then [] else [text]
  }

  function Flatten(groups: seq<seq<string>>): seq<string> {
    if groups == [] then [] else Flatten(groups[..|groups| - 1]) + groups[|groups| - 1]
  }

  function Join(lines: seq<string>): string {
    if lines == [] then "" else lines[0] + Join(lines[1..])
  }

  /** No proper, non-empty beginning of the lines balances. */
  ghost predicate Open(lines: seq<string>) {
    forall k :: 0 < k < |lines| ==> Balance(lines[..k]) != 0
  }

  /** The lines balance, and no shorter beginning of them does. */
  ghost predicate ShortestBalanced(lines: seq<string>) {
    lines != [] && Balance(lines) == 0 && Open(lines)
  }

  /** `groups` and `pending` cut the lines up at every point where the braces balance. */
  ghost predicate Framed(lines: seq<string>, groups: seq<seq<string>>, pending: seq<string>) {
    && Flatten(groups) + pending == lines
    && (forall i :: 0 <= i < |groups| ==> ShortestBalanced(groups[i]))
    && Open(pending) && (pending != [] ==> Balance(pending) != 0)
  }

  /** One more line either completes the pending group or joins it. */
  lemma Extend(lines: seq<string>, groups: seq<seq<string>>, pending: seq<string>, text: string)
    requires Framed(lines, groups, pending)
    ensures var more := pending + [text];
      && Balance(more) == Balance(pending) + Weight(text)
      && if Balance(more) == 0 then Framed(lines + [text], groups + [more], []) else Framed(lines + [text], groups, more)
  {
    var more := pending + [text];
    assert more[..|pending|] == pending;
    forall k | 0 < k < |more| ensures Balance(more[..k]) != 0 {
      assert more[..k] == pending[..k];
      assert k == |pending| ==> pending[..k] == pending;
    }
    assert (groups + [more])[..|groups|] == groups;
    assert Flatten(groups) + more == lines + [text];
  }

  lemma KeptNext(lines: seq<string>, i: nat, text: string)
    requires i < |lines| && text == TrimSpace(lines[i])
    ensures Kept(lines[..i + 1]) == if text == "" then Kept(lines[..i]) else Kept(lines[..i]) + [text]
  {
    assert lines[..i + 1][..i] == lines[..i];
  }

  /** The records shipped are the groups' lines, joined. */
  ghost predicate Texts(shipped: seq<string>, groups: seq<seq<string>>) {
    |shipped| == |groups| && forall i :: 0 <= i < |groups| ==> shipped[i] == Join(groups[i])
  }

  /** The loop of handleInput in multi-line mode over the lines received until the tail ends. */
  method HandleMultiLine(lines: seq<string>)
    returns (groups: seq<seq<string>>, jsonLines: seq<string>, braceCount: int, shipped: seq<string>)
    ensures Framed(Kept(lines), groups, jsonLines)
    ensures braceCount == Balance(jsonLines)
    ensures |shipped| == |groups| && forall i :: 0 <= i < |groups| ==> shipped[i] == Join(groups[i])
  {
    groups, jsonLines, braceCount, shipped := [], [], 0, [];
    for i := 0 to |lines|
      invariant Framed(Kept(lines[..i]), groups, jsonLines)
      invariant braceCount == Balance(jsonLines) && Texts(shipped, groups)
    {
      var lineText := TrimSpace(lines[i]);
      KeptNext(lines, i, lineText);
      if lineText == "" {
        continue;
      }
      groups, jsonLines, braceCount, shipped := AddLine(lineText, groups, jsonLines, braceCount, shipped, Kept(lines[..i]));
    }
    assert lines[..|lines|] == lines;
  }

  /** One line that is not empty. */
  method AddLine(lineText: string, groups: seq<seq<string>>, jsonLines: seq<string>, braceCount: int, shipped: seq<string>,
                 ghost before: seq<string>)
    returns (groups': seq<seq<string>>, jsonLines': seq<string>, braceCount': int, shipped': seq<string>)
    requires Framed(before, groups, jsonLines) && braceCount == Balance(jsonLines) && Texts(shipped, groups)
    ensures Framed(before + [lineText], groups', jsonLines') && braceCount' == Balance(jsonLines') && Texts(shipped', groups')
  {
    Extend(before, groups, jsonLines, lineText);
    groups', shipped' := groups, shipped;
    jsonLines' := jsonLines + [lineText];
    braceCount' := braceCount + Occurrences(lineText, '{');
    braceCount' := braceCount' - Occurrences(lineText, '}');
    if braceCount' == 0 && |jsonLines'| > 0 {
      groups' := groups + [jsonLines'];
      shipped' := shipped + [Join(jsonLines')];
      jsonLines' := [];
    }
  }

  lemma {:induction false} FlattenConcat(a: seq<seq<string>>, b: seq<seq<string>>)
    ensures Flatten(a + b) == Flatten(a) + Flatten(b)
    decreases |b|
  {
    if b == [] {
      assert a + b == a;
    } else {
      assert (a + b)[..|a + b| - 1] == a + b[..|b| - 1];
      FlattenConcat(a, b[..|b| - 1]);
    }
  }

  lemma FlattenHead(groups: seq<seq<string>>)
    requires groups != []
    ensures Flatten(groups) == groups[0] + Flatten(groups[1..])
  {
    assert groups == [groups[0]] + groups[1..];
    FlattenConcat([groups[0]], groups[1..]);
    FlattenOne(groups[0]);
  }

  lemma FlattenOne(group: seq<string>)
    ensures Flatten([group]) == group
  {
    assert [group][..0] == [] && Flatten([]) + group == group;
  }

  /** Two beginnings of the same lines at which no shorter one balances are equally long. */
  lemma SameCut(lines: seq<string>, m: nat, n: nat)
    requires m <= |lines| && n <= |lines|
    requires ShortestBalanced(lines[..m]) && ShortestBalanced(lines[..n])
    ensures m == n
  {
    NotShorter(lines, m, n);
    NotShorter(lines, n, m);
  }

  lemma NotShorter(lines: seq<string>, m: nat, n: nat)
    requires 0 < m <= |lines| && n <= |lines| && ShortestBalanced(lines[..n])
    ensures m < n ==> Balance(lines[..m]) != 0
  {
    if m < n {
      assert lines[..n][..m] == lines[..m];
    }
  }

  /** The first group is the shortest balanced beginning, and the others frame the rest. */
  lemma FirstGroup(lines: seq<string>, g: seq<seq<string>>, p: seq<string>)
    requires Framed(lines, g, p) && g != []
    ensures var m := |g[0]|;
      0 < m <= |lines| && lines[..m] == g[0] && ShortestBalanced(g[0]) && Framed(lines[m..], g[1..], p)
  {
    FlattenHead(g);
    var m := |g[0]|;
    assert lines == g[0] + (Flatten(g[1..]) + p);
    assert lines[..m] == g[0] && lines[m..] == Flatten(g[1..]) + p;
  }

  /** Lines without a balance point are all pending. */
  lemma NoGroup(lines: seq<string>, p: seq<string>, h: seq<seq<string>>, q: seq<string>)
    requires Framed(lines, [], p) && Framed(lines, h, q)
    ensures h == [] && p == q
  {
    assert p == lines && lines[..|lines|] == lines;
    if h != [] {
      FirstGroup(lines, h, q);
      assert false;
    }
  }

  /** UNIQUENESS.  The cut at every balance point determines groups and pending lines, so Framed says
      exactly what HandleMultiLine computes. */
  lemma {:induction false} FramedUnique(lines: seq<string>, g: seq<seq<string>>, p: seq<string>, h: seq<seq<string>>, q: seq<string>)
    requires Framed(lines, g, p) && Framed(lines, h, q)
    ensures g == h && p == q
    decreases |g|
  {
    if g == [] {
      NoGroup(lines, p, h, q);
    } else if h == [] {
      NoGroup(lines, q, g, p);
    } else {
      FirstGroup(lines, g, p);
      FirstGroup(lines, h, q);
      SameCut(lines, |g[0]|, |h[0]|);
      FramedUnique(lines[|g[0]|..], g[1..], p, h[1..], q);
      assert g == [g[0]] + g[1..] && h == [h[0]] + h[1..];
    }
  }

  // ----- Pretty-printed objects ----------------------------------------------------------------

  /** A JSON value; texts of scalars and keys are given as they are printed, quotes included. */
  datatype Json = Scalar(text: string) | Obj(fields: seq<Field>) | Arr(items: seq<Json>)
  datatype Field = Field(key: string, value: Json)

  /** The lines of a value printed over several lines: `head` goes in front of its first line,
      `tail` behind its last one, and every line is indented. */
  function Print(j: Json, indent: string, head: string, tail: string): seq<string>
    decreases j, 0
  {
    match j
    case Scalar(text) => [indent + head + text + tail]
    case Obj(fields) =>
      if fields == [] then [indent + head + "{}" + tail]
      else [indent + head + "{"] + PrintFields(fields, indent + "  ") + [indent + "}" + tail]
    case Arr(items) =>
      if items == [] then [indent + head + "[]" + tail]
      else [indent + head + "["] + PrintItems(items, indent + "  ") + [indent + "]" + tail]
  }

  function PrintFields(fields: seq<Field>, indent: string): seq<string>
    decreases fields, 1
  {
    if fields == [] then []
    else
      Print(fields[0].value, indent, fields[0].key + ": ", if |fields| == 1 then "" else ",")
      + PrintFields(fields[1..], indent)
  }

  function PrintItems(items: seq<Json>, indent: string): seq<string>
    decreases items, 1
  {
    if items == [] then []
    else Print(items[0], indent, "", if |items| == 1 then "" else ",") + PrintItems(items[1..], indent)
  }

  predicate NoBraces(s: string) {
    '{' !in s && '}' !in s
  }

  /** No string of the value contains a brace. */
  predicate BraceFree(j: Json)
    decreases j, 0
  {
    match j
    case Scalar(text) => NoBraces(text)
    case Obj(fields) => forall f :: f in fields ==> NoBraces(f.key) && BraceFree(f.value)
    case Arr(items) => forall i :: i in items ==> BraceFree(i)
  }

  lemma {:induction false} OccurrencesConcat(s: string, t: string, c: char)
    ensures Occurrences(s + t, c) == Occurrences(s, c) + Occurrences(t, c)
    decreases |s|
  {
    if s == "" {
      assert s + t == t;
    } else {
      assert (s + t)[1..] == s[1..] + t;
      OccurrencesConcat(s[1..], t, c);
    }
  }

  lemma WeightConcat(s: string, t: string)
    ensures Weight(s + t) == Weight(s) + Weight(t)
  {
    OccurrencesConcat(s, t, '{');
    OccurrencesConcat(s, t, '}');
  }

  lemma {:induction false} NoOccurrence(s: string, c: char)
    requires c !in s
    ensures Occurrences(s, c) == 0
  {
    if s != "" { NoOccurrence(s[1..], c); }
  }

  lemma NoBracesWeight(s: string)
    requires NoBraces(s)
    ensures Weight(s) == 0
  {
    NoOccurrence(s, '{');
    NoOccurrence(s, '}');
  }

  /** The weight of a printed line is that of its middle part. */
  lemma LineWeight(indent: string, head: string, mid: string, tail: string)
    requires NoBraces(indent) && NoBraces(head) && NoBraces(tail)
    ensures Weight(indent + head + mid + tail) == Weight(mid)
  {
    NoBracesWeight(indent);
    NoBracesWeight(head);
    NoBracesWeight(tail);
    WeightConcat(indent, head);
    WeightConcat(indent + head, mid);
    WeightConcat(indent + head + mid, tail);
  }

  lemma {:induction false} TrimLeftWeight(s: string)
    ensures Weight(TrimLeft(s)) == Weight(s)
  {
    if s != "" && IsSpace(s[0]) {
      TrimLeftWeight(s[1..]);
    }
  }

  lemma {:induction false} TrimRightWeight(s: string)
    ensures Weight(TrimRight(s)) == Weight(s)
    decreases |s|
  {
    if s != "" && IsSpace(s[|s| - 1]) {
      TrimRightWeight(s[..|s| - 1]);
      WeightConcat(s[..|s| - 1], [s[|s| - 1]]);
      assert s == s[..|s| - 1] + [s[|s| - 1]];
      NoBracesWeight([s[|s| - 1]]);
    }
  }

  /** What trimming leaves: the text between white space at both ends. */
  lemma {:induction false} TrimmedIs(before: string, body: string, after: string)
    requires forall i :: 0 <= i < |before| ==> IsSpace(before[i])
    requires forall i :: 0 <= i < |after| ==> IsSpace(after[i])
    requires body == "" || (!IsSpace(body[0]) && !IsSpace(body[|body| - 1]))
    ensures TrimSpace(before + body + after) == body
  {
    if body == "" {
      LeftAll(before + after);
      assert before + body + after == before + after;
    } else {
      LeftSpaces(before, body + after);
      assert before + body + after == before + (body + after);
      RightSpaces(body, after);
    }
  }

  lemma {:induction false} LeftAll(s: string)
    requires forall i :: 0 <= i < |s| ==> IsSpace(s[i])
    ensures TrimLeft(s) == ""
  {
    if s != "" { LeftAll(s[1..]); }
  }

  lemma {:induction false} LeftSpaces(before: string, text: string)
    requires (forall i :: 0 <= i < |before| ==> IsSpace(before[i])) && text != "" && !IsSpace(text[0])
    ensures TrimLeft(before + text) == text
  {
    if before == "" {
      assert before + text == text;
    } else {
      assert (before + text)[1..] == before[1..] + text;
      LeftSpaces(before[1..], text);
    }
  }

  lemma {:induction false} RightSpaces(text: string, after: string)
    requires (forall i :: 0 <= i < |after| ==> IsSpace(after[i])) && text != "" && !IsSpace(text[|text| - 1])
    ensures TrimRight(text + after) == text
    decreases |after|
  {
    if after == "" {
      assert text + after == text;
    } else {
      var s := text + after;
      assert s[..|s| - 1] == text + after[..|after| - 1];
      RightSpaces(text, after[..|after| - 1]);
    }
  }

  /** Spaces, tabs, carriage returns and line feeds. */
  ghost predicate Blanks(s: string) {
    forall i :: 0 <= i < |s| ==> s[i] == ' ' || s[i] == '\t' || s[i] == '\r' || s[i] == '\n'
  }

  /** A line of blanks is not kept, and of another one blanks at either end are not, whatever stands in between. */
  lemma BlanksTrimmed(lines: seq<string>, before: string, body: string, after: string)
    requires Blanks(before) && Blanks(after)
    requires body == "" || ('!' <= body[0] <= '~' && '!' <= body[|body| - 1] <= '~')
    ensures TrimSpace(before + body + after) == body
    ensures Kept(lines + [before + body + after]) == Kept(lines) + if body == "" then [] else [body]
  {
    TrimmedIs(before, body, after);
    var more := lines + [before + body + after];
    assert more[..|lines|] == lines;
  }

  lemma TrimSpaceWeight(s: string)
    ensures Weight(TrimSpace(s)) == Weight(s)
  {
    TrimLeftWeight(s);
    TrimRightWeight(TrimLeft(s));
  }

  lemma {:induction false} BalanceConcat(a: seq<string>, b: seq<string>)
    ensures Balance(a + b) == Balance(a) + Balance(b)
    decreases |b|
  {
    if b == [] {
      assert a + b == a;
    } else {
      assert (a + b)[..|a + b| - 1] == a + b[..|b| - 1];
      BalanceConcat(a, b[..|b| - 1]);
    }
  }

  /** No beginning closes more braces than it opens. */
  ghost predicate NeverNegative(lines: seq<string>) {
    forall k :: 0 <= k <= |lines| ==> Balance(lines[..k]) >= 0
  }

  ghost predicate Nested(lines: seq<string>) {
    NeverNegative(lines) && Balance(lines) == 0
  }

  lemma NestedConcat(a: seq<string>, b: seq<string>)
    requires Nested(a) && Nested(b)
    ensures Nested(a + b)
  {
    BalanceConcat(a, b);
    forall k | 0 <= k <= |a + b| ensures Balance((a + b)[..k]) >= 0 {
      if k <= |a| {
        assert (a + b)[..k] == a[..k];
      } else {
        assert (a + b)[..k] == a + b[..k - |a|];
        BalanceConcat(a, b[..k - |a|]);
      }
    }
  }

  lemma OneLine(line: string)
    ensures Balance([line]) == Weight(line)
    ensures Weight(line) == 0 ==> Nested([line])
  {
    assert [line][..0] == [];
    assert [line][..1] == [line];
  }

  /** Wrapping lines in an opening and a closing brace: balanced, and at no earlier point. */
  lemma Wrapped(first: string, inner: seq<string>, last: string)
    requires Nested(inner) && Weight(first) == 1 && Weight(last) == -1
    ensures var all := [first] + inner + [last];
      Nested(all) && forall k :: 0 < k < |all| ==> Balance(all[..k]) > 0
  {
    var all := [first] + inner + [last];
    OneLine(first);
    OneLine(last);
    BalanceConcat([first], inner);
    BalanceConcat([first] + inner, [last]);
    forall k | 0 < k < |all| ensures Balance(all[..k]) > 0 {
      assert all[..k] == [first] + inner[..k - 1];
      BalanceConcat([first], inner[..k - 1]);
    }
    assert all[..0] == [] && all[..|all|] == all;
  }

  lemma {:induction false} PrintNested(j: Json, indent: string, head: string, tail: string)
    requires BraceFree(j) && NoBraces(indent) && NoBraces(head) && NoBraces(tail)
    ensures Nested(Print(j, indent, head, tail))
    decreases j, 0
  {
    match j
    case Scalar(text) =>
      LineWeight(indent, head, text, tail);
      NoBracesWeight(text);
      OneLine(indent + head + text + tail);
    case Obj(fields) =>
      if fields == [] {
        LineWeight(indent, head, "{}", tail);
        assert Weight("{}") == 0;
        OneLine(indent + head + "{}" + tail);
      } else {
        PrintFieldsNested(fields, indent + "  ");
        Braces(indent, head, tail);
        Wrapped(indent + head + "{", PrintFields(fields, indent + "  "), indent + "}" + tail);
      }
    case Arr(items) =>
      if items == [] {
        LineWeight(indent, head, "[]", tail);
        assert Weight("[]") == 0;
        OneLine(indent + head + "[]" + tail);
      } else {
        PrintItemsNested(items, indent + "  ");
        Brackets(indent, head, tail);
        OneLine(indent + head + "[");
        OneLine(indent + "]" + tail);
        NestedConcat([indent + head + "["], PrintItems(items, indent + "  "));
        NestedConcat([indent + head + "["] + PrintItems(items, indent + "  "), [indent + "]" + tail]);
      }
  }

  lemma Braces(indent: string, head: string, tail: string)
    requires NoBraces(indent) && NoBraces(head) && NoBraces(tail)
    ensures Weight(indent + head + "{") == 1 && Weight(indent + "}" + tail) == -1
  {
    LineWeight(indent, head, "{", "");
    assert indent + head + "{" + "" == indent + head + "{";
    LineWeight(indent, "", "}", tail);
    assert indent + "" + "}" + tail == indent + "}" + tail;
    assert Weight("{") == 1 && Weight("}") == -1;
  }

  lemma Brackets(indent: string, head: string, tail: string)
    requires NoBraces(indent) && NoBraces(head) && NoBraces(tail)
    ensures Weight(indent + head + "[") == 0 && Weight(indent + "]" + tail) == 0
  {
    LineWeight(indent, head, "[", "");
    assert indent + head + "[" + "" == indent + head + "[";
    LineWeight(indent, "", "]", tail);
    assert indent + "" + "]" + tail == indent + "]" + tail;
    assert Weight("[") == 0 && Weight("]") == 0;
  }

  lemma {:induction false} PrintFieldsNested(fields: seq<Field>, indent: string)
    requires forall f :: f in fields ==> NoBraces(f.key) && BraceFree(f.value)
    requires NoBraces(indent)
    ensures Nested(PrintFields(fields, indent))
    decreases fields, 1
  {
    if fields != [] {
      assert fields[0] in fields;
      var tail := if |fields| == 1 then "" else ",";
      PrintNested(fields[0].value, indent, fields[0].key + ": ", tail);
      PrintFieldsNested(fields[1..], indent);
      NestedConcat(Print(fields[0].value, indent, fields[0].key + ": ", tail), PrintFields(fields[1..], indent));
    }
  }

  lemma {:induction false} PrintItemsNested(items: seq<Json>, indent: string)
    requires forall i :: i in items ==> BraceFree(i)
    requires NoBraces(indent)
    ensures Nested(PrintItems(items, indent))
    decreases items, 1
  {
    if items != [] {
      assert items[0] in items;
      var tail := if |items| == 1 then "" else ",";
      PrintNested(items[0], indent, "", tail);
      PrintItemsNested(items[1..], indent);
      NestedConcat(Print(items[0], indent, "", tail), PrintItems(items[1..], indent));
    }
  }

  /** A printed object balances at its last line and not before. */
  lemma ObjectShortest(j: Json, indent: string)
    requires j.Obj? && BraceFree(j) && NoBraces(indent)
    ensures ShortestBalanced(Print(j, indent, "", ""))
  {
    PrintNested(j, indent, "", "");
    if j.fields != [] {
      PrintFieldsNested(j.fields, indent + "  ");
      Braces(indent, "", "");
      Wrapped(indent + "" + "{", PrintFields(j.fields, indent + "  "), indent + "}" + "");
    }
  }

  lemma {:induction false} KeptConcat(a: seq<string>, b: seq<string>)
    ensures Kept(a + b) == Kept(a) + Kept(b)
    decreases |b|
  {
    if b == [] {
      assert a + b == a;
    } else {
      assert (a + b)[..|a + b| - 1] == a + b[..|b| - 1];
      KeptConcat(a, b[..|b| - 1]);
    }
  }

  lemma {:induction false} KeptBalance(lines: seq<string>)
    ensures Balance(Kept(lines)) == Balance(lines)
    decreases |lines|
  {
    if lines != [] {
      var front, last := lines[..|lines| - 1], lines[|lines| - 1];
      KeptBalance(front);
      TrimSpaceWeight(last);
      OneLine(TrimSpace(last));
      BalanceConcat(Kept(front), IfAny(TrimSpace(last)));
      assert Balance(IfAny(TrimSpace(last))) == Weight(last);
    }
  }

  /** A beginning of the kept lines is what is kept of a beginning of the lines. */
  lemma {:induction false} KeptPrefix(lines: seq<string>, k: nat) returns (m: nat)
    requires k <= |Kept(lines)|
    ensures m <= |lines| && Kept(lines[..m]) == Kept(lines)[..k]
    ensures k < |Kept(lines)| ==> m < |lines|
    ensures k > 0 ==> m > 0
    decreases |lines|
  {
    if k == |Kept(lines)| {
      m := |lines|;
      assert lines[..m] == lines;
    } else {
      var front := lines[..|lines| - 1];
      m := KeptPrefix(front, k);
      assert lines[..m] == front[..m];
    }
  }

  lemma KeptShortest(lines: seq<string>)
    requires ShortestBalanced(lines) && Kept(lines) != []
    ensures ShortestBalanced(Kept(lines))
  {
    KeptBalance(lines);
    forall k | 0 < k < |Kept(lines)| ensures Balance(Kept(lines)[..k]) != 0 {
      var m := KeptPrefix(lines, k);
      KeptBalance(lines[..m]);
    }
  }

  /** The lines of a list of objects, printed one after the other. */
  function PrintAll(objects: seq<Json>, indent: string): seq<string> {
    if objects == [] then [] else PrintAll(objects[..|objects| - 1], indent) + Print(objects[|objects| - 1], indent, "", "")
  }

  /** The kept lines of each object. */
  function GroupsOf(objects: seq<Json>, indent: string): seq<seq<string>> {
    if objects == [] then []
    else GroupsOf(objects[..|objects| - 1], indent) + [Kept(Print(objects[|objects| - 1], indent, "", ""))]
  }

  lemma {:induction false} ObjectsFramed(objects: seq<Json>, indent: string)
    requires forall j :: j in objects ==> j.Obj? && BraceFree(j)
    requires NoBraces(indent)
    ensures Framed(Kept(PrintAll(objects, indent)), GroupsOf(objects, indent), [])
    ensures |GroupsOf(objects, indent)| == |objects|
    decreases |objects|
  {
    if objects != [] {
      var front, last := objects[..|objects| - 1], objects[|objects| - 1];
      ObjectsFramed(front, indent);
      var lines := Print(last, indent, "", "");
      ObjectShortest(last, indent);
      ObjectKept(last, indent);
      KeptShortest(lines);
      KeptConcat(PrintAll(front, indent), lines);
      AppendGroup(Kept(PrintAll(front, indent)), GroupsOf(front, indent), Kept(lines));
    }
  }

  lemma AppendGroup(lines: seq<string>, groups: seq<seq<string>>, group: seq<string>)
    requires Framed(lines, groups, []) && ShortestBalanced(group)
    ensures Framed(lines + group, groups + [group], [])
  {
    assert (groups + [group])[..|groups|] == groups;
    assert Flatten(groups) + [] == Flatten(groups);
    assert Flatten(groups + [group]) + [] == lines + group;
  }

  lemma {:induction false} KeepsChar(s: string, c: char)
    requires c in s && !IsSpace(c)
    ensures TrimSpace(s) != ""
  {
    LeftKeeps(s, c);
    RightKeeps(TrimLeft(s), c);
  }

  lemma {:induction false} LeftKeeps(s: string, c: char)
    requires c in s && !IsSpace(c)
    ensures c in TrimLeft(s)
  {
    if IsSpace(s[0]) {
      assert s == [s[0]] + s[1..];
      LeftKeeps(s[1..], c);
    }
  }

  lemma {:induction false} RightKeeps(s: string, c: char)
    requires c in s && !IsSpace(c)
    ensures c in TrimRight(s)
    decreases |s|
  {
    if IsSpace(s[|s| - 1]) {
      assert s == s[..|s| - 1] + [s[|s| - 1]];
      RightKeeps(s[..|s| - 1], c);
    }
  }

  /** At least the first line of an object is kept. */
  lemma ObjectKept(j: Json, indent: string)
    requires j.Obj?
    ensures Kept(Print(j, indent, "", "")) != []
  {
    var lines := Print(j, indent, "", "");
    var first := lines[0];
    assert first[|indent|] == '{';
    KeepsChar(first, '{');
    assert lines == [first] + lines[1..];
    KeptConcat([first], lines[1..]);
    assert [first][..0] == [];
    assert Kept([first]) == Kept([first][..0]) + [TrimSpace(first)];
  }

  /** RECOVERY.  Objects pretty-printed over lines, with no brace inside a string, are framed object
      by object, and nothing stays behind; by uniqueness that is what HandleMultiLine ships. */
  lemma PrettyPrintedRecovered(objects: seq<Json>, indent: string, groups: seq<seq<string>>, pending: seq<string>)
    requires forall j :: j in objects ==> j.Obj? && BraceFree(j)
    requires NoBraces(indent)
    requires Framed(Kept(PrintAll(objects, indent)), groups, pending)
    ensures groups == GroupsOf(objects, indent) && |groups| == |objects| && pending == []
  {
    ObjectsFramed(objects, indent);
    FramedUnique(Kept(PrintAll(objects, indent)), groups, pending, GroupsOf(objects, indent), []);
  }
}
