/** What path queries mean: a declarative reading of the paths, independence of map order, and when
    checkForElem agrees with findElem (utils/json.go). */
module JsonResults {
  import opened Options
  import opened JsonModel
  import opened Strings

  // ----- Paths as text -------------------------------------------------------------------------

  function NonEmpty(parts: seq<string>): seq<string> {
    if parts == [] then []
    else NonEmpty(parts[..|parts| - 1]) + if parts[|parts| - 1] == "" then [] else [parts[|parts| - 1]]
  }

  method TokenizePath(path: string) returns (tokens: seq<string>)
    ensures tokens == NonEmpty(Split(path, '/'))
  {
    tokens := [];
    var parts := Split(path, '/');
    for i := 0 to |parts|
      invariant tokens == NonEmpty(parts[..i])
    {
      assert parts[..i + 1][..i] == parts[..i];
      if parts[i] != "" {
        tokens := tokens + [parts[i]];
      }
    }
    assert parts[..|parts|] == parts;
  }

  lemma {:induction false} NonEmptyAppend(xs: seq<string>, ys: seq<string>)
    ensures NonEmpty(xs + ys) == NonEmpty(xs) + NonEmpty(ys)
  {
    if ys == [] {
      assert xs + ys == xs;
    } else {
      assert (xs + ys)[..|xs + ys| - 1] == xs + ys[..|ys| - 1];
      NonEmptyAppend(xs, ys[..|ys| - 1]);
    }
  }

  /** Putting two paths together with a slash puts their tokens together; either may be empty, so
      slashes at the ends or in a row add nothing. */
  lemma PathAppend(a: string, b: string)
    ensures NonEmpty(Split(a + "/" + b, '/')) == NonEmpty(Split(a, '/')) + NonEmpty(Split(b, '/'))
  {
    SplitAppend(a, b, '/');
    NonEmptyAppend(Split(a, '/'), Split(b, '/'));
  }

  lemma {:induction false} NonEmptyAll(tokens: seq<string>)
    requires "" !in tokens
    ensures NonEmpty(tokens) == tokens
  {
    if tokens != [] {
      assert tokens[|tokens| - 1] in tokens;
      NonEmptyAll(tokens[..|tokens| - 1]);
    }
  }

  /** Every list of names without slashes is the path that joins them. */
  lemma PathOfTokens(tokens: seq<string>)
    requires "" !in tokens && forall i :: 0 <= i < |tokens| ==> '/' !in tokens[i]
    ensures NonEmpty(Split(Join(tokens, '/'), '/')) == tokens
  {
    if tokens == [] {
      assert Split("", '/') == [""];
      assert [""][..0] == [];
    } else {
      SplitJoin(tokens, '/');
      NonEmptyAll(tokens);
    }
  }

  // ----- Order ---------------------------------------------------------------------------------

  lemma {:induction false} CountIn(at: seq<Place>, p: Place)
    ensures Count(at, p) > 0 <==> p in at
  {
    if at != [] { CountIn(at[..|at| - 1], p); }
  }

  lemma CountWithout(at: seq<Place>, i: nat, p: Place)
    requires i < |at|
    ensures Count(at[..i] + at[i + 1..], p) == Count(at, p) - if at[i] == p then 1 else 0
  {
    assert at == at[..i] + ([at[i]] + at[i + 1..]);
    CountAppend(at[..i], [at[i]] + at[i + 1..], p);
    CountAppend([at[i]], at[i + 1..], p);
    CountAppend(at[..i], at[i + 1..], p);
    assert [at[i]][..0] == [];
  }

  /** ORDER DOES NOT MATTER.  Two runs of the same query, walking maps in whatever orders, find the same
      nodes equally often. */
  lemma {:induction false} SameResults(o: Node, at: seq<Place>, results: seq<Node>, at': seq<Place>, results': seq<Node>)
    requires Found(o, at, results) && Found(o, at', results') && forall p :: Count(at, p) == Count(at', p)
    ensures multiset(results) == multiset(results')
    decreases |at|
  {
    if at == [] {
      if at' != [] {
        CountIn(at', at'[0]);
        assert false;
      }
    } else {
      var m := |at| - 1;
      CountIn(at, at[m]);
      CountIn(at', at[m]);
      var i :| 0 <= i < |at'| && at'[i] == at[m];
      var rest, without := at'[..i] + at'[i + 1..], results'[..i] + results'[i + 1..];
      forall p ensures Count(at[..m], p) == Count(rest, p) {
        CountWithout(at', i, p);
      }
      FoundWithout(o, at', results', i);
      SameResults(o, at[..m], results[..m], rest, without);
      TakeOut(results, m);
      TakeOut(results', i);
    }
  }

  lemma FoundWithout(o: Node, at: seq<Place>, results: seq<Node>, i: nat)
    requires Found(o, at, results) && i < |at|
    ensures Found(o, at[..i] + at[i + 1..], results[..i] + results[i + 1..])
  {
  }

  lemma TakeOut(results: seq<Node>, i: nat)
    requires i < |results|
    ensures multiset(results) == multiset(results[..i] + results[i + 1..]) + multiset{results[i]}
    ensures i == |results| - 1 ==> results[..i] + results[i + 1..] == results[..i]
  {
    assert results == results[..i] + [results[i]] + results[i + 1..];
  }

  // ----- What is found -------------------------------------------------------------------------

  /** Only places of the tree are found. */
  lemma {:induction false} FoundExists(o: Node, tokens: seq<string>, depth: bool, p: Place)
    requires Times(o, tokens, depth, p) > 0
    ensures NodeAt(o, p).Some?
    decreases |tokens|, p
  {
    if tokens != [] && o.Obj? && tokens[0] == "*" && Times(o, tokens[1..], true, p) > 0 {
      FoundExists(o, tokens[1..], true, p);
    } else if p.Down? {
      BelowExists(o, tokens, depth, p);
    }
  }

  lemma {:induction false} BelowExists(o: Node, tokens: seq<string>, depth: bool, p: Place)
    requires p.Down?
    ensures forall ts, d :: |ts| <= |tokens| && Below(o, ts, d, p) > 0 ==> NodeAt(o, p).Some?
    decreases |tokens|, p, 0
  {
    forall ts: seq<string>, d: bool | |ts| <= |tokens| && Below(o, ts, d, p) > 0 ensures NodeAt(o, p).Some? {
      FoundExists(Child(o, p.step).value, ts, d, p.rest);
    }
  }

  lemma {:induction false} WholeSubtree(o: Node, p: Place)
    ensures Times(o, [], true, p) == if NodeAt(o, p).Some? then 1 else 0
    decreases p
  {
    if p.Down? && Child(o, p.step).Some? {
      WholeSubtree(Child(o, p.step).value, p.rest);
    }
  }

  /** A TRAILING STAR at a map finds every node of the subtree, lists and their elements included, and
      the map itself, each once. */
  lemma TrailingStar(o: Node, p: Place)
    requires o.Obj?
    ensures Times(o, ["*"], false, p) == if NodeAt(o, p).Some? then 1 else 0
  {
    assert ["*"][1..] == [];
    WholeSubtree(o, p);
  }

  lemma BracketToken(inner: string, rest: seq<string>) returns (token: string)
    ensures token == "[" + inner + "]" && IsIndex(token) && token[1..|token| - 1] == inner
    ensures ([token] + rest)[0] == token && ([token] + rest)[1..] == rest
  {
    token := "[" + inner + "]";
  }

  lemma ElementAt(items: seq<Node>, inner: string, rest: seq<string>, depth: bool, p: Place)
    ensures Times(Arr(items), ["[" + inner + "]"] + rest, depth, p)
      == if p.Down? && p.step.Index? && p.step.index < |items| && Atoi(inner) == Some(p.step.index)
         then Times(items[p.step.index], rest, depth, p.rest) else 0
  {
    var token := BracketToken(inner, rest);
  }

  lemma AtoiDecimal(i: nat)
    ensures Atoi(Decimal(i)) == Some(i)
  {
    var s := Decimal(i);
    assert '0' <= s[0] <= '9';
  }

  lemma AtoiSigned(sign: char, digits: string)
    requires (sign == '+' || sign == '-') && Digits(digits)
    ensures Atoi([sign] + digits) == Some(if sign == '-' then -DigitsValue(digits) else DigitsValue(digits))
  {
    var s := [sign] + digits;
    assert s[0] == sign && s[1..] == digits;
    assert !Digits(s);
  }

  /** INDEX TOKENS.  `[i]` asks a list for its element i, counted from zero, and finds there what the rest of
      the path finds; a list that is too short has nothing. */
  lemma IndexedElement(items: seq<Node>, i: nat, rest: seq<string>, depth: bool, p: Place)
    ensures Times(Arr(items), ["[" + Decimal(i) + "]"] + rest, depth, p)
      == if i < |items| && p.Down? && p.step == Index(i) then Times(items[i], rest, depth, p.rest) else 0
  {
    AtoiDecimal(i);
    ElementAt(items, Decimal(i), rest, depth, p);
  }

  /** A plus sign before the number changes nothing, and behind a minus sign only zero is an element. */
  lemma SignedElement(items: seq<Node>, sign: char, i: nat, rest: seq<string>, depth: bool, p: Place)
    requires sign == '+' || sign == '-'
    ensures Times(Arr(items), ["[" + ([sign] + Decimal(i)) + "]"] + rest, depth, p)
      == if i < |items| && (sign == '-' ==> i == 0) && p.Down? && p.step == Index(i) then Times(items[i], rest, depth, p.rest) else 0
  {
    AtoiSigned(sign, Decimal(i));
    ElementAt(items, [sign] + Decimal(i), rest, depth, p);
  }

  /** Brackets around anything but a number with or without a sign ask a list for nothing. */
  lemma NoSuchElement(items: seq<Node>, inner: string, rest: seq<string>, depth: bool, p: Place)
    requires !Digits(inner) && (inner == "" || (inner[0] != '+' && inner[0] != '-') || !Digits(inner[1..]))
    ensures Times(Arr(items), ["[" + inner + "]"] + rest, depth, p) == 0
  {
    ElementAt(items, inner, rest, depth, p);
  }

  predicate Wild(token: string) {
    token == "*" || token == "?"
  }

  /** The place spells the tokens: its names are the tokens; a step into a list is spelled by an index
      token if that is due, else by nothing; and the last step is spelled by a token. */
  ghost predicate Spells(tokens: seq<string>, p: Place) {
    match p
    case Here => tokens == []
    case Down(Key(k), rest) => tokens != [] && k == tokens[0] && Spells(tokens[1..], rest)
    case Down(Index(i), rest) =>
      && tokens != []
      && if IsIndex(tokens[0]) then Atoi(tokens[0][1..|tokens[0]| - 1]) == Some(i) && Spells(tokens[1..], rest)
         else Spells(tokens, rest)
  }

  /** LISTS ARE TRANSPARENT.  A path without wildcards finds exactly the places that spell it, each once. */
  lemma {:induction false} PlainPath(o: Node, tokens: seq<string>, p: Place)
    requires forall t :: t in tokens ==> !Wild(t)
    ensures Times(o, tokens, false, p) == if NodeAt(o, p).Some? && Spells(tokens, p) then 1 else 0
    decreases |tokens|, p
  {
    assert tokens != [] ==> tokens[0] in tokens;
    if tokens != [] && p.Down? && Child(o, p.step).Some? {
      var child := Child(o, p.step).value;
      if o.Obj? || IsIndex(tokens[0]) {
        PlainPath(child, tokens[1..], p.rest);
      } else {
        PlainPath(child, tokens, p.rest);
      }
    }
  }

  // ----- Paths are patterns --------------------------------------------------------------------

  /** The tokens left behind a step into a list: an index takes its own element only, a wildcard is used
      up by the step, and a name passes through. */
  ghost function PastList(tokens: seq<string>, i: nat): Option<seq<string>>
    requires tokens != []
  {
    if IsIndex(tokens[0]) then
      if Atoi(tokens[0][1..|tokens[0]| - 1]) == Some(i) then Some(tokens[1..]) else None
    else if Wild(tokens[0]) then Some(tokens[1..])
    else Some(tokens)
  }

  /** A name matches itself, `?` any one name, `*` any number of steps; but a `*` with nothing left to
      match must stand at a map. */
  ghost predicate Glob(tokens: seq<string>, p: Place, endIsMap: bool)
    decreases |tokens|, p, 0
  {
    if tokens == [] then p.Here?
    else
      match p
      case Here => tokens[0] == "*" && endIsMap && GlobSuffix(tokens[1..], p, endIsMap)
      case Down(Key(k), rest) =>
        if tokens[0] == "*" then GlobSuffix(tokens[1..], p, endIsMap)
        else (tokens[0] == "?" || tokens[0] == k) && Glob(tokens[1..], rest, endIsMap)
      case Down(Index(i), rest) => PastList(tokens, i).Some? && Glob(PastList(tokens, i).value, rest, endIsMap)
  }

  /** Some suffix of the place matches; before it, lists use up tokens all the same. */
  ghost predicate GlobSuffix(tokens: seq<string>, p: Place, endIsMap: bool)
    decreases |tokens|, p, 1
  {
    if tokens != [] && p.Down? && p.step.Index? then
      PastList(tokens, p.step.index).Some? && GlobSuffix(PastList(tokens, p.step.index).value, p.rest, endIsMap)
    else Glob(tokens, p, endIsMap) || (p.Down? && GlobSuffix(tokens, p.rest, endIsMap))
  }

  /** In how many ways the pattern matches: each star may stand for more or fewer of the steps. */
  ghost function Matchings(tokens: seq<string>, p: Place, endIsMap: bool): nat
    decreases |tokens|, p, 0
  {
    if tokens == [] then (if p.Here? then 1 else 0)
    else
      match p
      case Here => if tokens[0] == "*" && endIsMap then SuffixMatchings(tokens[1..], p, endIsMap) else 0
      case Down(Key(k), rest) =>
        if tokens[0] == "*" then SuffixMatchings(tokens[1..], p, endIsMap)
        else if tokens[0] == "?" || tokens[0] == k then Matchings(tokens[1..], rest, endIsMap)
        else 0
      case Down(Index(i), rest) =>
        if PastList(tokens, i).Some? then Matchings(PastList(tokens, i).value, rest, endIsMap) else 0
  }

  /** The ways of all suffixes together. */
  ghost function SuffixMatchings(tokens: seq<string>, p: Place, endIsMap: bool): nat
    decreases |tokens|, p, 1
  {
    if tokens != [] && p.Down? && p.step.Index? then
      if PastList(tokens, p.step.index).Some? then SuffixMatchings(PastList(tokens, p.step.index).value, p.rest, endIsMap) else 0
    else Matchings(tokens, p, endIsMap) + if p.Down? then SuffixMatchings(tokens, p.rest, endIsMap) else 0
  }

  /** AS OFTEN AS IT MATCHES.  A query finds a place of the tree once for every way in which the path
      matches it as a pattern; with the depth flag set, once for every way in which a suffix of it does. */
  lemma {:induction false} FindsMatchings(o: Node, tokens: seq<string>, depth: bool, p: Place, end: Node)
    requires NodeAt(o, p) == Some(end)
    ensures Times(o, tokens, depth, p) == if depth then SuffixMatchings(tokens, p, end.Obj?) else Matchings(tokens, p, end.Obj?)
    decreases |tokens|, p
  {
    if p.Here? {
      if tokens != [] { FindsMatchings(o, tokens[1..], true, p, end); }
    } else if tokens == [] || p.step.Key? {
      MatchesBelowMap(o, tokens, depth, p, end);
    } else {
      var child := Child(o, p.step).value;
      FindsMatchings(child, tokens[1..], depth, p.rest, end);
      FindsMatchings(child, tokens, depth, p.rest, end);
    }
  }

  lemma {:induction false} MatchesBelowMap(o: Node, tokens: seq<string>, depth: bool, p: Place, end: Node)
    requires NodeAt(o, p) == Some(end) && p.Down? && (tokens == [] || p.step.Key?)
    ensures Times(o, tokens, depth, p) == if depth then SuffixMatchings(tokens, p, end.Obj?) else Matchings(tokens, p, end.Obj?)
    decreases |tokens|, p, 0
  {
    var child := Child(o, p.step).value;
    FindsMatchings(child, tokens, true, p.rest, end);
    if tokens != [] {
      FindsMatchings(o, tokens[1..], true, p, end);
      FindsMatchings(child, tokens[1..], false, p.rest, end);
    }
  }

  /** One way at least is a match. */
  lemma {:induction false} MatchingsIffGlob(tokens: seq<string>, p: Place, endIsMap: bool)
    ensures Matchings(tokens, p, endIsMap) > 0 <==> Glob(tokens, p, endIsMap)
    ensures SuffixMatchings(tokens, p, endIsMap) > 0 <==> GlobSuffix(tokens, p, endIsMap)
    decreases |tokens|, p
  {
    if tokens != [] { MatchingsIffGlob(tokens[1..], p, endIsMap); }
    if p.Down? {
      MatchingsIffGlob(tokens, p.rest, endIsMap);
      if tokens != [] { MatchingsIffGlob(tokens[1..], p.rest, endIsMap); }
    }
  }

  /** PATHS ARE PATTERNS.  A query finds a place of the tree exactly if it matches the path as a pattern;
      with the depth flag set, if some suffix does. */
  lemma FindsGlob(o: Node, tokens: seq<string>, depth: bool, p: Place, end: Node)
    requires NodeAt(o, p) == Some(end)
    ensures Times(o, tokens, depth, p) > 0 <==> if depth then GlobSuffix(tokens, p, end.Obj?) else Glob(tokens, p, end.Obj?)
  {
    FindsMatchings(o, tokens, depth, p, end);
    MatchingsIffGlob(tokens, p, end.Obj?);
  }

  // ----- checkForElem --------------------------------------------------------------------------

  ghost predicate Present(o: Node, tokens: seq<string>, depth: bool)
    decreases |tokens|, o
  {
    tokens == [] ||
    match o
    case Obj(fields) =>
      || (tokens[0] == "*" && Present(o, tokens[1..], true))
      || (tokens[0] == "?" && exists k :: k in fields && Present(fields[k], tokens[1..], false))
      || (!Wild(tokens[0]) && tokens[0] in fields && Present(fields[tokens[0]], tokens[1..], false))
      || (depth && exists k :: k in fields && Present(fields[k], tokens, true))
    case Arr(items) =>
      if IsIndex(tokens[0]) then
        var i := IndexIn(tokens[0], |items|);
        i.Some? && Present(items[i.value], tokens[1..], depth)
      else exists i :: 0 <= i < |items| && Present(items[i], tokens, depth)
    case Leaf(_) => false
  }

  method CheckForElem(o: Node, tokens: seq<string>, isWildcardDepth: bool) returns (r: bool)
    ensures r == Present(o, tokens, isWildcardDepth)
    decreases |tokens|, o, 1
  {
    if |tokens| == 0 {
      return true;
    }
    var curToken := tokens[0];
    match o {
      case Obj(fields) =>
        r := false;
        if curToken == "*" {
          r := CheckForElem(o, tokens[1..], true);
        } else if curToken == "?" {
          r := CheckFields(o, tokens[1..], false);
        } else if curToken in fields {
          r := CheckForElem(fields[curToken], tokens[1..], false);
        }
        if !r && isWildcardDepth {
          r := CheckFields(o, tokens, true);
        }
      case Arr(items) =>
        if IsIndex(curToken) {
          var listIndex := IndexIn(curToken, |items|);
          if listIndex.None? {
            return false;
          }
          r := CheckForElem(items[listIndex.value], tokens[1..], isWildcardDepth);
        } else {
          for i := 0 to |items|
            invariant forall j :: 0 <= j < i ==> !Present(items[j], tokens, isWildcardDepth)
          {
            var found := CheckForElem(items[i], tokens, isWildcardDepth);
            if found {
              return true;
            }
          }
          return false;
        }
      case Leaf(_) => return false;
    }
  }

  method CheckFields(o: Node, tokens: seq<string>, depth: bool) returns (r: bool)
    requires o.Obj?
    ensures r <==> exists k :: k in o.fields && Present(o.fields[k], tokens, depth)
    decreases |tokens|, o, 0
  {
    var keys := o.fields.Keys;
    while keys != {}
      invariant keys <= o.fields.Keys
      invariant forall k :: k in o.fields.Keys - keys ==> !Present(o.fields[k], tokens, depth)
      decreases keys
    {
      var k :| k in keys;
      var found := CheckForElem(o.fields[k], tokens, depth);
      if found {
        return true;
      }
      keys := keys - {k};
    }
    return false;
  }

  // ----- Presence agrees with extraction -------------------------------------------------------

  /** The query finds something. */
  ghost predicate Finds(o: Node, tokens: seq<string>, depth: bool) {
    exists p :: Times(o, tokens, depth, p) > 0
  }

  lemma FindsByChild(o: Node, step: Step, tokens: seq<string>, depth: bool) returns (p: Place)
    requires Child(o, step).Some? && Finds(Child(o, step).value, tokens, depth)
    ensures p.Down? && p.step == step && Below(o, tokens, depth, p) > 0
  {
    var rest :| Times(Child(o, step).value, tokens, depth, rest) > 0;
    p := Down(step, rest);
  }

  lemma BelowFinds(o: Node, p: Place)
    ensures forall tokens, depth :: Below(o, tokens, depth, p) > 0 && o.Obj? ==>
      p.Down? && p.step.Key? && p.step.key in o.fields && Finds(o.fields[p.step.key], tokens, depth)
    ensures forall tokens, depth :: Below(o, tokens, depth, p) > 0 && o.Arr? ==>
      p.Down? && p.step.Index? && p.step.index < |o.items| && Finds(o.items[p.step.index], tokens, depth)
  {
  }

  ghost predicate ListFree(o: Node) {
    match o
    case Obj(fields) => forall k :: k in fields ==> ListFree(fields[k])
    case Arr(_) => false
    case Leaf(_) => true
  }

  /** AGREEMENT.  checkForElem answers whether findElem would find something, whenever the path has no
      wildcard or the tree has no list. */
  lemma {:induction false} PresentIffFinds(o: Node, tokens: seq<string>, depth: bool)
    requires (forall t :: t in tokens ==> !Wild(t)) || ListFree(o)
    ensures Present(o, tokens, depth) <==> Finds(o, tokens, depth)
    decreases |tokens|, o
  {
    if tokens == [] {
      assert Times(o, tokens, depth, Here) > 0;
    } else {
      var rest := tokens[1..];
      assert forall t :: t in rest ==> t in tokens;
      match o {
        case Obj(fields) =>
          PresentIffFinds(o, rest, true);
          forall k | k in fields
            ensures Present(fields[k], tokens, true) <==> Finds(fields[k], tokens, true)
            ensures Present(fields[k], rest, false) <==> Finds(fields[k], rest, false)
          {
            PresentIffFinds(fields[k], tokens, true);
            PresentIffFinds(fields[k], rest, false);
          }
          ObjFinds(o, tokens, depth);
        case Arr(items) =>
          assert tokens[0] in tokens;
          forall i | 0 <= i < |items|
            ensures Present(items[i], tokens, depth) <==> Finds(items[i], tokens, depth)
            ensures Present(items[i], rest, depth) <==> Finds(items[i], rest, depth)
          {
            PresentIffFinds(items[i], tokens, depth);
            PresentIffFinds(items[i], rest, depth);
          }
          ArrFinds(o, tokens, depth);
        case Leaf(_) =>
      }
    }
  }

  /** Finding something at a map is finding something by one of the ways on. */
  lemma ObjFinds(o: Node, tokens: seq<string>, depth: bool)
    requires o.Obj? && tokens != []
    ensures Finds(o, tokens, depth) <==>
      || (tokens[0] == "*" && Finds(o, tokens[1..], true))
      || (tokens[0] == "?" && exists k :: k in o.fields && Finds(o.fields[k], tokens[1..], false))
      || (!Wild(tokens[0]) && tokens[0] in o.fields && Finds(o.fields[tokens[0]], tokens[1..], false))
      || (depth && exists k :: k in o.fields && Finds(o.fields[k], tokens, true))
  {
    var token, rest := tokens[0], tokens[1..];
    if Finds(o, tokens, depth) {
      var p :| Times(o, tokens, depth, p) > 0;
      BelowFinds(o, p);
      if depth && Below(o, tokens, true, p) > 0 {
        assert exists k :: k in o.fields && Finds(o.fields[k], tokens, true);
      } else if token == "?" {
        assert Below(o, rest, false, p) > 0;
        assert exists k :: k in o.fields && Finds(o.fields[k], rest, false);
      } else if token == "*" {
        assert Times(o, rest, true, p) > 0;
      } else {
        assert token in o.fields && Finds(o.fields[token], rest, false);
      }
    }
    if token == "*" && Finds(o, rest, true) {
      var p :| Times(o, rest, true, p) > 0;
      assert Times(o, tokens, depth, p) > 0;
    }
    if token == "?" {
      forall k | k in o.fields && Finds(o.fields[k], rest, false) ensures Finds(o, tokens, depth) {
        var p := FindsByChild(o, Key(k), rest, false);
        assert Times(o, tokens, depth, p) > 0;
      }
    }
    if !Wild(token) && token in o.fields && Finds(o.fields[token], rest, false) {
      var p := FindsByChild(o, Key(token), rest, false);
      assert Times(o, tokens, depth, p) > 0;
    }
    if depth {
      forall k | k in o.fields && Finds(o.fields[k], tokens, true) ensures Finds(o, tokens, depth) {
        var p := FindsByChild(o, Key(k), tokens, true);
        assert Times(o, tokens, depth, p) > 0;
      }
    }
  }

  lemma ArrFinds(o: Node, tokens: seq<string>, depth: bool)
    requires o.Arr? && tokens != [] && !Wild(tokens[0])
    ensures Finds(o, tokens, depth) <==>
      if IsIndex(tokens[0]) then
        IndexIn(tokens[0], |o.items|).Some? && Finds(o.items[IndexIn(tokens[0], |o.items|).value], tokens[1..], depth)
      else exists i :: 0 <= i < |o.items| && Finds(o.items[i], tokens, depth)
  {
    var token, rest := tokens[0], tokens[1..];
    if Finds(o, tokens, depth) {
      var p :| Times(o, tokens, depth, p) > 0;
      BelowFinds(o, p);
      assert if IsIndex(token) then Below(o, rest, depth, p) > 0 else Below(o, tokens, depth, p) > 0;
    }
    if IsIndex(token) {
      var i := IndexIn(token, |o.items|);
      if i.Some? && Finds(o.items[i.value], rest, depth) {
        var p := FindsByChild(o, Index(i.value), rest, depth);
        assert Times(o, tokens, depth, p) > 0;
      }
    } else {
      forall i | 0 <= i < |o.items| && Finds(o.items[i], tokens, depth) ensures Finds(o, tokens, depth) {
        var p := FindsByChild(o, Index(i), tokens, depth);
        assert Times(o, tokens, depth, p) > 0;
      }
    }
  }

  /** With both a wildcard and a list they may disagree: findElem spends the wildcard on the list,
      checkForElem takes it along to the elements. */
  lemma CheckMisses()
    ensures Finds(Arr([Leaf("")]), ["*"], false) && !Present(Arr([Leaf("")]), ["*"], false)
  {
    var o := Arr([Leaf("")]);
    assert ["*"][1..] == [];
    assert Times(Leaf(""), [], false, Here) == 1;
    assert Below(o, [], false, Down(Index(0), Here)) == 1;
    assert Times(o, ["*"], false, Down(Index(0), Here)) == 1;
  }

  lemma CheckInvents()
    ensures var o := Arr([Obj(map["x" := Obj(map["a" := Leaf("")])])]);
      Present(o, ["?", "a"], false) && !Finds(o, ["?", "a"], false)
  {
    var inner := Obj(map["a" := Leaf("")]);
    var elem := Obj(map["x" := inner]);
    var o := Arr([elem]);
    var tokens := ["?", "a"];
    assert tokens[1..] == ["a"] && ["a"][1..] == [];
    assert Present(inner.fields["a"], [], false) && Present(inner, ["a"], false);
    assert "x" in elem.fields && elem.fields["x"] == inner;
    assert Present(elem, tokens, false);
    assert Present(o.items[0], tokens, false);
    forall p ensures Times(o, tokens, false, p) == 0 {
      if p.Down? && Child(o, p.step).Some? {
        assert Times(elem, ["a"], false, p.rest) == 0;
      }
    }
  }
}
