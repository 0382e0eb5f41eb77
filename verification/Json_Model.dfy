/** Path queries over JSON trees: findElem and checkForElem of utils/json.go, without auto-expansion. */
module JsonModel {
  import opened Options
  import opened Strings

  /** A tree as the accessors see it; nil maps and lists that come out nil are leaves. */
  datatype Node = Obj(fields: map<string, Node>) | Arr(items: seq<Node>) | Leaf(text: string)

  /** A place in a tree: the way down from its root. */
  datatype Step = Key(key: string) | Index(index: nat)
  datatype Place = Here | Down(step: Step, rest: Place)

  function Child(o: Node, step: Step): Option<Node> {
    match o
    case Obj(fields) => if step.Key? && step.key in fields then Some(fields[step.key]) else None
    case Arr(items) => if step.Index? && step.index < |items| then Some(items[step.index]) else None
    case Leaf(_) => None
  }

  function NodeAt(o: Node, p: Place): Option<Node> {
    match p
    case Here => Some(o)
    case Down(step, rest) => if Child(o, step).Some? then NodeAt(Child(o, step).value, rest) else None
  }

  // ----- Index tokens --------------------------------------------------------------------------

  predicate IsIndex(token: string) {
    |token| >= 2 && token[0] == '[' && token[|token| - 1] == ']'
  }

  /** strconv.Atoi on unbounded integers: what overflows there is far beyond any list here. */
  function Atoi(s: string): Option<int> {
    var unsigned := if s != "" && (s[0] == '+' || s[0] == '-') then s[1..] else s;
    if !Digits(unsigned) then None
    else if s[0] == '-' then Some(-DigitsValue(unsigned))
    else Some(DigitsValue(unsigned))
  }

  /** The list index a token asks for, if it names one of `n` elements. */
  function IndexIn(token: string, n: nat): (r: Option<nat>)
    requires IsIndex(token)
    ensures r.Some? ==> r.value < n
  {
    var i := Atoi(token[1..|token| - 1]);
    if i.Some? && 0 <= i.value < n then Some(i.value) else None
  }

  // ----- The reference -------------------------------------------------------------------------

  /** How often a query finds a place. */
  ghost function Times(o: Node, tokens: seq<string>, depth: bool, p: Place): nat
    decreases |tokens|, p
  {
    if tokens == [] then
      if depth then (if p.Here? then 1 else Below(o, tokens, depth, p)) else if p.Here? then 1 else 0
    else
      var token, rest := tokens[0], tokens[1..];
      match o
      case Obj(fields) =>
        (if token == "*" then Times(o, rest, true, p)
         else if token == "?" then Below(o, rest, false, p)
         else if p.Down? && p.step == Key(token) then Below(o, rest, false, p)
         else 0)
        + (if depth then Below(o, tokens, true, p) else 0)
      case Arr(items) =>
        if IsIndex(token) then
          if p.Down? && IndexIn(token, |items|).Some? && p.step == Index(IndexIn(token, |items|).value) then Below(o, rest, depth, p) else 0
        else if token == "*" || token == "?" then Below(o, rest, depth, p)
        else Below(o, tokens, depth, p)
      case Leaf(_) => 0
  }

  /** How often the query finds a place from the child on its way. */
  ghost function Below(o: Node, tokens: seq<string>, depth: bool, p: Place): nat
    decreases |tokens|, p, 0
  {
    if p.Down? && Child(o, p.step).Some? then Times(Child(o, p.step).value, tokens, depth, p.rest) else 0
  }

  ghost function Count(at: seq<Place>, p: Place): nat {
    if at == [] then 0 else Count(at[..|at| - 1], p) + if at[|at| - 1] == p then 1 else 0
  }

  lemma {:induction false} CountAppend(xs: seq<Place>, ys: seq<Place>, p: Place)
    ensures Count(xs + ys, p) == Count(xs, p) + Count(ys, p)
  {
    if ys == [] {
      assert xs + ys == xs;
    } else {
      assert (xs + ys)[..|xs + ys| - 1] == xs + ys[..|ys| - 1];
      CountAppend(xs, ys[..|ys| - 1], p);
    }
  }

  ghost function Prefixed(step: Step, at: seq<Place>): (r: seq<Place>)
    ensures |r| == |at|
  {
    seq(|at|, i requires 0 <= i < |at| => Down(step, at[i]))
  }

  lemma {:induction false} CountPrefixed(step: Step, at: seq<Place>, p: Place)
    ensures Count(Prefixed(step, at), p) == if p.Down? && p.step == step then Count(at, p.rest) else 0
  {
    if at != [] {
      assert Prefixed(step, at)[..|at| - 1] == Prefixed(step, at[..|at| - 1]);
      CountPrefixed(step, at[..|at| - 1], p);
    }
  }

  /** The results are the nodes at these places. */
  ghost predicate Found(o: Node, at: seq<Place>, results: seq<Node>) {
    |at| == |results| && forall i :: 0 <= i < |at| ==> NodeAt(o, at[i]) == Some(results[i])
  }

  lemma FoundBelow(o: Node, step: Step, at: seq<Place>, results: seq<Node>)
    requires Child(o, step).Some? && Found(Child(o, step).value, at, results)
    ensures Found(o, Prefixed(step, at), results)
  {
  }

  lemma FoundAppend(o: Node, at: seq<Place>, results: seq<Node>, at': seq<Place>, results': seq<Node>)
    requires Found(o, at, results) && Found(o, at', results')
    ensures Found(o, at + at', results + results')
    ensures forall p :: Count(at + at', p) == Count(at, p) + Count(at', p)
  {
    forall p ensures Count(at + at', p) == Count(at, p) + Count(at', p) {
      CountAppend(at, at', p);
    }
  }

  /** The places found under the children seen so far. */
  ghost predicate FoundUnder(o: Node, tokens: seq<string>, depth: bool, seen: iset<Step>, at: seq<Place>, results: seq<Node>) {
    Found(o, at, results) && forall p :: Count(at, p) == if p.Down? && p.step in seen then Below(o, tokens, depth, p) else 0
  }

  lemma OneMoreChild(o: Node, tokens: seq<string>, depth: bool, seen: iset<Step>, at: seq<Place>, results: seq<Node>,
                     step: Step, sub: seq<Place>, found: seq<Node>)
    requires FoundUnder(o, tokens, depth, seen, at, results) && step !in seen
    requires Child(o, step).Some? && Found(Child(o, step).value, sub, found)
    requires forall p :: Count(sub, p) == Times(Child(o, step).value, tokens, depth, p)
    ensures FoundUnder(o, tokens, depth, seen + iset{step}, at + Prefixed(step, sub), results + found)
  {
    FoundBelow(o, step, sub, found);
    FoundAppend(o, at, results, Prefixed(step, sub), found);
    forall p
      ensures Count(at + Prefixed(step, sub), p) == if p.Down? && p.step in seen + iset{step} then Below(o, tokens, depth, p) else 0
    {
      CountPrefixed(step, sub, p);
    }
  }

  // ----- findElem ------------------------------------------------------------------------------

  /** The nodes a query finds, with the places they are found at: every place as often as the reference
      says, whatever order maps are walked in. */
  method FindElem(o: Node, tokens: seq<string>, isWildcardDepth: bool) returns (results: seq<Node>, ghost at: seq<Place>)
    ensures Found(o, at, results)
    ensures forall p :: Count(at, p) == Times(o, tokens, isWildcardDepth, p)
    decreases |tokens|, o, 2
  {
    if |tokens| == 0 {
      results, at := FindEnd(o, tokens, isWildcardDepth);
    } else if o.Obj? {
      results, at := FindInDict(o, tokens, isWildcardDepth);
    } else if o.Arr? {
      results, at := FindInList(o, tokens, isWildcardDepth);
    } else {
      results, at := [], [];
    }
  }

  /** At the end of the path: the node, and with the depth flag all nodes below it before. */
  method FindEnd(o: Node, tokens: seq<string>, isWildcardDepth: bool) returns (results: seq<Node>, ghost at: seq<Place>)
    requires tokens == []
    ensures Found(o, at, results)
    ensures forall p :: Count(at, p) == Times(o, tokens, isWildcardDepth, p)
    decreases |tokens|, o, 1
  {
    results, at := [], [];
    if isWildcardDepth {
      results, at := FindInChildren(o, tokens, isWildcardDepth);
    }
    FoundAppend(o, at, results, [Here], [o]);
    results, at := results + [o], at + [Here];
  }

  /** At a map: by its own token, and with the depth flag also further down. */
  method FindInDict(o: Node, tokens: seq<string>, isWildcardDepth: bool) returns (results: seq<Node>, ghost at: seq<Place>)
    requires o.Obj? && tokens != []
    ensures Found(o, at, results)
    ensures forall p :: Count(at, p) == Times(o, tokens, isWildcardDepth, p)
    decreases |tokens|, o, 1
  {
    var curToken := tokens[0];
    results, at := [], [];
    if curToken == "*" {
      results, at := FindElem(o, tokens[1..], true);
    } else if curToken == "?" {
      results, at := FindInChildren(o, tokens[1..], false);
    } else if curToken in o.fields {
      results, at := FindInChild(o, Key(curToken), tokens[1..], false);
    }
    if isWildcardDepth {
      var more;
      ghost var at';
      more, at' := FindInChildren(o, tokens, true);
      FoundAppend(o, at, results, at', more);
      results, at := results + more, at + at';
    }
  }

  /** At a list: the element of an index token, or all elements, a wildcard being spent. */
  method FindInList(o: Node, tokens: seq<string>, isWildcardDepth: bool) returns (results: seq<Node>, ghost at: seq<Place>)
    requires o.Arr? && tokens != []
    ensures Found(o, at, results)
    ensures forall p :: Count(at, p) == Times(o, tokens, isWildcardDepth, p)
    decreases |tokens|, o, 1
  {
    var curToken := tokens[0];
    results, at := [], [];
    if IsIndex(curToken) {
      var listIndex := IndexIn(curToken, |o.items|);
      if listIndex.Some? {
        results, at := FindInChild(o, Index(listIndex.value), tokens[1..], isWildcardDepth);
      }
    } else {
      var below := if curToken == "*" || curToken == "?" then tokens[1..] else tokens;
      results, at := FindInChildren(o, below, isWildcardDepth);
    }
  }

  method FindInChild(o: Node, step: Step, tokens: seq<string>, depth: bool) returns (results: seq<Node>, ghost at: seq<Place>)
    requires Child(o, step).Some?
    ensures FoundUnder(o, tokens, depth, iset{step}, at, results)
    decreases |tokens|, o, 0
  {
    ChildSmaller(o, step);
    results, at := FindElem(Child(o, step).value, tokens, depth);
    OneMoreChild(o, tokens, depth, iset{}, [], [], step, at, results);
    assert iset{} + iset{step} == iset{step};
    assert [] + Prefixed(step, at) == Prefixed(step, at) && [] + results == results;
    at := Prefixed(step, at);
  }

  lemma ChildSmaller(o: Node, step: Step)
    requires Child(o, step).Some?
    ensures Child(o, step).value < o
  {
  }

  /** All children: those of a map in any order. */
  method FindInChildren(o: Node, tokens: seq<string>, depth: bool) returns (results: seq<Node>, ghost at: seq<Place>)
    ensures Found(o, at, results)
    ensures forall p :: Count(at, p) == Below(o, tokens, depth, p)
    decreases |tokens|, o, 0
  {
    results, at := [], [];
    ghost var seen: iset<Step> := iset{};
    match o {
      case Obj(fields) =>
        var keys := fields.Keys;
        while keys != {}
          invariant keys <= fields.Keys
          invariant seen == iset k | k in fields.Keys - keys :: Key(k)
          invariant FoundUnder(o, tokens, depth, seen, at, results)
          decreases keys
        {
          var k :| k in keys;
          var found;
          ghost var sub;
          found, sub := FindElem(fields[k], tokens, depth);
          OneMoreChild(o, tokens, depth, seen, at, results, Key(k), sub, found);
          results, at, seen := results + found, at + Prefixed(Key(k), sub), seen + iset{Key(k)};
          keys := keys - {k};
        }
      case Arr(items) =>
        for i := 0 to |items|
          invariant seen == iset j: nat | j < i :: Index(j)
          invariant FoundUnder(o, tokens, depth, seen, at, results)
        {
          var found;
          ghost var sub;
          found, sub := FindElem(items[i], tokens, depth);
          OneMoreChild(o, tokens, depth, seen, at, results, Index(i), sub, found);
          results, at, seen := results + found, at + Prefixed(Index(i), sub), seen + iset{Index(i)};
        }
      case Leaf(_) =>
    }
  }
}
