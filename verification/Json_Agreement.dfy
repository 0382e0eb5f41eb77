/** For which paths checkForElem agrees with findElem on every tree: exactly those without wildcards
    (utils/json.go). */
module JsonAgreement {
  import opened Options
  import opened JsonModel
  import opened JsonResults

  /** A wildcard is spent on a list, and the rest looked for in its elements. */
  lemma WildArrFinds(o: Node, tokens: seq<string>, depth: bool)
    requires o.Arr? && tokens != [] && Wild(tokens[0])
    ensures Finds(o, tokens, depth) <==> exists i :: 0 <= i < |o.items| && Finds(o.items[i], tokens[1..], depth)
  {
    var rest := tokens[1..];
    if Finds(o, tokens, depth) {
      var p :| Times(o, tokens, depth, p) > 0;
      assert Below(o, rest, depth, p) > 0;
      BelowFinds(o, p);
    }
    forall i | 0 <= i < |o.items| && Finds(o.items[i], rest, depth) ensures Finds(o, tokens, depth) {
      var p := FindsByChild(o, Index(i), rest, depth);
      assert Times(o, tokens, depth, p) > 0;
    }
  }

  // ----- One list per wildcard -------------------------------------------------------------------

  /** No index token among these gets the element at n. */
  ghost predicate Unindexed(tokens: seq<string>, n: nat) {
    forall t :: t in tokens && IsIndex(t) ==> IndexIn(t, n + 1) != Some(n)
  }

  /** A length beyond all index tokens. */
  function Beyond(tokens: seq<string>): (n: nat)
    ensures forall t :: t in tokens && IsIndex(t) ==>
      var i := Atoi(t[1..|t| - 1]); i.Some? ==> i.value < n
  {
    if tokens == [] then 0
    else
      var rest := Beyond(tokens[1..]);
      if !IsIndex(tokens[0]) then rest
      else
        var i := Atoi(tokens[0][1..|tokens[0]| - 1]);
        if i.Some? && i.value >= rest then i.value + 1 else rest
  }

  /** What spells out a path, with a list for every wildcard; what matters is its last element. */
  function Spelled(path: seq<string>, n: nat): Node {
    if path == [] then Leaf("")
    else if Wild(path[0]) then Arr(seq(n, _ => Leaf("")) + [Spelled(path[1..], n)])
    else Obj(map[path[0] := Spelled(path[1..], n)])
  }

  lemma {:induction false} SpelledFound(path: seq<string>, n: nat)
    ensures Finds(Spelled(path, n), path, false)
  {
    var o := Spelled(path, n);
    if path == [] {
      assert Times(o, path, false, Here) == 1;
    } else {
      SpelledFound(path[1..], n);
      if Wild(path[0]) {
        assert o.items[n] == Spelled(path[1..], n);
        WildArrFinds(o, path, false);
      } else {
        ObjFinds(o, path, false);
      }
    }
  }

  /** How many map levels a path needs at least. */
  function Need(tokens: seq<string>): nat {
    if tokens == [] then 0 else (if tokens[0] == "*" then 0 else 1) + Need(tokens[1..])
  }

  /** How many map levels spell out a path. */
  function Levels(path: seq<string>): nat {
    if path == [] then 0 else (if Wild(path[0]) then 0 else 1) + Levels(path[1..])
  }

  lemma {:induction false} LastHasLevel(path: seq<string>)
    requires path != [] && !Wild(path[|path| - 1])
    ensures Levels(path) > 0
  {
    if |path| > 1 { LastHasLevel(path[1..]); }
  }

  lemma {:induction false} NeedLevels(path: seq<string>)
    ensures Need(path) >= Levels(path) && ("?" in path ==> Need(path) > Levels(path))
  {
    if path != [] { NeedLevels(path[1..]); }
  }

  /** Tokens that cannot be used up on what spells out this path: there are more of them than levels, or
      as many and a star after them, for which nothing is left. */
  ghost predicate TooMany(path: seq<string>, tokens: seq<string>) {
    && tokens != []
    && (|| (Need(tokens) > Levels(path) && (path != [] ==> path[|path| - 1] == tokens[|tokens| - 1]))
        || (Need(tokens) >= Levels(path) && tokens[|tokens| - 1] == "*"))
  }

  lemma TooManyBelow(path: seq<string>, tokens: seq<string>)
    requires path != [] && TooMany(path, tokens)
    ensures TooMany(path[1..], tokens)
    ensures !Wild(path[0]) && tokens[0] != "*" ==> TooMany(path[1..], tokens[1..])
    ensures !Wild(path[0]) && tokens[0] == "*" ==> TooMany(path, tokens[1..])
    ensures Wild(path[0]) && IsIndex(tokens[0]) ==> tokens[1..] != []
  {
    if |tokens| == 1 && IsIndex(tokens[0]) {
      assert Need(tokens) == 1;
      if !Wild(path[|path| - 1]) { LastHasLevel(path); }
    }
  }

  lemma {:induction false} SpelledNotPresent(path: seq<string>, tokens: seq<string>, depth: bool, n: nat)
    requires TooMany(path, tokens) && Unindexed(tokens, n)
    ensures !Present(Spelled(path, n), tokens, depth)
    decreases |path| + |tokens|
  {
    if path != [] {
      var o, rest := Spelled(path, n), tokens[1..];
      assert forall t :: t in rest ==> t in tokens;
      TooManyBelow(path, tokens);
      SpelledNotPresent(path[1..], tokens, depth, n);
      if Wild(path[0]) {
        assert tokens[0] in tokens;
        assert forall i :: 0 <= i < n ==> o.items[i] == Leaf("");
      } else {
        SpelledNotPresent(path[1..], tokens, true, n);
        if tokens[0] == "*" {
          SpelledNotPresent(path, rest, true, n);
        } else {
          SpelledNotPresent(path[1..], rest, false, n);
        }
      }
    }
  }

  // ----- Stars before names only -----------------------------------------------------------------

  function Other(token: string): (key: string)
    ensures key != token
  {
    token + "x"
  }

  /** What spells out a path, with a list for every star, and one more level below the last of them. */
  function Deeper(path: seq<string>): Node {
    if path == [] then Leaf("")
    else if "*" !in path then Obj(map[Other(path[0]) := Spelled(path, 0)])
    else if path[0] == "*" then Arr([Deeper(path[1..])])
    else Obj(map[path[0] := Deeper(path[1..])])
  }

  /** Names with stars before them. */
  ghost predicate EndsInName(path: seq<string>) {
    path != [] && path[|path| - 1] != "*" && "?" !in path
  }

  lemma {:induction false} DeeperNotFound(path: seq<string>)
    requires EndsInName(path)
    ensures !Finds(Deeper(path), path, false)
  {
    var o := Deeper(path);
    assert path[0] in path;
    if "*" !in path {
      ObjFinds(o, path, false);
    } else {
      assert |path| > 1 && forall t :: t in path[1..] ==> t in path;
      DeeperNotFound(path[1..]);
      if path[0] == "*" { WildArrFinds(o, path, false); } else { ObjFinds(o, path, false); }
    }
  }

  lemma {:induction false} NamesPresent(path: seq<string>, depth: bool)
    requires forall t :: t in path ==> !Wild(t)
    ensures Present(Spelled(path, 0), path, depth)
  {
    if path != [] {
      assert path[0] in path && forall t :: t in path[1..] ==> t in path;
      NamesPresent(path[1..], false);
    }
  }

  function Stars(k: nat): seq<string> {
    seq(k, _ => "*")
  }

  /** Stars met on lists are taken along, and let the names after them be found a level further down. */
  lemma {:induction false} DeeperPresent(path: seq<string>, k: nat, depth: bool)
    requires EndsInName(path) && ("*" in path || k > 0 || depth)
    ensures Present(Deeper(path), Stars(k) + path, depth)
    decreases |path|, k
  {
    var o, tokens := Deeper(path), Stars(k) + path;
    assert path[0] in path;
    assert k > 0 ==> tokens[0] == "*" && tokens[1..] == Stars(k - 1) + path;
    assert k == 0 ==> tokens == path;
    if "*" !in path {
      if k > 0 {
        DeeperPresent(path, k - 1, true);
      } else {
        NamesPresent(path, true);
        assert Present(o.fields[Other(path[0])], tokens, true);
      }
    } else {
      assert |path| > 1 && forall t :: t in path[1..] ==> t in path;
      if path[0] == "*" {
        DeeperPresent(path[1..], k + 1, depth);
        assert tokens == Stars(k + 1) + path[1..];
        assert Present(o.items[0], tokens, depth);
      } else if k > 0 {
        DeeperPresent(path, k - 1, true);
      } else {
        assert "*" in path[1..];
        DeeperPresent(path[1..], 0, false);
        assert Stars(0) + path[1..] == path[1..];
      }
    }
  }

  // ----- Exactly when ----------------------------------------------------------------------------

  /** Every path with a wildcard has a tree on which the two disagree. */
  lemma WildcardDisagrees(tokens: seq<string>) returns (o: Node)
    requires exists t :: t in tokens && Wild(t)
    ensures Present(o, tokens, false) != Finds(o, tokens, false)
  {
    if "?" in tokens || tokens[|tokens| - 1] == "*" {
      var n := Beyond(tokens);
      o := Spelled(tokens, n);
      SpelledFound(tokens, n);
      NeedLevels(tokens);
      SpelledNotPresent(tokens, tokens, false, n);
    } else {
      o := Deeper(tokens);
      DeeperNotFound(tokens);
      DeeperPresent(tokens, 0, false);
      assert Stars(0) + tokens == tokens;
    }
  }

  /** AGREEMENT, EXACTLY WHEN.  On every tree checkForElem answers whether findElem would find something
      if and only if the path has no wildcard. */
  lemma AgreeIff(tokens: seq<string>)
    ensures (forall o :: Present(o, tokens, false) <==> Finds(o, tokens, false)) <==> forall t :: t in tokens ==> !Wild(t)
  {
    if forall t :: t in tokens ==> !Wild(t) {
      forall o ensures Present(o, tokens, false) <==> Finds(o, tokens, false) {
        PresentIffFinds(o, tokens, false);
      }
    } else {
      var o := WildcardDisagrees(tokens);
      assert Present(o, tokens, false) != Finds(o, tokens, false);
    }
  }
}
