/** Splitting and joining strings, and decimal numerals. */
module Strings {

  function IndexOf(s: string, sep: char): (i: nat)
    requires sep in s
    ensures i < |s| && s[i] == sep && sep !in s[..i]
  {
    if s[0] == sep then 0
    else
      var i := IndexOf(s[1..], sep);
      assert s[..1 + i] == [s[0]] + s[1..][..i];
      1 + i
  }

  /** Cutting at the first separator undoes putting one after a string without it. */
  lemma CutAt(a: string, sep: char, rest: string)
    requires sep !in a
    ensures var s := a + [sep] + rest; sep in s && IndexOf(s, sep) == |a| && s[..|a|] == a && s[|a| + 1..] == rest
  {
    var s := a + [sep] + rest;
    assert s[|a|] == sep;
    assert forall k :: 0 <= k < |a| ==> s[k] == a[k] != sep;
  }

  /** strings.Split: always at least one part. */
  function Split(s: string, sep: char): (parts: seq<string>)
    ensures |parts| >= 1
  {
    if s == "" then [""] else Extend(Split(s[..|s| - 1], sep), s[|s| - 1], sep)
  }

  /** One more character starts a new part or goes to the last one. */
  function Extend(parts: seq<string>, c: char, sep: char): (r: seq<string>)
    requires |parts| >= 1
    ensures |r| >= 1
  {
    if c == sep then parts + [""] else parts[..|parts| - 1] + [parts[|parts| - 1] + [c]]
  }

  /** strings.Join. */
  function Join(parts: seq<string>, sep: char): string {
    if parts == [] then "" else if |parts| == 1 then parts[0] else parts[0] + [sep] + Join(parts[1..], sep)
  }

  lemma {:induction false} SplitWhole(s: string, sep: char)
    requires sep !in s
    ensures Split(s, sep) == [s]
  {
    if s != "" {
      SplitWhole(s[..|s| - 1], sep);
      assert s == s[..|s| - 1] + [s[|s| - 1]];
    }
  }

  lemma ExtendAppend(xs: seq<string>, ys: seq<string>, c: char, sep: char)
    requires |ys| >= 1
    ensures Extend(xs + ys, c, sep) == xs + Extend(ys, c, sep)
  {
  }

  /** A separator between two strings only cuts there. */
  lemma {:induction false} SplitAppend(a: string, b: string, sep: char)
    ensures Split(a + [sep] + b, sep) == Split(a, sep) + Split(b, sep)
    decreases |b|
  {
    if b == "" {
      DropLast(a, sep);
      assert a + [sep] + b == a + [sep];
    } else {
      var front, last := b[..|b| - 1], b[|b| - 1];
      SplitAppend(a, front, sep);
      ExtendAppend(Split(a, sep), Split(front, sep), last, sep);
      SplitLonger(a + [sep], b, sep);
      assert a + [sep] + front == (a + [sep]) + front;
    }
  }

  lemma DropLast(a: string, c: char)
    ensures (a + [c])[..|a|] == a
  {
  }

  lemma SplitLonger(a: string, b: string, sep: char)
    requires b != ""
    ensures Split(a + b, sep) == Extend(Split(a + b[..|b| - 1], sep), b[|b| - 1], sep)
  {
    assert (a + b)[..|a + b| - 1] == a + b[..|b| - 1];
  }

  /** Splitting undoes joining, when no part holds the separator. */
  lemma {:induction false} SplitJoin(parts: seq<string>, sep: char)
    requires parts != [] && forall i :: 0 <= i < |parts| ==> sep !in parts[i]
    ensures Split(Join(parts, sep), sep) == parts
  {
    SplitWhole(parts[0], sep);
    if |parts| > 1 {
      SplitAppend(parts[0], Join(parts[1..], sep), sep);
      SplitJoin(parts[1..], sep);
    }
  }

  lemma {:induction false} JoinExtend(parts: seq<string>, c: char, sep: char)
    requires |parts| >= 1
    ensures Join(Extend(parts, c, sep), sep) == Join(parts, sep) + [c]
  {
    var more := Extend(parts, c, sep);
    if |parts| == 1 {
      assert c == sep ==> more == [parts[0], ""] && more[1..] == [""];
    } else {
      JoinExtend(parts[1..], c, sep);
      assert more[1..] == Extend(parts[1..], c, sep) && more[0] == parts[0];
    }
  }

  /** Joining always undoes splitting. */
  lemma {:induction false} JoinSplit(s: string, sep: char)
    ensures Join(Split(s, sep), sep) == s
  {
    if s != "" {
      JoinSplit(s[..|s| - 1], sep);
      JoinExtend(Split(s[..|s| - 1], sep), s[|s| - 1], sep);
    }
  }

  predicate Digits(s: string) {
    s != "" && forall i :: 0 <= i < |s| ==> '0' <= s[i] <= '9'
  }

  function DigitsValue(s: string): (v: int)
    ensures Digits(s) ==> v >= 0
  {
    if s == "" then 0 else 10 * DigitsValue(s[..|s| - 1]) + (s[|s| - 1] as int - '0' as int)
  }

  /** The decimal numeral of a number. */
  function Decimal(n: nat): (s: string)
    ensures Digits(s) && DigitsValue(s) == n
  {
    var digit := ('0' as int + n % 10) as char;
    if n < 10 then [digit] else Decimal(n / 10) + [digit]
  }
}
