/** The rotating deduper of utils/deduping.go: buckets of keys, one of which is emptied and made
    current per window, stand in for the set of all keys admitted in the last windows. */
module Deduping {
  import opened Options

  /** What NewLocalDeduper makes of its arguments. */
  datatype Sizing = Buckets(n: nat) | WindowTooLarge | DivideByZero

  /** Go's integer division truncates toward zero. */
  function Quot(a: int, b: int): int
    requires b != 0
  {
    if (a >= 0) == (b > 0) then Abs(a) / Abs(b) else -(Abs(a) / Abs(b))
  }

  lemma DivisionIs(window: int, ttl: int)
    ensures 0 < window <= ttl ==> var n := Quot(ttl, window); 1 <= n && n * window <= ttl < (n + 1) * window
  {
    if 0 < window <= ttl {
      var n := ttl / window;
      assert ttl == n * window + ttl % window;
    }
  }

  function Abs(a: int): nat {
    if a < 0 then -a else a
  }

  /** utils/deduping.go:25-32: as many windows as fit into the time to live; a window of zero makes the
      division panic. */
  function BucketCount(window: int, ttl: int): (r: Sizing)
    ensures r.Buckets? ==> r.n >= 1
    ensures 0 < window <= ttl ==> r.Buckets? && r.n * window <= ttl < (r.n + 1) * window
    ensures r.WindowTooLarge? <==> window > ttl
    ensures r.DivideByZero? <==> window == 0 && ttl >= 0
  {
    DivisionIs(window, ttl);
    if window > ttl then WindowTooLarge
    else if window == 0 then DivideByZero
    else Buckets(if Quot(ttl, window) < 1 then 1 else Quot(ttl, window))
  }

  /** The deduper as its callers may think of it: how often it rotated, and for every key ever
      admitted, during which rotation it was admitted last. */
  datatype Dedup = Dedup(n: nat, rot: nat, last: map<string, nat>)

  ghost predicate Known(d: Dedup, key: string) {
    key in d.last && d.rot < d.last[key] + d.n
  }

  ghost function Admit(d: Dedup, key: string): Dedup {
    if Known(d, key) then d else d.(last := d.last[key := d.rot])
  }

  ghost function Rotated(d: Dedup): Dedup {
    d.(rot := d.rot + 1)
  }

  class LocalDeduper {
    const nBuckets: nat
    var nCurrent: nat
    const windows: array<Option<set<string>>>
    ghost var rot: nat
    ghost var last: map<string, nat>

    /** The bucket that was current `age` rotations ago. */
    ghost function Slot(age: nat): int
      reads this
    {
      if nCurrent >= age then nCurrent - age else nCurrent - age + nBuckets
    }

    ghost function State(): Dedup
      reads this
    {
      Dedup(nBuckets, rot, last)
    }

    /** The bucket that was current `age` rotations ago holds exactly the keys admitted then; buckets
        that never were current are nil. */
    ghost predicate Valid()
      reads this, windows
    {
      && nBuckets >= 1 && windows.Length == nBuckets && nCurrent < nBuckets
      && (forall k :: k in last ==> last[k] <= rot)
      && (forall age: nat :: age < nBuckets ==>
            windows[Slot(age)] == if age <= rot then Some(AdmittedIn(rot - age)) else None)
    }

    ghost function AdmittedIn(r: nat): set<string>
      reads this
    {
      set k | k in last && last[k] == r
    }

    constructor (n: nat)
      requires n >= 1
      ensures Valid() && fresh(windows) && State() == Dedup(n, 0, map[])
    {
      nBuckets, nCurrent, rot, last := n, 0, 0, map[];
      windows := new Option<set<string>>[n](_ => None);
      new;
      windows[0] := Some({});
      assert AdmittedIn(0) == {};
    }

    /** One turn of the background goroutine. */
    method Rotate()
      requires Valid()
      modifies this, windows
      ensures Valid() && State() == Rotated(old(State()))
    {
      ghost var before := nCurrent;
      nCurrent := nCurrent + 1;
      if nCurrent >= nBuckets {
        nCurrent := 0;
      }
      windows[nCurrent] := Some({});
      rot := rot + 1;
      assert AdmittedIn(rot) == {};
      forall age: nat | 0 < age < nBuckets
        ensures windows[Slot(age)] == if age <= rot then Some(AdmittedIn(rot - age)) else None
      {
        assert Slot(age) != nCurrent;
        assert old(Slot(age - 1)) == Slot(age);
        assert old(windows[Slot(age - 1)]) == if age - 1 <= old(rot) then Some(old(AdmittedIn(rot - (age - 1)))) else None;
      }
    }

    /** CheckAndAdd answers whether the key was last admitted fewer than nBuckets rotations ago, and
        admits it otherwise. */
    method CheckAndAdd(key: string) returns (alreadyExists: bool)
      requires Valid()
      modifies this, windows
      ensures Valid() && State() == Admit(old(State()), key)
      ensures alreadyExists == Known(old(State()), key)
    {
      for i := 0 to nBuckets
        invariant Valid() && unchanged(this) && unchanged(windows)
        invariant forall j :: 0 <= j < i && windows[j].Some? ==> key !in windows[j].value
      {
        if windows[i].None? || windows[i].value == {} {
          continue;
        }
        if key in windows[i].value {
          FoundIn(key, i);
          return true;
        }
      }
      KnownIsFound(key);
      assert windows[Slot(0)] == Some(AdmittedIn(rot));
      windows[nCurrent] := Some(windows[nCurrent].value + {key});
      last := last[key := rot];
      assert AdmittedIn(rot) == old(AdmittedIn(rot)) + {key};
      forall age: nat | 0 < age < nBuckets
        ensures windows[Slot(age)] == if age <= rot then Some(AdmittedIn(rot - age)) else None
      {
        assert Slot(age) != nCurrent && windows[Slot(age)] == old(windows[Slot(age)]);
        assert age <= rot ==> AdmittedIn(rot - age) == old(AdmittedIn(rot - age)) by {
          assert !(key in old(last) && old(last)[key] == rot - age && age <= rot);
        }
      }
      return false;
    }

    /** A bucket with the key is the one of its last admission. */
    lemma FoundIn(key: string, i: nat)
      requires Valid() && i < nBuckets && windows[i].Some? && key in windows[i].value
      ensures Known(State(), key) && i == Slot(rot - last[key])
    {
      var age: nat := if i <= nCurrent then nCurrent - i else nCurrent - i + nBuckets;
      assert Slot(age) == i;
      assert windows[Slot(age)] == if age <= rot then Some(AdmittedIn(rot - age)) else None;
    }

    lemma KnownIsFound(key: string)
      requires Valid()
      ensures Known(State(), key) ==> exists i :: 0 <= i < nBuckets && windows[i].Some? && key in windows[i].value
    {
      if Known(State(), key) {
        assert windows[Slot(rot - last[key])] == Some(AdmittedIn(last[key]));
      }
    }

    /** Each key is in at most one bucket. */
    lemma OneBucketPerKey(key: string, i: nat, j: nat)
      requires Valid() && i < nBuckets && j < nBuckets
      requires windows[i].Some? && key in windows[i].value && windows[j].Some? && key in windows[j].value
      ensures i == j
    {
      FoundIn(key, i);
      FoundIn(key, j);
    }
  }

  // ----- Time --------------------------------------------------------------------------------

  /** What happens to a deduper: a rotation, or the offer of a key by a query that began at `start`. */
  datatype Happening = Rotation(t: int) | Offer(t: int, key: string, start: int)

  /** The deduper after these events. */
  ghost function Play(n: nat, evs: seq<Happening>): Dedup {
    if evs == [] then Dedup(n, 0, map[])
    else
      var d := Play(n, evs[..|evs| - 1]);
      match evs[|evs| - 1]
      case Rotation(_) => Rotated(d)
      case Offer(_, key, _) => Admit(d, key)
  }

  /** Events come in the order of their times, and a rotation is at least a window after the one
      before, since the goroutine sleeps at least that long. */
  ghost predicate Timely(window: int, evs: seq<Happening>) {
    && (forall i, j :: 0 <= i < j < |evs| ==> evs[i].t <= evs[j].t)
    && (forall i, j :: 0 <= i < j < |evs| && evs[i].Rotation? && evs[j].Rotation? ==> evs[i].t + window <= evs[j].t)
  }

  /** Event i is an offer that the deduper lets through. */
  ghost predicate Admitted(n: nat, evs: seq<Happening>, i: int)
    requires 0 <= i < |evs|
  {
    evs[i].Offer? && !Known(Play(n, evs[..i]), evs[i].key)
  }

  /** The last event that let the key through. */
  ghost function AdmittedBy(n: nat, evs: seq<Happening>, key: string): (i: nat)
    requires key in Play(n, evs).last
    ensures i < |evs| && evs[i].Offer? && evs[i].key == key && Admitted(n, evs, i)
    ensures forall j :: i < j < |evs| && evs[j].Offer? && evs[j].key == key ==> !Admitted(n, evs, j)
  {
    var m := |evs| - 1;
    if evs[m].Offer? && evs[m].key == key && Admitted(n, evs, m) then m
    else
      var i := AdmittedBy(n, evs[..m], key);
      assert forall j :: 0 <= j < m ==> evs[..m][..j] == evs[..j];
      assert Admitted(n, evs[..m], i) == Admitted(n, evs, i);
      assert forall j :: 0 <= j < m ==> Admitted(n, evs[..m], j) == Admitted(n, evs, j);
      i
  }

  ghost function LastRotation(evs: seq<Happening>): (r: int)
    ensures -1 <= r < |evs| && (r >= 0 ==> evs[r].Rotation?)
    ensures forall j :: r < j < |evs| ==> evs[j].Offer?
  {
    if evs == [] then -1 else if evs[|evs| - 1].Rotation? then |evs| - 1 else LastRotation(evs[..|evs| - 1])
  }

  lemma TimelyPrefix(window: int, evs: seq<Happening>, m: nat)
    requires Timely(window, evs) && m <= |evs|
    ensures Timely(window, evs[..m])
  {
  }

  /** If a key was admitted m > 0 rotations ago, the latest rotation came at least m - 1 windows after. */
  lemma {:induction false} RotationsTakeTime(n: nat, window: int, evs: seq<Happening>, key: string)
    requires Timely(window, evs) && window > 0 && key in Play(n, evs).last
    ensures var d := Play(n, evs); var m := d.rot - d.last[key]; var r := LastRotation(evs);
      && m >= 0
      && (m > 0 ==> r >= 0 && evs[r].t >= evs[AdmittedBy(n, evs, key)].t + (m - 1) * window)
    decreases |evs|
  {
    var k := |evs| - 1;
    var front := evs[..k];
    TimelyPrefix(window, evs, k);
    var i := AdmittedBy(n, evs, key);
    if i < k {
      assert key in Play(n, front).last;
      RotationsTakeTime(n, window, front, key);
      var m := Play(n, front).rot - Play(n, front).last[key];
      SameAdmission(n, evs, key);
      assert (m - 1) * window + window == m * window;
    }
  }

  /** A later event that does not admit the key leaves its admission what it was. */
  lemma SameAdmission(n: nat, evs: seq<Happening>, key: string)
    requires evs != [] && key in Play(n, evs[..|evs| - 1]).last && key in Play(n, evs).last
    requires AdmittedBy(n, evs, key) < |evs| - 1
    ensures AdmittedBy(n, evs[..|evs| - 1], key) == AdmittedBy(n, evs, key)
    ensures Play(n, evs).last[key] == Play(n, evs[..|evs| - 1]).last[key]
  {
  }

  /** RETENTION.  As long as less than n - 1 windows have passed since its admission, a key is known. */
  lemma Retained(n: nat, window: int, evs: seq<Happening>, key: string, now: int)
    requires Timely(window, evs) && window > 0 && n >= 1 && key in Play(n, evs).last
    requires forall i :: 0 <= i < |evs| ==> evs[i].t <= now
    requires now - evs[AdmittedBy(n, evs, key)].t < (n - 1) * window
    ensures Known(Play(n, evs), key)
  {
    RotationsTakeTime(n, window, evs, key);
    PlaySize(n, evs);
    var d := Play(n, evs);
    var m := d.rot - d.last[key];
    if m > 0 {
      TooFew(m, n, window, evs[AdmittedBy(n, evs, key)].t, evs[LastRotation(evs)].t, now);
    }
  }

  /** m rotations, at least a window apart, do not fit into less than n - 1 windows unless m < n. */
  lemma TooFew(m: int, n: int, w: int, first: int, latest: int, now: int)
    requires w > 0 && latest >= first + (m - 1) * w && latest <= now && now - first < (n - 1) * w
    ensures m < n
  {
    if m >= n { Scale(m - 1, n - 1, w); }
  }

  lemma {:induction false} PlaySize(n: nat, evs: seq<Happening>)
    ensures Play(n, evs).n == n
    decreases |evs|
  {
    if evs != [] { PlaySize(n, evs[..|evs| - 1]); }
  }

  lemma Scale(a: int, b: int, w: int)
    requires a >= b && w > 0
    ensures a * w >= b * w
  {
  }
}
