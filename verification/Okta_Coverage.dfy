/** What the Okta adapter's polls ask for covers the time they span (okta/client.go:156-165). */
module OktaCoverage {
  import opened Times
  import opened SlidingDedupe
  import opened Okta

  const HALF_HOUR := 30 * 60

  /** One poll after another, at these times. */
  ghost predicate Polls(windows: seq<Window>, start: int, times: seq<int>) {
    && |windows| == |times|
    && (forall i, j :: 0 <= i < j < |times| ==> times[i] <= times[j])
    && (forall i :: 0 <= i < |times| ==> start <= times[i] && AskedAt(windows[i], start, times[i]))
  }

  lemma WindowIs(window: Window, start: int, t: int)
    requires AskedAt(window, start, t)
    ensures window.until == Unix(t)
    ensures window.start == if Unix(t) - HALF_HOUR < Unix(start) then Unix(start) else Unix(t) - HALF_HOUR
  {
    assert Unix(t - 30 * MINUTE) == Unix(t) - HALF_HOUR;
  }

  /** A poll that was answered asked for x. */
  ghost predicate InSome(windows: seq<Window>, answered: seq<bool>, x: int)
    requires |windows| == |answered|
  {
    exists i :: 0 <= i < |windows| && answered[i] && Within(windows[i], x)
  }

  ghost predicate Within(window: Window, x: int) {
    window.start * SEC <= x <= window.until * SEC
  }

  /** In whole seconds, poll i comes at most half an hour after the start or an earlier poll that was
      answered. */
  ghost predicate Soon(start: int, times: seq<int>, answered: seq<bool>, i: nat)
    requires i < |times| == |answered|
  {
    || Unix(times[i]) - HALF_HOUR <= Unix(start)
    || exists j :: 0 <= j < i && SoonAfter(times, answered, j, i)
  }

  ghost predicate SoonAfter(times: seq<int>, answered: seq<bool>, j: nat, i: nat)
    requires j < i < |times| == |answered|
  {
    answered[j] && Unix(times[i]) - HALF_HOUR <= Unix(times[j])
  }

  ghost predicate AllSoon(start: int, times: seq<int>, answered: seq<bool>)
    requires |times| == |answered|
  {
    forall i :: 0 <= i < |times| && answered[i] ==> Soon(start, times, answered, i)
  }

  /** Everything from the start to the end of what an answered poll asks for lies in such a window. */
  ghost predicate AllCovered(windows: seq<Window>, start: int, answered: seq<bool>)
    requires |windows| == |answered|
  {
    forall i, x :: 0 <= i < |windows| && answered[i] && Unix(start) * SEC <= x <= windows[i].until * SEC ==> InSome(windows, answered, x)
  }

  lemma {:induction false} CoveredUpTo(windows: seq<Window>, start: int, times: seq<int>, answered: seq<bool>, i: nat, x: int)
    requires Polls(windows, start, times) && |times| == |answered| && AllSoon(start, times, answered)
    requires i < |times| && answered[i] && Unix(start) * SEC <= x <= windows[i].until * SEC
    ensures InSome(windows, answered, x)
  {
    WindowIs(windows[i], start, times[i]);
    if x < windows[i].start * SEC {
      assert Soon(start, times, answered, i);
      var j :| 0 <= j < i && SoonAfter(times, answered, j, i);
      WindowIs(windows[j], start, times[j]);
      CoveredUpTo(windows, start, times, answered, j, x);
    } else {
      assert Within(windows[i], x);
    }
  }

  /** The moment before the window of a poll that comes too late is in no window. */
  lemma Uncovered(windows: seq<Window>, start: int, times: seq<int>, answered: seq<bool>, i: nat)
    requires Polls(windows, start, times) && |times| == |answered|
    requires i < |times| && answered[i] && !Soon(start, times, answered, i)
    ensures var x := (Unix(times[i]) - HALF_HOUR) * SEC - 1;
      Unix(start) * SEC <= x <= windows[i].until * SEC && !InSome(windows, answered, x)
  {
    var x := (Unix(times[i]) - HALF_HOUR) * SEC - 1;
    WindowIs(windows[i], start, times[i]);
    forall j | 0 <= j < |windows| && answered[j] ensures !Within(windows[j], x) {
      WindowIs(windows[j], start, times[j]);
      if j < i {
        assert !SoonAfter(times, answered, j, i);
      } else if j > i {
        assert Unix(times[i]) <= Unix(times[j]);
      }
    }
  }

  /** NO GAP, EXACTLY WHEN.  The windows of the polls that were answered leave no gap from the start to the
      end of the last of them if and only if each of these polls comes, in whole seconds, at most half an
      hour after the start or an earlier one. */
  lemma CoveredIff(windows: seq<Window>, start: int, times: seq<int>, answered: seq<bool>)
    requires Polls(windows, start, times) && |times| == |answered|
    ensures AllCovered(windows, start, answered) <==> AllSoon(start, times, answered)
  {
    if AllSoon(start, times, answered) {
      forall i, x | 0 <= i < |windows| && answered[i] && Unix(start) * SEC <= x <= windows[i].until * SEC
        ensures InSome(windows, answered, x)
      {
        CoveredUpTo(windows, start, times, answered, i, x);
      }
    }
    if i :| 0 <= i < |times| && answered[i] && !Soon(start, times, answered, i) {
      Uncovered(windows, start, times, answered, i);
    }
  }

  /** Half an hour apart is enough. */
  lemma HalfHourApart(start: int, times: seq<int>, answered: seq<bool>)
    requires |times| == |answered|
    requires forall i :: 0 <= i < |times| && answered[i] ==>
      times[i] - start <= 30 * MINUTE || exists j :: 0 <= j < i && answered[j] && times[i] - times[j] <= 30 * MINUTE
    ensures AllSoon(start, times, answered)
  {
    forall i | 0 <= i < |times| && answered[i] ensures Soon(start, times, answered, i) {
      if times[i] - start > 30 * MINUTE {
        var j :| 0 <= j < i && answered[j] && times[i] - times[j] <= 30 * MINUTE;
        assert SoonAfter(times, answered, j, i);
      }
    }
  }

  // ----- Nothing is missed -----------------------------------------------------------------------

  /** If it answers, the server returns every event of its log that is timed within what it is asked for. */
  ghost predicate Complete(server: (int, int) -> Reply, log: iset<Item>) {
    forall item, window: Window :: item in log && Within(window, item.time) && Answers(server, window) ==>
      item in server(window.start, window.until).items
  }

  ghost predicate Answers(server: (int, int) -> Reply, window: Window) {
    server(window.start, window.until).Items?
  }

  lemma {:induction false} AmongReplies(servers: seq<(int, int) -> Reply>, windows: seq<Window>, n: nat, i: nat, item: Item)
    requires i < n <= |servers| && n <= |windows| && item in ItemsOf(servers[i](windows[i].start, windows[i].until))
    ensures item in Replies(servers, windows, n)
  {
    if i < n - 1 { AmongReplies(servers, windows, n - 1, i, item); }
  }

  /** NOTHING MISSED, NOTHING TWICE.  As long as answered polls come soon enough, every event with an id that
      the servers hold from the adapter's start to the last answered poll comes out exactly once, whatever
      polls fail in between. */
  lemma NothingMissed(servers: seq<(int, int) -> Reply>, windows: seq<Window>, start: int, times: seq<int>, answered: seq<bool>,
                      due: seq<Item>, log: iset<Item>, i: nat, item: Item)
    requires Polls(windows, start, times) && |times| == |answered| == |servers| && AllSoon(start, times, answered)
    requires forall k :: 0 <= k < |servers| ==> Complete(servers[k], log) && answered[k] == Answers(servers[k], windows[k])
    requires Due(due, Replies(servers, windows, |windows|))
    requires i < |servers| && answered[i] && item in log && item.id != ""
    requires Unix(start) * SEC <= item.time <= windows[i].until * SEC
    ensures CountId(due, item.id) == 1
  {
    CoveredUpTo(windows, start, times, answered, i, item.time);
    var k :| 0 <= k < |windows| && answered[k] && Within(windows[k], item.time);
    assert Complete(servers[k], log) && Answers(servers[k], windows[k]);
    var all := Replies(servers, windows, |windows|);
    AmongReplies(servers, windows, |windows|, k, item);
    ComesOutOnce(due, all, item);
  }
}
