/** The rate limiter against its window, and position limits over runs. */
module RiskTheorems {
  import opened Types
  import opened RiskSpec
  import opened MapSum

  // ---------- The sliding window ----------

  /** The accepted time stamps still inside the window at `now`. */
  ghost function Recent(accepted: seq<Timestamp>, now: Timestamp, window: nat): seq<Timestamp> {
    if |accepted| == 0 then []
    else if now - accepted[0] <= window then [accepted[0]] + Recent(accepted[1..], now, window)
    else Recent(accepted[1..], now, window)
  }

  ghost predicate Ascending(times: seq<Timestamp>) {
    forall i, j | 0 <= i < j < |times| :: times[i] <= times[j]
  }

  /** A limiter: its deque, and everything it ever accepted. */
  datatype Limiter = Limiter(deque: seq<Timestamp>, accepted: seq<Timestamp>)

  ghost function Check(l: Limiter, limits: Limits, now: Timestamp): Limiter {
    var (times, pass) := RateCheck(l.deque, limits, now);
    Limiter(times, if pass then l.accepted + [now] else l.accepted)
  }

  ghost function CheckAll(l: Limiter, limits: Limits, times: seq<Timestamp>): Limiter
    decreases |times|
  {
    if |times| == 0 then l else CheckAll(Check(l, limits, times[0]), limits, times[1..])
  }

  /** The deque is the end of the accepted list, and everything before it has left the window at `now`. */
  ghost predicate Tracks(l: Limiter, now: Timestamp, window: nat) {
    && Ascending(l.accepted) && (forall i | 0 <= i < |l.accepted| :: l.accepted[i] <= now)
    && |l.deque| <= |l.accepted| && l.deque == l.accepted[|l.accepted| - |l.deque|..]
    && forall i | 0 <= i < |l.accepted| - |l.deque| :: now - l.accepted[i] > window
  }

  lemma {:induction false} RecentIsSuffix(accepted: seq<Timestamp>, now: Timestamp, window: nat, k: nat)
    requires k <= |accepted|
    requires forall i | 0 <= i < k :: now - accepted[i] > window
    requires forall i | k <= i < |accepted| :: now - accepted[i] <= window
    ensures Recent(accepted, now, window) == accepted[k..]
  {
    if |accepted| > 0 {
      RecentIsSuffix(accepted[1..], now, window, if k == 0 then 0 else k - 1);
    }
  }

  lemma {:induction false} PurgeDrops(times: seq<Timestamp>, now: Timestamp, window: nat)
    requires Ascending(times) && now < TWO_64
    requires forall i | 0 <= i < |times| :: times[i] <= now
    ensures var left := Purge(times, now, window);
            && |left| <= |times| && left == times[|times| - |left|..]
            && (forall i | 0 <= i < |times| - |left| :: now - times[i] > window)
            && (forall i | 0 <= i < |left| :: now - left[i] <= window)
  {
    if |times| > 0 && Elapsed(now, times[0]) > window {
      PurgeDrops(times[1..], now, window);
    }
  }

  lemma PurgeTracks(l: Limiter, before: Timestamp, window: nat, now: Timestamp)
    requires Tracks(l, before, window) && before <= now < TWO_64
    ensures var left := Purge(l.deque, now, window);
            && Tracks(Limiter(left, l.accepted), now, window)
            && forall i | 0 <= i < |left| :: now - left[i] <= window
  {
    hide Purge;
    var d := |l.accepted| - |l.deque|;
    assert forall i | 0 <= i < |l.deque| :: l.deque[i] == l.accepted[d + i];
    PurgeDrops(l.deque, now, window);
    var left := Purge(l.deque, now, window);
    var k := |l.accepted| - |left|;
    forall i | 0 <= i < k
      ensures now - l.accepted[i] > window
    {
      if i >= d {
        assert l.accepted[i] == l.deque[i - d];
      }
    }
  }

  lemma TrackedIsRecent(l: Limiter, window: nat, now: Timestamp)
    requires Tracks(l, now, window) && forall i | 0 <= i < |l.deque| :: now - l.deque[i] <= window
    ensures l.deque == Recent(l.accepted, now, window)
  {
    hide Recent;
    var k := |l.accepted| - |l.deque|;
    assert forall i | k <= i < |l.accepted| :: l.accepted[i] == l.deque[i - k];
    RecentIsSuffix(l.accepted, now, window, k);
  }

  lemma TracksAccept(l: Limiter, window: nat, now: Timestamp)
    requires Tracks(l, now, window)
    ensures Tracks(Limiter(l.deque + [now], l.accepted + [now]), now, window)
  {
  }

  /** With time not running backwards, purging leaves exactly the accepted time stamps inside the window. */
  lemma WindowIsExact(l: Limiter, before: Timestamp, limits: Limits, now: Timestamp)
    requires Tracks(l, before, WindowOf(limits)) && before <= now < TWO_64
    ensures Purge(l.deque, now, WindowOf(limits)) == Recent(l.accepted, now, WindowOf(limits))
    ensures RateCheck(l.deque, limits, now).1 <==> |Recent(l.accepted, now, WindowOf(limits))| < limits.maxOrderRate
    ensures Tracks(Check(l, limits, now), now, WindowOf(limits))
  {
    hide Purge, Recent, Tracks, WindowOf;
    var purged := Limiter(Purge(l.deque, now, WindowOf(limits)), l.accepted);
    PurgeTracks(l, before, WindowOf(limits), now);
    TrackedIsRecent(purged, WindowOf(limits), now);
    TracksAccept(purged, WindowOf(limits), now);
  }

  /** Whenever more than the limit's worth of accepted orders could sit in one window, some pair
      `max_order_rate` apart would be within it; there is no such pair. */
  ghost predicate Spaced(accepted: seq<Timestamp>, limits: Limits) {
    forall i, j | 0 <= i < |accepted| && j == i + limits.maxOrderRate && j < |accepted| ::
      accepted[j] - accepted[i] > WindowOf(limits)
  }

  /** A limiter stays tracked while time passes without a check. */
  lemma TracksLater(l: Limiter, before: Timestamp, window: nat, now: Timestamp)
    requires Tracks(l, before, window) && before <= now
    ensures Tracks(l, now, window)
  {
  }

  lemma CheckKeepsSpaced(l: Limiter, before: Timestamp, limits: Limits, now: Timestamp)
    requires Tracks(l, before, WindowOf(limits)) && before <= now < TWO_64
    requires Spaced(l.accepted, limits)
    ensures Spaced(Check(l, limits, now).accepted, limits)
  {
    hide Recent;
    var w, max := WindowOf(limits), limits.maxOrderRate as int;
    WindowIsExact(l, before, limits, now);
    var l' := Check(l, limits, now);
    if RateCheck(l.deque, limits, now).1 && max > 0 {
      var n := |l.accepted|;
      if n >= max {
        // The order `max` back is not in the purged deque, so it has left the window.
        var gone := n - max;
        assert l'.accepted[..n] == l.accepted;
        assert gone < |l'.accepted| - |l'.deque|;
        assert now - l'.accepted[gone] > w;
      }
    }
  }

  ghost predicate NonDecreasing(from: Timestamp, times: seq<Timestamp>) {
    && (|times| > 0 ==> from <= times[0]) && Ascending(times)
    && forall i | 0 <= i < |times| :: times[i] < TWO_64
  }

  lemma RestIsNonDecreasing(from: Timestamp, times: seq<Timestamp>)
    requires NonDecreasing(from, times) && |times| > 0
    ensures from <= times[0] < TWO_64 && NonDecreasing(times[0], times[1..])
  {
  }

  /** Over any run of checks with non-decreasing submit times and fixed limits, the limiter keeps its
      window exact and any max_order_rate + 1 consecutive accepted orders span more than the window. */
  lemma {:induction false} LimiterRun(l: Limiter, before: Timestamp, limits: Limits, times: seq<Timestamp>)
    requires Tracks(l, before, WindowOf(limits)) && Spaced(l.accepted, limits)
    requires NonDecreasing(before, times)
    ensures var end := if |times| == 0 then before else times[|times| - 1];
            && Tracks(CheckAll(l, limits, times), end, WindowOf(limits))
            && Spaced(CheckAll(l, limits, times).accepted, limits)
    decreases |times|
  {
    hide Tracks, Spaced, WindowOf, Check, Ascending;
    if |times| > 0 {
      RestIsNonDecreasing(before, times);
      WindowIsExact(l, before, limits, times[0]);
      CheckKeepsSpaced(l, before, limits, times[0]);
      LimiterRun(Check(l, limits, times[0]), times[0], limits, times[1..]);
    }
  }

  lemma {:induction false} PurgeShrinks(times: seq<Timestamp>, now: Timestamp, window: nat)
    ensures |Purge(times, now, window)| <= |times|
  {
    if |times| > 0 {
      PurgeShrinks(times[1..], now, window);
    }
  }

  /** A time stamp at the front survives a check exactly when it is not expired in 64-bit arithmetic:
      it lies in the window before `now`, or so far after `now` that the difference wraps round. */
  lemma FrontSurvivesIff(front: Timestamp, rest: seq<Timestamp>, now: Timestamp, window: nat)
    requires front < TWO_64 && now < TWO_64 && window < TWO_64
    ensures Purge([front] + rest, now, window) == [front] + rest
            <==> front <= now <= front + window || (front > now && front - now >= TWO_64 - window)
  {
    PurgeShrinks(rest, now, window);
    assert ([front] + rest)[1..] == rest;
    if front > now {
      assert Elapsed(now, front) == now - front + TWO_64;
    } else {
      assert Elapsed(now, front) == now - front;
    }
  }

  // ---------- Submit times in any order ----------

  /** A cut of a deque at `now`: everything before it has left the window, everything from it on has not,
      and the stamp it stops at is one that 64-bit subtraction does not take for an expired one. */
  ghost predicate CutAt(times: seq<Timestamp>, k: nat, now: Timestamp, window: nat) {
    && k <= |times|
    && (forall i | 0 <= i < k :: now - times[i] > window)
    && (forall i | k <= i < |times| :: now - times[i] <= window)
    && (k < |times| ==> times[k] <= now || times[k] - now >= TWO_64 - window)
  }

  ghost predicate Cuts(times: seq<Timestamp>, now: Timestamp, window: nat) {
    exists k: nat :: CutAt(times, k, now, window)
  }

  ghost predicate Words(times: seq<Timestamp>) {
    forall i | 0 <= i < |times| :: times[i] < TWO_64
  }

  lemma {:induction false} RecentConcat(a: seq<Timestamp>, b: seq<Timestamp>, now: Timestamp, window: nat)
    ensures Recent(a + b, now, window) == Recent(a, now, window) + Recent(b, now, window)
  {
    if |a| == 0 {
      assert a + b == b;
    } else {
      assert (a + b)[1..] == a[1..] + b;
      RecentConcat(a[1..], b, now, window);
    }
  }

  lemma {:induction false} RecentTwice(times: seq<Timestamp>, now: Timestamp, window: nat)
    ensures Recent(Recent(times, now, window), now, window) == Recent(times, now, window)
  {
    if |times| > 0 {
      RecentTwice(times[1..], now, window);
      var rest := Recent(times[1..], now, window);
      assert ([times[0]] + rest)[1..] == rest;
    }
  }

  /** Recent keeps everything exactly when everything is in the window. */
  lemma {:induction false} RecentIsAllIff(times: seq<Timestamp>, now: Timestamp, window: nat)
    ensures |Recent(times, now, window)| <= |times|
    ensures Recent(times, now, window) == times <==> forall i | 0 <= i < |times| :: now - times[i] <= window
    ensures Recent(times, now, window) == [] <==> forall i | 0 <= i < |times| :: now - times[i] > window
  {
    if |times| > 0 {
      RecentIsAllIff(times[1..], now, window);
      assert times == [times[0]] + times[1..];
    }
  }

  /** Purging never adds to what is in the window. */
  lemma {:induction false} PurgeKeepsFewer(times: seq<Timestamp>, now: Timestamp, window: nat)
    ensures |Recent(Purge(times, now, window), now, window)| <= |Recent(times, now, window)|
  {
    if |times| > 0 {
      PurgeKeepsFewer(times[1..], now, window);
    }
  }

  lemma CutShifts(t: Timestamp, rest: seq<Timestamp>, k: nat, now: Timestamp, window: nat)
    ensures CutAt([t] + rest, k + 1, now, window) <==> now - t > window && CutAt(rest, k, now, window)
  {
    var times := [t] + rest;
    assert times[0] == t && forall i | 0 <= i < |rest| :: times[i + 1] == rest[i];
    if CutAt(times, k + 1, now, window) {
      forall i | 0 <= i < |rest| ensures if i < k then now - rest[i] > window else now - rest[i] <= window {
        assert rest[i] == times[i + 1];
      }
    }
  }

  lemma CutAtStart(times: seq<Timestamp>, now: Timestamp, window: nat)
    ensures |times| > 0 && CutAt(times, 0, now, window) ==> now - times[0] <= window
  {
  }

  lemma CutNext(t: Timestamp, rest: seq<Timestamp>, now: Timestamp, window: nat)
    ensures now - t > window ==> (Cuts([t] + rest, now, window) <==> Cuts(rest, now, window))
    ensures now - t <= window ==> (Cuts([t] + rest, now, window) <==> CutAt([t] + rest, 0, now, window))
  {
    hide CutAt;
    CutAtStart([t] + rest, now, window);
    if Cuts([t] + rest, now, window) {
      var k: nat :| CutAt([t] + rest, k, now, window);
      if k > 0 {
        CutShifts(t, rest, k - 1, now, window);
      }
    }
    if Cuts(rest, now, window) {
      var k: nat :| CutAt(rest, k, now, window);
      CutShifts(t, rest, k, now, window);
    }
  }

  lemma NothingCuts(now: Timestamp, window: nat)
    ensures Cuts([], now, window)
  {
    assert CutAt([], 0, now, window);
  }

  lemma FrontLost(t: Timestamp, rest: seq<Timestamp>, now: Timestamp, window: nat)
    requires t < TWO_64 && now < TWO_64 && window < TWO_64
    requires now - t <= window && Elapsed(now, t) > window
    ensures Purge([t] + rest, now, window) != Recent([t] + rest, now, window)
    ensures !CutAt([t] + rest, 0, now, window)
  {
    var times, all := [t] + rest, Recent([t] + rest, now, window);
    assert times[1..] == rest && times[0] == t;
    RecentTwice(times, now, window);
    PurgeKeepsFewer(rest, now, window);
    assert |all| == 1 + |Recent(rest, now, window)|;
  }

  lemma FrontKept(t: Timestamp, rest: seq<Timestamp>, now: Timestamp, window: nat)
    requires t < TWO_64 && now < TWO_64 && window < TWO_64
    requires now - t <= window && Elapsed(now, t) <= window
    ensures Purge([t] + rest, now, window) == Recent([t] + rest, now, window) <==> CutAt([t] + rest, 0, now, window)
  {
    RecentIsAllIff([t] + rest, now, window);
    FrontSurvivesIff(t, rest, now, window);
  }

  /** Purging leaves exactly what is in the window if and only if the deque has a cut, whatever the order
      of its stamps. */
  lemma {:induction false} PurgeExactIff(times: seq<Timestamp>, now: Timestamp, window: nat)
    requires Words(times) && now < TWO_64 && window < TWO_64
    ensures Purge(times, now, window) == Recent(times, now, window) <==> Cuts(times, now, window)
  {
    hide CutAt;
    if |times| == 0 {
      NothingCuts(now, window);
    } else {
      var t, rest := times[0], times[1..];
      assert times == [t] + rest;
      CutNext(t, rest, now, window);
      if now - t > window {
        PurgeExactIff(rest, now, window);
      } else if Elapsed(now, t) > window {
        FrontLost(t, rest, now, window);
      } else {
        FrontKept(t, rest, now, window);
      }
    }
  }

  /** The deque is the end of the accepted list. */
  ghost predicate Suffix(l: Limiter) {
    |l.deque| <= |l.accepted| && l.deque == l.accepted[|l.accepted| - |l.deque|..]
  }

  ghost function Dropped(l: Limiter): seq<Timestamp>
    requires Suffix(l)
  {
    l.accepted[..|l.accepted| - |l.deque|]
  }

  lemma {:induction false} PurgeIsSuffix(times: seq<Timestamp>, now: Timestamp, window: nat)
    ensures var left := Purge(times, now, window); |left| <= |times| && left == times[|times| - |left|..]
  {
    if |times| > 0 {
      PurgeIsSuffix(times[1..], now, window);
    }
  }

  /** Whatever the submit times, the deque stays the end of what was accepted. */
  lemma {:induction false} RunKeepsSuffix(l: Limiter, limits: Limits, times: seq<Timestamp>)
    requires Suffix(l) && Words(l.accepted) && Words(times)
    ensures Suffix(CheckAll(l, limits, times)) && Words(CheckAll(l, limits, times).accepted)
    decreases |times|
  {
    hide Purge;
    if |times| > 0 {
      PurgeIsSuffix(l.deque, times[0], WindowOf(limits));
      RunKeepsSuffix(Check(l, limits, times[0]), limits, times[1..]);
    }
  }

  /** The window is exact for a check if and only if all the deque has dropped so far is expired now and
      the deque has a cut. No order of the submit times is assumed, so this covers both ways in which time
      running backwards goes wrong: stamps forgotten too early and stamps kept too long. */
  lemma WindowExactIff(l: Limiter, now: Timestamp, window: nat)
    requires Suffix(l) && Words(l.accepted) && now < TWO_64 && window < TWO_64
    ensures Purge(l.deque, now, window) == Recent(l.accepted, now, window) <==>
            (forall i | 0 <= i < |Dropped(l)| :: now - Dropped(l)[i] > window) && Cuts(l.deque, now, window)
  {
    hide Purge, Recent, Cuts;
    var all := Recent(l.accepted, now, window);
    assert l.accepted == Dropped(l) + l.deque;
    RecentConcat(Dropped(l), l.deque, now, window);
    RecentIsAllIff(Dropped(l), now, window);
    PurgeExactIff(l.deque, now, window);
    RecentTwice(l.accepted, now, window);
    PurgeKeepsFewer(l.deque, now, window);
  }

  /** After any run of checks from nothing, at any submit times: the next check is exact if and only if. */
  lemma RunExactIff(limits: Limits, times: seq<Timestamp>, now: Timestamp)
    requires Words(times) && now < TWO_64
    ensures var l, window := CheckAll(Limiter([], []), limits, times), WindowOf(limits);
            && Suffix(l)
            && (Purge(l.deque, now, window) == Recent(l.accepted, now, window) <==>
                (forall i | 0 <= i < |Dropped(l)| :: now - Dropped(l)[i] > window) && Cuts(l.deque, now, window))
  {
    hide CheckAll, Purge, Recent, Cuts, Dropped;
    RunKeepsSuffix(Limiter([], []), limits, times);
    WindowExactIff(CheckAll(Limiter([], []), limits, times), now, WindowOf(limits));
  }

  /** With time running backwards the window is not exact: one order per millisecond is allowed,
      the first is accepted at 10, and a second is accepted at 9. */
  lemma BackwardsTimeForgets()
    ensures var limits := Limits(10, 10, 1, 1);
            CheckAll(Limiter([], []), limits, [10, 9]).accepted == [10, 9] && WindowOf(limits) == 1_000_000
  {
    var limits := Limits(10, 10, 1, 1);
    var l1 := Check(Limiter([], []), limits, 10);
    assert l1 == Limiter([10], [10]);
    assert Elapsed(9, 10) == TWO_64 - 1;
    assert Purge([10], 9, 1_000_000) == Purge([], 9, 1_000_000) == [];
    assert Check(l1, limits, 9) == Limiter([9], [10, 9]);
    assert [10, 9][1..] == [9] && [9][1..] == [];
    assert CheckAll(l1, limits, [9]) == CheckAll(Check(l1, limits, 9), limits, []);
  }

  lemma FourChecks(l: Limiter, limits: Limits, a: Timestamp, b: Timestamp, c: Timestamp, d: Timestamp)
    ensures CheckAll(l, limits, [a, b, c, d]) ==
            Check(Check(Check(Check(l, limits, a), limits, b), limits, c), limits, d)
  {
    hide Check;
    var l1 := Check(l, limits, a);
    var l2 := Check(l1, limits, b);
    var l3 := Check(l2, limits, c);
    assert [a, b, c, d][1..] == [b, c, d] && [b, c, d][1..] == [c, d] && [c, d][1..] == [d] && [d][1..] == [];
    assert CheckAll(l3, limits, [d]) == Check(l3, limits, d);
    assert CheckAll(l2, limits, [c, d]) == CheckAll(l3, limits, [d]);
    assert CheckAll(l1, limits, [b, c, d]) == CheckAll(l2, limits, [c, d]);
  }

  lemma RecentNothing(now: Timestamp, window: nat)
    ensures Recent([], now, window) == []
  {
  }

  lemma RecentNext(t: Timestamp, rest: seq<Timestamp>, now: Timestamp, window: nat)
    ensures Recent([t] + rest, now, window) == (if now - t <= window then [t] else []) + Recent(rest, now, window)
  {
    assert ([t] + rest)[1..] == rest;
  }

  lemma OnlyTwoRecent(s: seq<Timestamp>, now: Timestamp, window: nat)
    requires s == [5, 10, 7, now] && window + 7 < now <= window + 10
    ensures Recent(s, now, window) == [10, now]
  {
    hide Recent;
    RecentNext(now, [], now, window);
    RecentNext(7, [now], now, window);
    RecentNext(10, [7, now], now, window);
    RecentNext(5, [10, 7, now], now, window);
    RecentNothing(now, window);
    assert s == [5] + [10, 7, now] && [10, 7, now] == [10] + [7, now] && [7, now] == [7] + [now];
    assert [now] == [now] + [];
  }

  /** The other way round, too much is kept: three orders per millisecond are allowed, and an order is
      refused although only two accepted ones are in the window, because an order that stepped back left
      an expired stamp behind a live one. */
  lemma BackwardsTimeRemembers()
    ensures var limits, window := Limits(10, 10, 3, 1), 1_000_000;
            var l := CheckAll(Limiter([], []), limits, [5, 10, 7, 1_000_008]);
            && WindowOf(limits) == window && l.accepted == [5, 10, 7, 1_000_008]
            && Recent(l.accepted, 1_000_008, window) == [10, 1_000_008]
            && !RateCheck(l.deque, limits, 1_000_008).1
  {
    var limits, window := Limits(10, 10, 3, 1), 1_000_000;
    var l0 := Limiter([], []);
    var l1, l2 := Limiter([5], [5]), Limiter([5, 10], [5, 10]);
    var l3, l4 := Limiter([5, 10, 7], [5, 10, 7]), Limiter([10, 7, 1_000_008], [5, 10, 7, 1_000_008]);
    assert Check(l0, limits, 5) == l1 && Check(l1, limits, 10) == l2 && Check(l2, limits, 7) == l3;
    assert [5, 10, 7][1..] == [10, 7];
    assert Purge([5, 10, 7], 1_000_008, window) == Purge([10, 7], 1_000_008, window) == [10, 7];
    assert Check(l3, limits, 1_000_008) == l4;
    FourChecks(l0, limits, 5, 10, 7, 1_000_008);
    OnlyTwoRecent(l4.accepted, 1_000_008, window);
  }

  // ---------- Verdicts ----------

  /** Both projected positions are within their limits. */
  predicate Projected(r: Risk, order: Order) {
    var limits, s := LimitsOf(r, order.trader), StateOf(r, order.trader);
    var held := if order.symbol in s.positions then s.positions[order.symbol] else 0;
    var moved := if order.side.Buy? then order.quantity else -order.quantity;
    && -limits.maxPositionPerSymbol <= held + moved <= limits.maxPositionPerSymbol
    && -limits.maxNetPosition <= s.net + moved <= limits.maxNetPosition
  }

  /** The trader may send one more order now. */
  predicate BelowRate(r: Risk, order: Order) {
    var limits := LimitsOf(r, order.trader);
    var recent := Purge(StateOf(r, order.trader).timestamps, order.submitTime, limits.rateWindowMs * 1_000_000);
    |recent| < limits.maxOrderRate
  }

  /** When each verdict falls: the kill switch comes first, whatever the order, then price, quantity, position
      and rate; an order passes exactly when nothing stands against it. The counters follow. */
  lemma VerdictIs(r: Risk, order: Order)
    ensures var (c, reason) := CheckOrder(r, order);
            var killed := r.globalKill || (order.trader in r.states && r.states[order.trader].killed);
            var badPrice, badQuantity := order.orderType.Limit? && order.price <= 0, order.quantity <= 0;
            && (reason == KillSwitchActive <==> killed)
            && (reason == InvalidPrice <==> !killed && badPrice)
            && (reason == InvalidQuantity <==> !killed && !badPrice && badQuantity)
            && (reason == PositionLimit <==> !killed && !badPrice && !badQuantity && !Projected(r, order))
            && (reason == RateLimit <==>
                !killed && !badPrice && !badQuantity && Projected(r, order) && !BelowRate(r, order))
            && (reason == NoReason <==>
                !killed && !badPrice && !badQuantity && Projected(r, order) && BelowRate(r, order))
            && c.ordersChecked == r.ordersChecked + 1
            && c.ordersRejected == r.ordersRejected + if reason == NoReason then 0 else 1
  {
    hide Purge;
  }

  /** A check touches no switch, and of a killed trader nothing but the counters. */
  lemma CheckKeepsSwitches(r: Risk, order: Order, trader: TraderId)
    ensures Killed(CheckOrder(r, order).0, trader) <==> Killed(r, trader)
    ensures Killed(r, order.trader) ==>
              CheckOrder(r, order).0.(ordersChecked := r.ordersChecked, ordersRejected := r.ordersRejected) == r
  {
    hide RateCheck, WithinPosition;
  }

  lemma FillKeepsSwitches(r: Risk, filler: TraderId, symbol: Symbol, side: Side, qty: int, trader: TraderId)
    ensures Killed(OnFill(r, filler, symbol, side, qty), trader) <==> Killed(r, trader)
  {
  }

  /** A fill raises what a buyer and lowers what a seller holds and its net, and touches nothing else. */
  lemma FillIs(r: Risk, filler: TraderId, symbol: Symbol, side: Side, qty: int)
    ensures var after, s := OnFill(r, filler, symbol, side, qty), StateOf(r, filler);
            var delta := if side.Buy? then qty else -qty;
            && filler in after.states && symbol in after.states[filler].positions
            && after.states[filler].positions[symbol] ==
               (if symbol in s.positions then s.positions[symbol] else 0) + delta
            && after.states[filler].net == s.net + delta
            && after == r.(states := r.states[filler := after.states[filler]])
            && after.states[filler] == s.(positions := s.positions[symbol := after.states[filler].positions[symbol]],
                                          net := s.net + delta)
  {
  }

  // ---------- Position limits ----------

  ghost predicate TraderWithin(s: TraderState, limits: Limits) {
    && (forall symbol | symbol in s.positions :: Abs(s.positions[symbol]) <= limits.maxPositionPerSymbol)
    && Abs(s.net) <= limits.maxNetPosition
    && s.net == Sum(s.positions)
  }

  /** Every tracked position is within its trader's limits, and nets are sums. */
  ghost predicate AllWithin(r: Risk) {
    forall t | t in r.states :: TraderWithin(r.states[t], LimitsOf(r, t))
  }

  ghost predicate SaneLimits(r: Risk) {
    && r.defaults.maxPositionPerSymbol >= 0 && r.defaults.maxNetPosition >= 0
    && forall t | t in r.limits :: r.limits[t].maxPositionPerSymbol >= 0 && r.limits[t].maxNetPosition >= 0
  }

  /** A check touches only its own trader, and there neither positions nor the net. */
  lemma CheckChangesOne(r: Risk, order: Order)
    ensures var c := CheckOrder(r, order).0;
            && c.limits == r.limits && c.defaults == r.defaults
            && (forall t | t in c.states && t != order.trader :: t in r.states && c.states[t] == r.states[t])
            && StateOf(c, order.trader).positions == StateOf(r, order.trader).positions
            && StateOf(c, order.trader).net == StateOf(r, order.trader).net
            && (CheckOrder(r, order).1 == NoReason ==>
                  WithinPosition(LimitsOf(r, order.trader), StateOf(r, order.trader), order) && order.quantity > 0)
  {
    hide RateCheck, WithinPosition;
  }

  lemma NewTraderWithin(limits: Limits)
    requires limits.maxPositionPerSymbol >= 0 && limits.maxNetPosition >= 0
    ensures TraderWithin(NEW_STATE, limits)
  {
    assert Sum<Symbol>(map[]) == 0;
  }

  lemma SamePositionsWithin(s: TraderState, s': TraderState, limits: Limits)
    requires TraderWithin(s, limits) && s'.positions == s.positions && s'.net == s.net
    ensures TraderWithin(s', limits)
  {
  }

  lemma CheckKeepsWithin(r: Risk, order: Order)
    requires AllWithin(r) && SaneLimits(r)
    ensures AllWithin(CheckOrder(r, order).0) && SaneLimits(CheckOrder(r, order).0)
  {
    hide RateCheck, WithinPosition, TraderWithin;
    NewTraderWithin(LimitsOf(r, order.trader));
    var c := CheckOrder(r, order).0;
    CheckChangesOne(r, order);
    if order.trader in c.states {
      SamePositionsWithin(StateOf(r, order.trader), c.states[order.trader], LimitsOf(r, order.trader));
    }
  }

  lemma Between(at: int, whole: int, part: int, limit: int)
    requires Abs(at) <= limit && Abs(at + whole) <= limit
    requires 0 <= part <= whole || whole <= part <= 0
    ensures Abs(at + part) <= limit
  {
  }

  lemma FillKeepsTraderWithin(s: TraderState, limits: Limits, order: Order, filled: int)
    requires TraderWithin(s, limits) && 0 <= filled <= order.quantity
    requires Abs(PositionOf(s, order.symbol) + Signed(order.side, order.quantity)) <= limits.maxPositionPerSymbol
    requires Abs(s.net + Signed(order.side, order.quantity)) <= limits.maxNetPosition
    requires limits.maxPositionPerSymbol >= 0
    ensures var delta := Signed(order.side, filled);
            TraderWithin(s.(positions := s.positions[order.symbol := PositionOf(s, order.symbol) + delta],
                            net := s.net + delta),
                         limits)
  {
    var whole, part := Signed(order.side, order.quantity), Signed(order.side, filled);
    SumUpdate(s.positions, order.symbol, PositionOf(s, order.symbol) + part);
    Between(PositionOf(s, order.symbol), whole, part, limits.maxPositionPerSymbol);
    Between(s.net, whole, part, limits.maxNetPosition);
  }

  /** A fill of at most the quantity that passed the check, on the checked side, keeps every
      position within limits: it lies between two positions that are. */
  lemma CheckedFillKeepsWithin(r: Risk, order: Order, filled: int)
    requires AllWithin(r) && SaneLimits(r)
    requires CheckOrder(r, order).1 == NoReason && 0 <= filled <= order.quantity
    ensures var after := OnFill(CheckOrder(r, order).0, order.trader, order.symbol, order.side, filled);
            AllWithin(after) && SaneLimits(after)
  {
    hide CheckOrder, TraderWithin;
    var c, limits := CheckOrder(r, order).0, LimitsOf(r, order.trader);
    CheckKeepsWithin(r, order);
    CheckChangesOne(r, order);
    NewTraderWithin(limits);
    FillKeepsTraderWithin(StateOf(c, order.trader), limits, order, filled);
  }
}
