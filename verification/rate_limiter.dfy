/** The sliding-window `RateLimiter` class of scripts/sidepanel.js, with the
    clock passed in: `now` is what `Date.now()` returned at the call, and the
    sleep is returned instead of awaited. */
module RateLimiter {
  import opened SeqUtil

  datatype Limiter = Limiter(maxRequests: int, timeWindow: int, requests: seq<int>)

  /** `new RateLimiter(maxRequests, timeWindow)`. */
  function NewLimiter(maxRequests: int, timeWindow: int): Limiter {
    Limiter(maxRequests, timeWindow, [])
  }

  /** `requests.filter(time => time > cutoff)`. */
  function Above(requests: seq<int>, cutoff: int): (r: seq<int>)
    ensures |r| <= |requests|
    decreases |requests|
  {
    if |requests| == 0 then []
    else
      var kept := Above(requests[..|requests| - 1], cutoff);
      if requests[|requests| - 1] > cutoff then kept + [requests[|requests| - 1]] else kept
  }

  /** The filter keeps exactly the timestamps newer than the cutoff, in order. */
  lemma {:induction false} AboveMembers(requests: seq<int>, cutoff: int)
    ensures forall t :: t in Above(requests, cutoff) <==> t in requests && t > cutoff
    ensures SubsequenceOf(Above(requests, cutoff), requests)
    ensures forall t :: multiset(Above(requests, cutoff))[t] == (if t > cutoff then multiset(requests)[t] else 0)
    decreases |requests|
  {
    if |requests| > 0 {
      var init := requests[..|requests| - 1];
      var last := requests[|requests| - 1];
      var kept := Above(init, cutoff);
      AboveMembers(init, cutoff);
      assert requests == init + [last];
      assert multiset(requests) == multiset(init) + multiset{last};
      if last > cutoff {
        SubsequenceOfSnocBoth(kept, init, last);
        assert multiset(kept + [last]) == multiset(kept) + multiset{last};
      } else {
        SubsequenceOfSnoc(kept, init, last);
      }
    }
  }

  /** How the call sleeps: not at all, for `ms` milliseconds, or for
      `undefined + timeWindow - now`, which is `NaN` and which `setTimeout`
      treats as no delay. */
  datatype Pause = Immediate | Sleep(ms: int) | SleepNaN

  /** The time the caller is let through, given the call's start. */
  function Admitted(now: nat, p: Pause): int {
    match p
    case Sleep(ms) => if ms > 0 then now + ms else now
    case _ => now
  }

  /** `waitForAvailability()` as written: prune the timestamps older than the
      window, sleep until the oldest kept one leaves the window when the
      window is full, then record the call's start time `now`. */
  function WaitForAvailability(l: Limiter, now: nat): (r: (Limiter, Pause))
    ensures var pruned := Above(l.requests, now - l.timeWindow);
            && r.0 == l.(requests := pruned + [now])
            && (r.1 == Immediate <==> |pruned| < l.maxRequests)
            && (r.1.SleepNaN? <==> |pruned| >= l.maxRequests && |pruned| == 0)
            && (r.1.Sleep? ==> r.1.ms == pruned[0] + l.timeWindow - now && r.1.ms > 0)
  {
    var pruned := Above(l.requests, now - l.timeWindow);
    var pause :=
      if |pruned| >= l.maxRequests then
        if |pruned| == 0 then SleepNaN
        else
          AboveMembers(l.requests, now - l.timeWindow);
          assert pruned[0] in pruned;
          Sleep(pruned[0] + l.timeWindow - now)
      else Immediate;
    (l.(requests := pruned + [now]), pause)
  }

  ghost predicate Sorted(xs: seq<int>) {
    forall i, j :: 0 <= i < j < |xs| ==> xs[i] <= xs[j]
  }

  /** With a clock that never runs backwards the timestamp list stays sorted,
      and each call adds exactly one timestamp: its start time. */
  lemma WaitKeepsSorted(l: Limiter, now: nat)
    requires Sorted(l.requests)
    requires forall t :: t in l.requests ==> t <= now
    ensures Sorted(WaitForAvailability(l, now).0.requests)
    ensures var rs := WaitForAvailability(l, now).0.requests; |rs| >= 1 && rs[|rs| - 1] == now
  {
    var pruned := Above(l.requests, now - l.timeWindow);
    AboveMembers(l.requests, now - l.timeWindow);
    SortedSubsequence(pruned, l.requests);
    var rs := pruned + [now];
    forall i, j | 0 <= i < j < |rs| ensures rs[i] <= rs[j] {
      assert rs[i] == pruned[i];
      if j < |pruned| {
        assert rs[j] == pruned[j];
      } else {
        assert pruned[i] in pruned;
      }
    }
  }

  lemma {:induction false} SortedSubsequence(r: seq<int>, xs: seq<int>)
    requires SubsequenceOf(r, xs) && Sorted(xs)
    ensures Sorted(r)
    decreases |xs|
  {
    if |r| > 0 && |xs| > 0 {
      if r[0] == xs[0] && SubsequenceOf(r[1..], xs[1..]) {
        SortedSubsequence(r[1..], xs[1..]);
        forall j | 0 < j < |r| ensures r[0] <= r[j] {
          assert r[j] == r[1..][j - 1];
          SubsequenceMember(r[1..], xs[1..], j - 1);
        }
      } else {
        SortedSubsequence(r, xs[1..]);
      }
    }
  }

  lemma {:induction false} SubsequenceMember<T>(r: seq<T>, xs: seq<T>, k: nat)
    requires SubsequenceOf(r, xs) && k < |r|
    ensures r[k] in xs
    decreases |xs|
  {
    if r[0] == xs[0] && SubsequenceOf(r[1..], xs[1..]) {
      if k > 0 {
        SubsequenceMember(r[1..], xs[1..], k - 1);
      }
    } else {
      SubsequenceMember(r, xs[1..], k);
    }
  }

  /** Four calls at the same instant on a limiter of 3 per 1000 ms: the first
      three pass at once, the fourth sleeps the full 1000 ms. */
  lemma FourthCallWaits(t: nat)
    ensures var l0 := NewLimiter(3, 1000);
            var l1 := WaitForAvailability(l0, t);
            var l2 := WaitForAvailability(l1.0, t);
            var l3 := WaitForAvailability(l2.0, t);
            var l4 := WaitForAvailability(l3.0, t);
            && l1.1 == Immediate && l2.1 == Immediate && l3.1 == Immediate
            && l4.1 == Sleep(1000)
            && l1.0.requests == [t] && l2.0.requests == [t, t] && l3.0.requests == [t, t, t]
            && l4.0.requests == [t, t, t, t]
  {
    var l0 := NewLimiter(3, 1000);
    var l1 := WaitForAvailability(l0, t);
    assert l1.0.requests == [t];
    var l2 := WaitForAvailability(l1.0, t);
    assert Above([t], t - 1000) == [t];
    assert l2.0.requests == [t, t];
    var l3 := WaitForAvailability(l2.0, t);
    assert Above([t, t], t - 1000) == [t, t] by {
      assert [t, t][..1] == [t];
    }
    assert l3.0.requests == [t, t, t];
    assert Above([t, t, t], t - 1000) == [t, t, t] by {
      assert [t, t, t][..2] == [t, t];
      assert [t, t][..1] == [t];
    }
  }

  // ---------------------------------------------------------------------------
  // Sequential runs: what the limiter lets through, and when
  // ---------------------------------------------------------------------------

  /** The evidently intended limiter: like `WaitForAvailability`, but it
      records the time the call is let through rather than the time it
      arrived. */
  function WaitForAvailabilityFixed(l: Limiter, now: nat): (r: (Limiter, Pause))
    ensures var pruned := Above(l.requests, now - l.timeWindow);
            && r.1 == WaitForAvailability(l, now).1
            && r.0 == l.(requests := pruned + [Admitted(now, r.1)])
  {
    var pause := WaitForAvailability(l, now).1;
    (l.(requests := Above(l.requests, now - l.timeWindow) + [Admitted(now, pause)]), pause)
  }

  /** When the corrected limiter lets a call through: at once while the window
      has room, otherwise exactly when the oldest kept timestamp leaves it. */
  lemma AdmissionTime(l: Limiter, now: nat)
    ensures var pruned := Above(l.requests, now - l.timeWindow);
            var at := Admitted(now, WaitForAvailabilityFixed(l, now).1);
            && at >= now
            && (|pruned| < l.maxRequests ==> at == now)
            && (|pruned| >= l.maxRequests && |pruned| >= 1 ==> at == pruned[0] + l.timeWindow && pruned[0] > now - l.timeWindow)
  {
    var pruned := Above(l.requests, now - l.timeWindow);
    if |pruned| >= 1 {
      AboveMembers(l.requests, now - l.timeWindow);
      assert pruned[0] in pruned;
    }
  }

  /** Admission times of calls at `starts` made against the corrected
      limiter, and its state afterwards. */
  function RunFixed(l: Limiter, starts: seq<nat>): (r: (Limiter, seq<int>))
    ensures |r.1| == |starts|
    decreases |starts|
  {
    if |starts| == 0 then (l, [])
    else
      var prev := RunFixed(l, starts[..|starts| - 1]);
      var now := starts[|starts| - 1];
      var step := WaitForAvailabilityFixed(prev.0, now);
      (step.0, prev.1 + [Admitted(now, step.1)])
  }

  lemma RunFixedSnoc(l: Limiter, starts: seq<nat>, now: nat)
    ensures var prev := RunFixed(l, starts);
            var step := WaitForAvailabilityFixed(prev.0, now);
            RunFixed(l, starts + [now]) == (step.0, prev.1 + [Admitted(now, step.1)])
  {
    assert (starts + [now])[..|starts|] == starts;
  }

  /** How many of `xs` fall in the window `(x - width, x]`. */
  function CountWindow(xs: seq<int>, x: int, width: int): (n: nat)
    ensures n <= |xs|
    decreases |xs|
  {
    if |xs| == 0 then 0
    else
      CountWindow(xs[..|xs| - 1], x, width) + (if x - width < xs[|xs| - 1] <= x then 1 else 0)
  }

  /** The start and admission times of calls made one after another: call
      `k + 1` starts once call `k` has been let through. */
  ghost predicate Sequential(starts: seq<nat>, admissions: seq<int>) {
    && |admissions| == |starts|
    && forall k :: 1 <= k < |starts| ==> starts[k] >= admissions[k - 1]
  }

  lemma {:induction false} AboveSnoc(xs: seq<int>, a: int, c: int)
    ensures Above(xs + [a], c) == Above(xs, c) + (if a > c then [a] else [])
  {
    assert (xs + [a])[..|xs|] == xs;
  }

  lemma {:induction false} AboveConcat(xs: seq<int>, ys: seq<int>, c: int)
    ensures Above(xs + ys, c) == Above(xs, c) + Above(ys, c)
    decreases |ys|
  {
    if |ys| > 0 {
      var init := ys[..|ys| - 1];
      var last := ys[|ys| - 1];
      assert xs + ys == (xs + init) + [last];
      AboveSnoc(xs + init, last, c);
      AboveConcat(xs, init, c);
    } else {
      assert xs + ys == xs;
    }
  }

  lemma {:induction false} AboveKeepsAll(xs: seq<int>, c: int)
    requires forall t :: t in xs ==> t > c
    ensures Above(xs, c) == xs
    decreases |xs|
  {
    if |xs| > 0 {
      var init := xs[..|xs| - 1];
      assert forall t :: t in init ==> t in xs;
      assert xs[|xs| - 1] in xs;
      AboveKeepsAll(init, c);
    }
  }

  lemma {:induction false} AboveDropsAll(xs: seq<int>, c: int)
    requires forall t :: t in xs ==> t <= c
    ensures Above(xs, c) == []
    decreases |xs|
  {
    if |xs| > 0 {
      var init := xs[..|xs| - 1];
      assert forall t :: t in init ==> t in xs;
      assert xs[|xs| - 1] in xs;
      AboveDropsAll(init, c);
    }
  }

  lemma {:induction false} AboveAbove(xs: seq<int>, c1: int, c2: int)
    requires c1 <= c2
    ensures Above(Above(xs, c1), c2) == Above(xs, c2)
    decreases |xs|
  {
    if |xs| > 0 {
      var init := xs[..|xs| - 1];
      var last := xs[|xs| - 1];
      AboveAbove(init, c1, c2);
      if last > c1 {
        AboveSnoc(Above(init, c1), last, c2);
      }
    }
  }

  lemma {:induction false} AboveMonotone(xs: seq<int>, c1: int, c2: int)
    requires c1 <= c2
    ensures |Above(xs, c2)| <= |Above(xs, c1)|
    decreases |xs|
  {
    if |xs| > 0 {
      AboveMonotone(xs[..|xs| - 1], c1, c2);
    }
  }

  /** Entries strictly after the first entry's value exclude that entry. */
  lemma {:induction false} AboveFirst(ys: seq<int>, c: int)
    requires |ys| > 0 && c >= ys[0]
    ensures |Above(ys, c)| <= |ys| - 1
    decreases |ys|
  {
    if |ys| > 1 {
      AboveFirst(ys[..|ys| - 1], c);
    }
  }

  /** Below the window's top, counting the window is counting what is
      newer than its bottom. */
  lemma {:induction false} CountWindowIsAbove(xs: seq<int>, x: int, width: int)
    requires forall t :: t in xs ==> t <= x
    ensures CountWindow(xs, x, width) == |Above(xs, x - width)|
    decreases |xs|
  {
    if |xs| > 0 {
      var init := xs[..|xs| - 1];
      assert forall t :: t in init ==> t in xs;
      assert xs[|xs| - 1] in xs;
      CountWindowIsAbove(init, x, width);
    }
  }

  lemma {:induction false} CountWindowSnoc(xs: seq<int>, a: int, x: int, width: int)
    ensures CountWindow(xs + [a], x, width) == CountWindow(xs, x, width) + (if x - width < a <= x then 1 else 0)
  {
    assert (xs + [a])[..|xs|] == xs;
  }

  /** The fourth of four calls at `t` sleeps 1000 ms, yet the limiter as
      written records it at `t`. */
  lemma AsWrittenFourthCall(t: nat)
    ensures WaitForAvailability(Limiter(3, 1000, [t, t, t]), t) == (Limiter(3, 1000, [t, t, t, t]), Sleep(1000))
  {
    AboveKeepsAll([t, t, t], t - 1000);
    assert [t, t, t] + [t] == [t, t, t, t];
  }

  /** Three calls 1000 ms later find the window empty and pass at once. */
  lemma AsWrittenLaterCalls(t: nat)
    ensures WaitForAvailability(Limiter(3, 1000, [t, t, t, t]), t + 1000) == (Limiter(3, 1000, [t + 1000]), Immediate)
    ensures WaitForAvailability(Limiter(3, 1000, [t + 1000]), t + 1000) == (Limiter(3, 1000, [t + 1000, t + 1000]), Immediate)
    ensures WaitForAvailability(Limiter(3, 1000, [t + 1000, t + 1000]), t + 1000)
         == (Limiter(3, 1000, [t + 1000, t + 1000, t + 1000]), Immediate)
  {
    var u: nat := t + 1000;
    AboveDropsAll([t, t, t, t], u - 1000);
    assert [] + [u] == [u];
    AboveKeepsAll([u], u - 1000);
    assert [u] + [u] == [u, u];
    AboveKeepsAll([u, u], u - 1000);
    assert [u, u] + [u] == [u, u, u];
  }

  /** Admissions at `t`, `t`, `t` and four at `t + 1000` put four in the
      window `(t, t + 1000]`. */
  lemma FourInOneWindow(t: nat)
    ensures CountWindow([t, t, t, t + 1000, t + 1000, t + 1000, t + 1000], t + 1000, 1000) == 4
  {
    var u := t + 1000;
    var adm: seq<int> := [t, t, t, u, u, u, u];
    CountWindowIsAbove(adm, u, 1000);
    assert adm == [t, t, t] + [u, u, u, u];
    AboveConcat([t, t, t], [u, u, u, u], t);
    AboveDropsAll([t, t, t], t);
    AboveKeepsAll([u, u, u, u], t);
  }

  /** The limiter as written lets four calls through one 1000 ms window of a
      3-per-1000 ms limiter. After three calls at `t` (see `FourthCallWaits`)
      a fourth call at `t` sleeps until `t + 1000` but is recorded at `t`;
      so three more calls at `t + 1000` find the window empty and pass at
      once, and `(t, t + 1000]` holds four admissions. */
  lemma AsWrittenOverfillsWindow(t: nat)
    ensures var l3 := Limiter(3, 1000, [t, t, t]);
            var l4 := WaitForAvailability(l3, t);
            var l5 := WaitForAvailability(l4.0, t + 1000);
            var l6 := WaitForAvailability(l5.0, t + 1000);
            var l7 := WaitForAvailability(l6.0, t + 1000);
            && l4.1 == Sleep(1000) && Admitted(t, l4.1) == t + 1000
            && l5.1 == Immediate && l6.1 == Immediate && l7.1 == Immediate
            && CountWindow([t, t, t, Admitted(t, l4.1), t + 1000, t + 1000, t + 1000], t + 1000, 1000) == 4
  {
    AsWrittenFourthCall(t);
    AsWrittenLaterCalls(t);
    FourInOneWindow(t);
  }

  /** Dropping the last call of a sequential run leaves a sequential run. */
  lemma SequentialPrefix(starts: seq<nat>, adm: seq<int>)
    requires |starts| >= 1 && Sequential(starts, adm)
    ensures Sequential(starts[..|starts| - 1], adm[..|adm| - 1])
  {
  }

  /** What stays true along a sequential run of the corrected limiter. */
  ghost predicate RunInvariant(l: Limiter, starts: seq<nat>, adm: seq<int>, maxRequests: int, timeWindow: int) {
    && |starts| == |adm| >= 1
    && l.maxRequests == maxRequests && l.timeWindow == timeWindow
    && l.requests == Above(adm, starts[|starts| - 1] - timeWindow)
    && adm[|adm| - 1] >= starts[|starts| - 1]
    && (forall t :: t in adm ==> t <= adm[|adm| - 1])
    && (forall x :: CountWindow(adm, x, timeWindow) <= maxRequests)
  }

  /** While the window ending `now` has room, a later window holds no more
      than it. */
  lemma WindowAfterRoom(adm: seq<int>, now: int, timeWindow: int, x: int)
    requires forall t :: t in adm ==> t <= now
    requires now <= x
    ensures CountWindow(adm, x, timeWindow) <= |Above(adm, now - timeWindow)|
  {
    CountWindowIsAbove(adm, x, timeWindow);
    AboveMonotone(adm, now - timeWindow, x - timeWindow);
  }

  /** Once the oldest timestamp of the window ending `now` has left a later
      window, that window holds fewer than the one ending `now`. */
  lemma WindowAfterFull(adm: seq<int>, now: int, timeWindow: int, x: int)
    requires forall t :: t in adm ==> t <= now
    requires now <= x
    requires |Above(adm, now - timeWindow)| >= 1
    requires Above(adm, now - timeWindow)[0] + timeWindow <= x
    ensures CountWindow(adm, x, timeWindow) <= |Above(adm, now - timeWindow)| - 1
  {
    var pruned := Above(adm, now - timeWindow);
    var oldest := pruned[0];
    OldestInWindow(adm, now - timeWindow);
    CountWindowIsAbove(adm, x, timeWindow);
    PruneAfterOldest(adm, pruned, now - timeWindow, oldest, x - timeWindow);
  }

  /** A prune at or past the oldest timestamp an earlier prune kept keeps
      fewer timestamps than that earlier prune. */
  lemma PruneAfterOldest(adm: seq<int>, pruned: seq<int>, cutoff: int, oldest: int, later: int)
    requires pruned == Above(adm, cutoff) && |pruned| >= 1 && oldest == pruned[0]
    requires cutoff < oldest <= later
    ensures |Above(adm, later)| <= |pruned| - 1
  {
    AboveMonotone(adm, oldest, later);
    AboveAbove(adm, cutoff, oldest);
    AboveFirst(pruned, oldest);
  }

  /** The oldest timestamp a prune keeps is inside the window. */
  lemma OldestInWindow(adm: seq<int>, cutoff: int)
    requires |Above(adm, cutoff)| >= 1
    ensures Above(adm, cutoff)[0] > cutoff
  {
    AboveMembers(adm, cutoff);
    assert Above(adm, cutoff)[0] in Above(adm, cutoff);
  }

  /** A call admitted as the corrected limiter admits it does not overfill
      the window `(x - timeWindow, x]`. */
  lemma WindowAfterAdmission(adm: seq<int>, at: int, now: int, maxRequests: int, timeWindow: int, x: int)
    requires maxRequests >= 1 && timeWindow >= 1
    requires forall t :: t in adm ==> t <= now
    requires CountWindow(adm, now, timeWindow) <= maxRequests
    requires CountWindow(adm, x, timeWindow) <= maxRequests
    requires at >= now
    requires |Above(adm, now - timeWindow)| < maxRequests ==> at == now
    requires |Above(adm, now - timeWindow)| >= maxRequests ==>
               |Above(adm, now - timeWindow)| >= 1 && at == Above(adm, now - timeWindow)[0] + timeWindow
    ensures CountWindow(adm + [at], x, timeWindow) <= maxRequests
  {
    CountWindowSnoc(adm, at, x, timeWindow);
    if x - timeWindow < at <= x {
      CountWindowIsAbove(adm, now, timeWindow);
      if |Above(adm, now - timeWindow)| < maxRequests {
        WindowAfterRoom(adm, now, timeWindow, x);
      } else {
        WindowAfterFull(adm, now, timeWindow, x);
      }
    }
  }

  /** One more call keeps the invariant: the key step of the window bound. */
  lemma FixedStep(l: Limiter, starts: seq<nat>, adm: seq<int>, maxRequests: int, timeWindow: int, now: nat)
    requires maxRequests >= 1 && timeWindow >= 1
    requires RunInvariant(l, starts, adm, maxRequests, timeWindow)
    requires now >= adm[|adm| - 1]
    ensures var step := WaitForAvailabilityFixed(l, now);
            RunInvariant(step.0, starts + [now], adm + [Admitted(now, step.1)], maxRequests, timeWindow)
  {
    var step := WaitForAvailabilityFixed(l, now);
    var at := Admitted(now, step.1);
    FixedStepKeepsRequests(l, starts, adm, timeWindow, now);
    FixedStepWindows(l, starts, adm, maxRequests, timeWindow, now);
    LatestStaysLast(adm, at);
    assert (starts + [now])[|starts|] == now;
  }

  /** Appending a timestamp no earlier than every recorded one keeps the
      last timestamp the latest. */
  lemma LatestStaysLast(adm: seq<int>, at: int)
    requires |adm| >= 1 && adm[|adm| - 1] <= at
    requires forall t :: t in adm ==> t <= adm[|adm| - 1]
    ensures var adm' := adm + [at];
            adm'[|adm'| - 1] == at && forall t :: t in adm' ==> t <= at
  {
    assert forall t :: t in adm + [at] ==> t in adm || t == at;
  }

  /** After a corrected step the limiter keeps exactly the admissions inside
      the window ending at the new call. */
  lemma FixedStepKeepsRequests(l: Limiter, starts: seq<nat>, adm: seq<int>, timeWindow: int, now: nat)
    requires timeWindow >= 1
    requires |starts| == |adm| >= 1 && l.timeWindow == timeWindow
    requires l.requests == Above(adm, starts[|starts| - 1] - timeWindow)
    requires adm[|adm| - 1] >= starts[|starts| - 1]
    requires now >= adm[|adm| - 1]
    ensures var step := WaitForAvailabilityFixed(l, now);
            step.0.requests == Above(adm + [Admitted(now, step.1)], now - timeWindow)
  {
    var step := WaitForAvailabilityFixed(l, now);
    AdmittedNotBefore(now, step.1);
    PruneThenRecord(adm, l.requests, starts[|starts| - 1] - timeWindow, now - timeWindow, Admitted(now, step.1));
  }

  /** Pruning what an earlier prune kept, then recording a timestamp inside
      the window, leaves what one prune of the whole history keeps. */
  lemma PruneThenRecord(adm: seq<int>, kept: seq<int>, c1: int, c2: int, at: int)
    requires kept == Above(adm, c1)
    requires c1 <= c2 < at
    ensures Above(kept, c2) + [at] == Above(adm + [at], c2)
  {
    AboveAbove(adm, c1, c2);
    AboveSnoc(adm, at, c2);
  }

  lemma AdmittedNotBefore(now: nat, p: Pause)
    ensures Admitted(now, p) >= now
  {
  }

  /** After a corrected step no window holds more than `maxRequests`
      admissions. */
  lemma FixedStepWindows(l: Limiter, starts: seq<nat>, adm: seq<int>, maxRequests: int, timeWindow: int, now: nat)
    requires maxRequests >= 1 && timeWindow >= 1
    requires RunInvariant(l, starts, adm, maxRequests, timeWindow)
    requires now >= adm[|adm| - 1]
    ensures var step := WaitForAvailabilityFixed(l, now);
            var at := Admitted(now, step.1);
            && at >= now
            && forall x :: CountWindow(adm + [at], x, timeWindow) <= maxRequests
  {
    var step := WaitForAvailabilityFixed(l, now);
    var at := Admitted(now, step.1);
    var pruned := Above(adm, now - timeWindow);
    AboveAbove(adm, starts[|starts| - 1] - timeWindow, now - timeWindow);
    assert Above(l.requests, now - timeWindow) == pruned;
    AdmissionTime(l, now);
    assert forall t :: t in adm ==> t <= now;
    forall x
      ensures CountWindow(adm + [at], x, timeWindow) <= maxRequests
    {
      WindowAfterAdmission(adm, at, now, maxRequests, timeWindow, x);
    }
  }

  /** The first call on a fresh limiter starts the invariant. */
  lemma FixedFirstCall(maxRequests: int, timeWindow: int, now: nat)
    requires maxRequests >= 1 && timeWindow >= 1
    ensures var step := WaitForAvailabilityFixed(NewLimiter(maxRequests, timeWindow), now);
            RunInvariant(step.0, [now], [Admitted(now, step.1)], maxRequests, timeWindow)
  {
    var l0 := NewLimiter(maxRequests, timeWindow);
    AdmissionTime(l0, now);
    var at := Admitted(now, WaitForAvailabilityFixed(l0, now).1);
    assert at == now;
    forall x ensures CountWindow([at], x, timeWindow) <= maxRequests {
      CountWindowSnoc([], at, x, timeWindow);
      assert [] + [at] == [at];
    }
    AboveSnoc([], at, now - timeWindow);
    assert [] + [at] == [at];
  }

  /** The corrected limiter never lets more than `maxRequests` calls through
      in any window of `timeWindow` milliseconds, for calls made one after
      another. */
  lemma {:induction false} FixedNeverOverfills(maxRequests: int, timeWindow: int, starts: seq<nat>)
    requires maxRequests >= 1 && timeWindow >= 1
    requires Sequential(starts, RunFixed(NewLimiter(maxRequests, timeWindow), starts).1)
    ensures forall x :: CountWindow(RunFixed(NewLimiter(maxRequests, timeWindow), starts).1, x, timeWindow) <= maxRequests
    ensures |starts| >= 1 ==> var r := RunFixed(NewLimiter(maxRequests, timeWindow), starts);
                              RunInvariant(r.0, starts, r.1, maxRequests, timeWindow)
    decreases |starts|
  {
    var l0 := NewLimiter(maxRequests, timeWindow);
    if |starts| == 0 {
      assert RunFixed(l0, starts).1 == [];
    } else {
      var init := starts[..|starts| - 1];
      var now := starts[|starts| - 1];
      var prev := RunFixed(l0, init);
      var step := WaitForAvailabilityFixed(prev.0, now);
      var adm := prev.1 + [Admitted(now, step.1)];
      assert adm[..|adm| - 1] == prev.1;
      assert RunFixed(l0, starts) == (step.0, adm) by {
        assert starts == init + [now];
        RunFixedSnoc(l0, init, now);
      }
      SequentialPrefix(starts, adm);
      FixedNeverOverfills(maxRequests, timeWindow, init);
      if |init| == 0 {
        assert prev == (l0, []);
        assert starts == [now];
        FixedFirstCall(maxRequests, timeWindow, now);
      } else {
        assert now >= prev.1[|prev.1| - 1] by {
          assert adm[|init| - 1] == prev.1[|init| - 1];
        }
        FixedStep(prev.0, init, prev.1, maxRequests, timeWindow, now);
        assert init + [now] == starts;
      }
    }
  }
}
