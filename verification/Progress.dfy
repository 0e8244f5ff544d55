/**
 Reported total sync progress (syncnotification.go): the header stage and the address discovery stage
 estimate the total in different ways, and the second must not fall back behind the first.
 */
module Progress {

  const DISCOVERY_PERCENTAGE: real := 0.8
  const RESCAN_PERCENTAGE: real := 0.1
  const MIN_HEADERS_TIME: int := 150

  /** Rounding to the nearest integer, halves away from zero. */
  function Round(x: real): int {
    if x >= 0.0 then (x + 0.5).Floor else -((0.5 - x).Floor)
  }

  /** The nearest integer, and of two equally near ones the one away from zero. */
  lemma RoundIsNearest(x: real)
    ensures x - 0.5 <= Round(x) as real <= x + 0.5
    ensures Round(x) as real == x - 0.5 ==> x < 0.0
    ensures Round(x) as real == x + 0.5 ==> x > 0.0
  {
  }

  lemma RoundOrdered(x: real, y: real)
    requires x <= y
    ensures Round(x) <= Round(y)
  {
    if y < 0.0 || x >= 0.0 {
      assert x + 0.5 <= y + 0.5 && 0.5 - y <= 0.5 - x;
    }
  }

  lemma ScaleOrder(a: real, b: real, c: real)
    requires c > 0.0
    ensures a < b <==> a * c < b * c
    ensures a == b <==> a * c == b * c
  {
    if a < b {
      assert (b - a) * c > 0.0;
    } else if b < a {
      assert (a - b) * c > 0.0;
    }
  }

  lemma NonNegative(a: real, b: real)
    requires a >= 0.0 && b >= 0.0
    ensures a * b >= 0.0
  {
  }

  /** The time the header stage is expected to take, from a part p of the headers fetched in t seconds. */
  function HeadersTime(p: real, t: real): real
    requires p != 0.0
  {
    t / p + t / p * (0.5 * (1.0 - p))
  }

  lemma HeadersTimeScales(p: real, t: real)
    requires p != 0.0 && p != 3.0 && t >= 1.0
    ensures HeadersTime(p, t) == (1.5 - 0.5 * p) * (t / p) && HeadersTime(p, t) != 0.0
  {
    var estimate, factor := t / p, 1.5 - 0.5 * p;
    assert estimate * p == t;
    assert estimate != 0.0 && factor != 0.0;
    assert HeadersTime(p, t) == factor * estimate;
  }

  /**
   The share of the whole sync that is done, in per cent. A part of 0 makes the estimate infinite, and a part
   of 3 makes it 0.
   */
  function HeadersTotal(p: real, t: real): real
    requires p != 0.0 && p != 3.0 && t >= 1.0
  {
    HeadersTimeScales(p, t);
    var time := HeadersTime(p, t);
    t / (time + time * DISCOVERY_PERCENTAGE + time * RESCAN_PERCENTAGE) * 100.0
  }

  lemma MulAssoc(a: real, b: real, c: real)
    ensures a * (b * c) == (a * b) * c
  {
  }

  lemma Cancel(a: real, b: real, c: real)
    requires c != 0.0 && a * c == b * c
    ensures a == b
  {
    assert (a - b) * c == 0.0;
  }

  /** The elapsed time cancels: the total depends on the part of the headers fetched alone. */
  lemma HeadersTotalShare(p: real, t: real)
    requires p != 0.0 && p != 3.0 && t >= 1.0
    ensures HeadersTotal(p, t) * (2.85 - 0.95 * p) == p * 100.0
  {
    var estimate, factor, time := t / p, 1.5 - 0.5 * p, HeadersTime(p, t);
    HeadersTimeScales(p, t);
    var total := time + time * DISCOVERY_PERCENTAGE + time * RESCAN_PERCENTAGE;
    assert total == time * 1.9;
    var v := t / total;
    assert estimate * p == t && estimate != 0.0;
    assert total == (1.9 * factor) * estimate;
    assert v * total == t;
    MulAssoc(v, 1.9 * factor, estimate);
    Cancel(v * (1.9 * factor), p, estimate);
    assert 1.9 * factor == 2.85 - 0.95 * p;
    MulAssoc(100.0, v, 2.85 - 0.95 * p);
  }

  lemma RoundBelow(x: real, n: nat)
    ensures Round(x) <= n <==> x < n as real + 0.5
  {
  }

  lemma RoundNonNegative(x: real)
    ensures 0 <= Round(x) <==> -0.5 < x
  {
  }

  /** The share fits the header stage: from just below 0 to just above 1. */
  predicate InRange(p: real) {
    -57.0 < p * 3981.0 && p * 6033.0 < 6099.0
  }

  lemma ShareInRange(x: real, p: real)
    requires p != 3.0 && x * (2.85 - 0.95 * p) == p * 100.0
    ensures -0.5 < x < 53.5 <==> InRange(p)
  {
    var c, low := 2.85 - 0.95 * p, -0.5;
    assert x * c == p * 100.0;
    assert 53.5 * c == 152.475 - 50.825 * p;
    assert low * c == 0.475 * p - 1.425;
    if p < 3.0 {
      ScaleOrder(x, 53.5, c);
      ScaleOrder(low, x, c);
    } else {
      FlipOrder(low, x, c);
    }
  }

  lemma FlipOrder(a: real, b: real, c: real)
    requires c < 0.0
    ensures a < b <==> b * c < a * c
  {
    ScaleOrder(a, b, -c);
    assert a * -c == -(a * c) && b * -c == -(b * c);
  }

  /** Whatever part of the headers the clocks suggest: the report lies in [0, 53] exactly if the part is in range. */
  lemma HeadersAtMost53Exactly(p: real, t: real)
    requires p != 0.0 && p != 3.0 && t >= 1.0
    ensures 0 <= Round(HeadersTotal(p, t)) <= 53 <==> InRange(p)
  {
    HeadersTotalShare(p, t);
    var x := HeadersTotal(p, t);
    ShareInRange(x, p);
    RoundBelow(x, 53);
    RoundNonNegative(x);
  }

  lemma ShareOrdered(x: real, p: real, y: real, q: real)
    requires p <= q && (q < 3.0 || 3.0 < p)
    requires x * (2.85 - 0.95 * p) == p * 100.0 && y * (2.85 - 0.95 * q) == q * 100.0
    ensures x <= y
  {
    var c, d := 2.85 - 0.95 * p, 2.85 - 0.95 * q;
    assert (y - x) * (c * d) == 285.0 * (q - p) by {
      assert (y - x) * (c * d) == (y * d) * c - (x * c) * d;
      assert (q * 100.0) * c - (p * 100.0) * d == 285.0 * (q - p);
    }
    assert c * d > 0.0 by {
      if q < 3.0 {
        ScaleOrder(0.0, c, d);
      } else {
        FlipOrder(c, 0.0, d);
      }
    }
    ScaleOrder(y - x, 0.0, c * d);
  }

  /** More headers never report less progress, whatever time they took, on either side of the pole. */
  lemma HeadersOrdered(p: real, t: real, q: real, u: real)
    requires p != 0.0 && q != 0.0 && p <= q && (q < 3.0 || 3.0 < p) && t >= 1.0 && u >= 1.0
    ensures Round(HeadersTotal(p, t)) <= Round(HeadersTotal(q, u))
  {
    HeadersTotalShare(p, t);
    HeadersTotalShare(q, u);
    ShareOrdered(HeadersTotal(p, t), p, HeadersTotal(q, u), q);
    RoundOrdered(HeadersTotal(p, t), HeadersTotal(q, u));
  }

  /** The estimated duration of the whole sync: h seconds of headers, then e seconds of discovery so far. */
  function DiscoveryTime(h: real, e: real): real {
    if e > h * DISCOVERY_PERCENTAGE then h + e + h * RESCAN_PERCENTAGE
    else h + h * DISCOVERY_PERCENTAGE + h * RESCAN_PERCENTAGE
  }

  function DiscoveryTotal(h: real, e: real): real
    requires h > 0.0
  {
    (h + e) / DiscoveryTime(h, e) * 100.0
  }

  lemma FractionOrder(a: real, b: real, c: real, d: real)
    requires b > 0.0 && d > 0.0 && a * d <= c * b
    ensures a / b <= c / d
  {
    var x, y := a / b, c / d;
    assert x * b == a && y * d == c;
    assert (x * b) * d == x * (b * d) && (y * d) * b == y * (b * d);
    ScaleOrder(0.0, d, b);
    ScaleOrder(y, x, b * d);
  }

  lemma EarlyShare(x: real, d: real, h: real, e: real)
    requires h > 0.0 && d == 1.9 * h && x * d == h + e
    ensures x < 0.525 <==> h + e < 0.9975 * h
  {
    assert 0.525 * d == 0.9975 * h;
    ScaleOrder(x, 0.525, d);
  }

  /** The discovery stage reports at least 53 per cent exactly if it is not taken to have begun too late. */
  lemma DiscoveryAtLeast53Exactly(h: real, e: real)
    requires h > 0.0
    ensures 53 <= Round(DiscoveryTotal(h, e)) <==> -h <= e * 400.0
  {
    var x, d := (h + e) / DiscoveryTime(h, e), DiscoveryTime(h, e);
    assert x * d == h + e;
    RoundBelow(x * 100.0, 52);
    if e > h * DISCOVERY_PERCENTAGE {
      FractionOrder(1.8, 1.9, h + e, d);
    } else {
      EarlyShare(x, d, h, e);
      assert DiscoveryTotal(h, e) == x * 100.0;
    }
  }

  lemma DiscoveryAtMost100(h: real, e: real)
    requires h > 0.0
    ensures Round(DiscoveryTotal(h, e)) <= 100
  {
    var d := DiscoveryTime(h, e);
    FractionOrder(h + e, d, 1.0, 1.0);
    RoundOrdered(DiscoveryTotal(h, e), 100.0);
  }

  /** The discovery stage never goes back while time passes, also where the estimate changes its form. */
  lemma DiscoveryOrdered(h: real, e: real, later: real)
    requires h > 0.0 && e <= later
    ensures Round(DiscoveryTotal(h, e)) <= Round(DiscoveryTotal(h, later))
  {
    var b, d := DiscoveryTime(h, e), DiscoveryTime(h, later);
    assert (h + e) * d <= (h + later) * b by {
      CrossProducts(h, e, later);
    }
    FractionOrder(h + e, b, h + later, d);
    RoundOrdered(DiscoveryTotal(h, e), DiscoveryTotal(h, later));
  }

  lemma CrossProducts(h: real, e: real, f: real)
    requires h > 0.0 && e <= f
    ensures (h + e) * DiscoveryTime(h, f) <= (h + f) * DiscoveryTime(h, e)
  {
    if f <= h * DISCOVERY_PERCENTAGE {
      var x, y, time := h + e, h + f, DiscoveryTime(h, e);
      assert DiscoveryTime(h, f) == time;
      NonNegative(y - x, time);
      assert (y - x) * time == y * time - x * time;
    } else if e <= h * DISCOVERY_PERCENTAGE {
      var x, y := h + e, h + f;
      assert DiscoveryTime(h, f) == y + 0.1 * h && DiscoveryTime(h, e) == 1.9 * h;
      assert y * (1.9 * h) - x * (y + 0.1 * h) == y * (1.8 * h - x) + 0.1 * h * (y - x);
      NonNegative(y, 1.8 * h - x);
      NonNegative(0.1 * h, y - x);
    } else {
      var x, y := h + e, h + f;
      assert DiscoveryTime(h, f) == y + 0.1 * h && DiscoveryTime(h, e) == x + 0.1 * h;
      assert y * (x + 0.1 * h) - x * (y + 0.1 * h) == 0.1 * h * (y - x);
      NonNegative(0.1 * h, y - x);
    }
  }

  /**
   Stage one stays at or below stage two, and stage two goes forward, for any part of the headers up to
   all of them, any times taken by either stage, and any two moments of the second.
   */
  lemma NeverFallsBack(p: real, t: real, h: real, e: real, later: real)
    requires 0.0 < p <= 1.0 && t >= 1.0 && h > 0.0 && 0.0 <= e <= later
    ensures 0 <= Round(HeadersTotal(p, t)) <= 53 <= Round(DiscoveryTotal(h, e))
    ensures Round(DiscoveryTotal(h, e)) <= Round(DiscoveryTotal(h, later)) <= 100
  {
    HeadersAtMost53Exactly(p, t);
    DiscoveryAtLeast53Exactly(h, e);
    DiscoveryOrdered(h, e, later);
    DiscoveryAtMost100(h, later);
  }

  /** The estimate comes to a number: something is expected, and not exactly a third of what was fetched. */
  predicate Estimable(fetched: nat, total: int) {
    total != 0 && fetched != 3 * total
  }

  /** What the header stage reports: with nothing fetched the estimate is infinite, and its share zero. */
  function HeadersReport(fetched: nat, total: int, t: real): int
    requires Estimable(fetched, total) && t >= 1.0
  {
    if fetched == 0 then 0 else
      DivisionKeeps(fetched, total);
      Round(HeadersTotal(fetched as real / total as real, t))
  }

  lemma DivisionKeeps(fetched: nat, total: int)
    requires Estimable(fetched, total)
    ensures fetched as real / total as real != 3.0
    ensures fetched > 0 ==> fetched as real / total as real != 0.0
  {
    var p := fetched as real / total as real;
    assert p * total as real == fetched as real;
    assert p == 3.0 ==> (3 * total) as real == fetched as real;
  }

  /** The part of the headers fetched is in range, in whole numbers. */
  predicate PartInRange(fetched: nat, total: int) {
    if total > 0 then 6033 * fetched < 6099 * total else 3981 * fetched < -57 * total
  }

  lemma ScaleBy(p: real, n: real, whole: real, k: real)
    requires p * n == whole
    ensures (p * k) * n == whole * k
  {
    MulAssoc(k, p, n);
  }

  lemma PartBelow(p: real, fetched: nat, total: int, k: int, bound: int)
    requires total != 0 && p * total as real == fetched as real
    ensures p * k as real < bound as real
       <==> if total > 0 then k * fetched < bound * total else bound * total < k * fetched
  {
    var n := total as real;
    ScaleBy(p, n, fetched as real, k as real);
    assert fetched as real * k as real == (k * fetched) as real && bound as real * n == (bound * total) as real;
    if total > 0 {
      ScaleOrder(p * k as real, bound as real, n);
    } else {
      FlipOrder(p * k as real, bound as real, n);
    }
  }

  lemma PartAbove(p: real, fetched: nat, total: int, k: int, bound: int)
    requires total != 0 && p * total as real == fetched as real
    ensures bound as real < p * k as real
       <==> if total > 0 then bound * total < k * fetched else k * fetched < bound * total
  {
    var n := total as real;
    ScaleBy(p, n, fetched as real, k as real);
    assert fetched as real * k as real == (k * fetched) as real && bound as real * n == (bound * total) as real;
    if total > 0 {
      ScaleOrder(bound as real, p * k as real, n);
    } else {
      FlipOrder(bound as real, p * k as real, n);
    }
  }

  lemma PartRange(fetched: nat, total: int)
    requires total != 0 && fetched > 0
    ensures InRange(fetched as real / total as real) <==> PartInRange(fetched, total)
  {
    var p := fetched as real / total as real;
    PartBelow(p, fetched, total, 6033, 6099);
    PartAbove(p, fetched, total, 3981, -57);
    assert InRange(p) <==> -57 as real < p * 3981 as real && p * 6033 as real < 6099 as real;
  }

  lemma HeadersReportExactly(fetched: nat, total: int, t: real)
    requires Estimable(fetched, total) && t >= 1.0
    ensures 0 <= HeadersReport(fetched, total, t) <= 53 <==> PartInRange(fetched, total)
  {
    if fetched > 0 {
      DivisionKeeps(fetched, total);
      HeadersAtMost53Exactly(fetched as real / total as real, t);
      PartRange(fetched, total);
    }
  }

  /** n is within a half of a / b. */
  ghost predicate IsNearest(n: int, a: real, b: real) {
    b != 0.0 && a / b - 0.5 <= n as real <= a / b + 0.5
  }

  /** The report is the nearest integer to a plain fraction of the two counts; 0 if nothing is fetched. */
  lemma HeadersReportIs(fetched: nat, total: int, t: real)
    requires Estimable(fetched, total) && t >= 1.0
    ensures 2.85 * total as real - 0.95 * fetched as real != 0.0
    ensures var exact := fetched as real * 100.0 / (2.85 * total as real - 0.95 * fetched as real);
            exact - 0.5 <= HeadersReport(fetched, total, t) as real <= exact + 0.5
    ensures fetched == 0 ==> HeadersReport(fetched, total, t) == 0
  {
    var d := 2.85 * total as real - 0.95 * fetched as real;
    assert d == 0.95 * (3 * total - fetched) as real;
    if fetched > 0 {
      DivisionKeeps(fetched, total);
      var p, n := fetched as real / total as real, total as real;
      HeadersTotalShare(p, t);
      var x := HeadersTotal(p, t);
      assert x * d == fetched as real * 100.0 by {
        assert p * n == fetched as real;
        MulAssoc(x, 2.85 - 0.95 * p, n);
        assert (2.85 - 0.95 * p) * n == d;
      }
      Cancel(x, fetched as real * 100.0 / d, d);
      RoundIsNearest(x);
    }
  }

  /** Past its switch and before it, the discovery report is the nearest integer to a plain fraction. */
  lemma DiscoveryReportIs(h: real, e: real)
    requires h > 0.0
    ensures e <= 0.8 * h ==> (h + e) * 100.0 / (1.9 * h) - 0.5 <= Round(DiscoveryTotal(h, e)) as real
                             <= (h + e) * 100.0 / (1.9 * h) + 0.5
    ensures e > 0.8 * h ==> (h + e) * 100.0 / (1.1 * h + e) - 0.5 <= Round(DiscoveryTotal(h, e)) as real
                            <= (h + e) * 100.0 / (1.1 * h + e) + 0.5
  {
    var d := DiscoveryTime(h, e);
    assert d == if e > 0.8 * h then 1.1 * h + e else 1.9 * h;
    assert (h + e) / d * 100.0 * d == (h + e) * 100.0;
    Cancel((h + e) / d * 100.0, (h + e) * 100.0 / d, d);
    RoundIsNearest(DiscoveryTotal(h, e));
  }

  /**
   Two reports outside their stage: two headers fetched where one is expected, the last header's time being
   ahead of the clock, and discovery taken to begin a second from now.
   */
  lemma ClocksThatDisagree()
    ensures !(0 <= HeadersReport(2, 1, 1.0) <= 53)
    ensures Round(DiscoveryTotal(150.0, -1.0)) < 53
  {
    HeadersReportExactly(2, 1, 1.0);
    DiscoveryAtLeast53Exactly(150.0, -1.0);
  }

  /** The part of the sync data that the two stages update; -1 stands for a time not known yet. */
  class ActiveSyncData {
    var beginFetchTimeStamp: int
    var startHeaderHeight: int
    var totalFetchedHeadersCount: int
    var headersFetchTimeSpent: int
    var addressDiscoveryStartTime: int
    var totalInactiveSeconds: int
    var headersTotalProgress: int
    var discoveryTotalProgress: int

    ghost predicate Valid()
      reads this
    {
      && (headersFetchTimeSpent == -1 ==> startHeaderHeight >= 0)
      && (headersFetchTimeSpent == -1 || headersFetchTimeSpent >= MIN_HEADERS_TIME)
      && totalFetchedHeadersCount >= 0
      && discoveryTotalProgress <= 100
    }

    constructor ()
      ensures Valid() && headersFetchTimeSpent == -1 && beginFetchTimeStamp == -1
      ensures headersTotalProgress == 0 && discoveryTotalProgress == 0
    {
      beginFetchTimeStamp, headersFetchTimeSpent, addressDiscoveryStartTime := -1, -1, -1;
      startHeaderHeight, totalFetchedHeadersCount, totalInactiveSeconds := 0, 0, 0;
      headersTotalProgress, discoveryTotalProgress := 0, 0;
    }

    method FetchHeadersStarted(lowestBlockHeight: nat, now: int)
      requires Valid() && (beginFetchTimeStamp == -1 ==> headersFetchTimeSpent == -1)
      modifies this`beginFetchTimeStamp, this`startHeaderHeight, this`totalFetchedHeadersCount
      ensures Valid()
      ensures old(beginFetchTimeStamp) != -1 ==>
                && beginFetchTimeStamp == old(beginFetchTimeStamp) && startHeaderHeight == old(startHeaderHeight)
                && totalFetchedHeadersCount == old(totalFetchedHeadersCount)
      ensures old(beginFetchTimeStamp) == -1 ==>
                beginFetchTimeStamp == now && startHeaderHeight == lowestBlockHeight && totalFetchedHeadersCount == 0
    {
      if beginFetchTimeStamp != -1 {
        return;
      }
      beginFetchTimeStamp, startHeaderHeight, totalFetchedHeadersCount := now, lowestBlockHeight, 0;
    }

    /**
     Reports for a header at lastHeight with headersLeft estimated to come, fewer than none if the header's time
     is ahead of the clock. The report does not depend on the clock otherwise, and lies in [0, 53] exactly if the
     part of the headers is in range; where the estimate is no number, undefined stands for what is reported.
     */
    method FetchHeadersProgress(lastHeight: nat, headersLeft: int, now: int, undefined: int)
      requires Valid()
      modifies this`beginFetchTimeStamp, this`totalFetchedHeadersCount, this`totalInactiveSeconds,
               this`headersTotalProgress
      ensures Valid()
      ensures old(headersFetchTimeSpent) != -1 ==>
                && headersTotalProgress == old(headersTotalProgress)
                && totalFetchedHeadersCount == old(totalFetchedHeadersCount)
                && beginFetchTimeStamp == old(beginFetchTimeStamp)
                && totalInactiveSeconds == old(totalInactiveSeconds)
      ensures old(headersFetchTimeSpent) == -1 ==>
                && totalFetchedHeadersCount == (if lastHeight > startHeaderHeight then lastHeight - startHeaderHeight
                                                else old(totalFetchedHeadersCount))
                && beginFetchTimeStamp == old(beginFetchTimeStamp) + old(totalInactiveSeconds)
                && totalInactiveSeconds == 0
      ensures old(headersFetchTimeSpent) == -1 ==>
                var total := lastHeight + headersLeft;
                if Estimable(totalFetchedHeadersCount, total) then
                  && headersTotalProgress == HeadersReport(totalFetchedHeadersCount, total, 1.0)
                  && (0 <= headersTotalProgress <= 53 <==> PartInRange(totalFetchedHeadersCount, total))
                  && IsNearest(headersTotalProgress, totalFetchedHeadersCount as real * 100.0,
                               2.85 * total as real - 0.95 * totalFetchedHeadersCount as real)
                else headersTotalProgress == undefined
      ensures old(headersFetchTimeSpent) == -1 && headersLeft >= 0 && lastHeight > startHeaderHeight ==>
                0 <= headersTotalProgress <= 53
    {
      if headersFetchTimeSpent != -1 {
        return;
      }
      if lastHeight > startHeaderHeight {
        totalFetchedHeadersCount := lastHeight - startHeaderHeight;
      }
      var totalHeadersToFetch := lastHeight + headersLeft;
      beginFetchTimeStamp := beginFetchTimeStamp + totalInactiveSeconds;
      totalInactiveSeconds := 0;
      var timeTaken := now - beginFetchTimeStamp;
      if timeTaken < 1 {
        timeTaken := 1;
      }
      headersTotalProgress := undefined;
      if Estimable(totalFetchedHeadersCount, totalHeadersToFetch) {
        headersTotalProgress := HeadersReport(totalFetchedHeadersCount, totalHeadersToFetch, timeTaken as real);
        ReportIgnoresTime(totalFetchedHeadersCount, totalHeadersToFetch, timeTaken as real, 1.0);
        HeadersReportExactly(totalFetchedHeadersCount, totalHeadersToFetch, 1.0);
        HeadersReportIs(totalFetchedHeadersCount, totalHeadersToFetch, 1.0);
      }
    }

    method FetchHeadersFinished(now: int)
      requires Valid()
      modifies this`startHeaderHeight, this`totalFetchedHeadersCount, this`headersFetchTimeSpent,
               this`totalInactiveSeconds
      ensures Valid() && headersFetchTimeSpent >= MIN_HEADERS_TIME && totalInactiveSeconds == 0
      ensures startHeaderHeight == -1 && totalFetchedHeadersCount == 0
      ensures now - beginFetchTimeStamp - old(totalInactiveSeconds) >= MIN_HEADERS_TIME ==>
                headersFetchTimeSpent == now - beginFetchTimeStamp - old(totalInactiveSeconds)
      ensures now - beginFetchTimeStamp - old(totalInactiveSeconds) < 150 ==> headersFetchTimeSpent == 150
    {
      startHeaderHeight, totalFetchedHeadersCount := -1, 0;
      headersFetchTimeSpent := now - beginFetchTimeStamp;
      headersFetchTimeSpent := headersFetchTimeSpent - totalInactiveSeconds;
      totalInactiveSeconds := 0;
      if headersFetchTimeSpent < MIN_HEADERS_TIME {
        headersFetchTimeSpent := MIN_HEADERS_TIME;
      }
    }

    /**
     One tick of the discovery progress. It falls below the header stage exactly if reported inactivity puts
     the start of discovery in the future, by more than a 400th of the header time.
     */
    method UpdateAddressDiscoveryProgress(now: int)
      requires Valid() && headersFetchTimeSpent != -1
      modifies this`addressDiscoveryStartTime, this`totalInactiveSeconds, this`discoveryTotalProgress
      ensures Valid() && totalInactiveSeconds == 0
      ensures addressDiscoveryStartTime == old(addressDiscoveryStartTime) + old(totalInactiveSeconds)
      ensures discoveryTotalProgress
           == Round(DiscoveryTotal(headersFetchTimeSpent as real, (now - addressDiscoveryStartTime) as real))
      ensures var h, e := headersFetchTimeSpent as real, (now - addressDiscoveryStartTime) as real;
              IsNearest(discoveryTotalProgress, (h + e) * 100.0, if e > 0.8 * h then 1.1 * h + e else 1.9 * h)
      ensures 53 <= discoveryTotalProgress <==> -headersFetchTimeSpent <= (now - addressDiscoveryStartTime) * 400
    {
      addressDiscoveryStartTime := addressDiscoveryStartTime + totalInactiveSeconds;
      totalInactiveSeconds := 0;
      var h, e := headersFetchTimeSpent as real, (now - addressDiscoveryStartTime) as real;
      discoveryTotalProgress := Round(DiscoveryTotal(h, e));
      DiscoveryAtMost100(h, e);
      DiscoveryReportIs(h, e);
      DiscoveryAtLeast53Exactly(h, e);
      assert -h <= e * 400.0 <==> (-headersFetchTimeSpent) as real <= ((now - addressDiscoveryStartTime) * 400) as real;
    }
  }

  lemma ReportIgnoresTime(fetched: nat, total: int, t: real, u: real)
    requires Estimable(fetched, total) && t >= 1.0 && u >= 1.0
    ensures HeadersReport(fetched, total, t) == HeadersReport(fetched, total, u)
  {
    if fetched > 0 {
      DivisionKeeps(fetched, total);
      var p := fetched as real / total as real;
      HeadersOrdered(p, t, p, u);
      HeadersOrdered(p, u, p, t);
    }
  }
}
