/** What recent cycles and snapshots say about the system, for the prompt of the language model. */
module Contexts {
  import opened Options
  import opened Records
  import opened Sequences

  const ALERT: string := "alert"

  // ----- cycles

  function CountAction(cycles: seq<CycleRecord>, action: string): nat {
    if cycles == [] then 0
    else CountAction(cycles[..|cycles| - 1], action) + if cycles[|cycles| - 1].action == action then 1 else 0
  }

  /** The analyses of the alert cycles, oldest first. */
  function AlertAnalyses(cycles: seq<CycleRecord>): seq<string> {
    if cycles == [] then []
    else
      AlertAnalyses(cycles[..|cycles| - 1])
      + if cycles[|cycles| - 1].action == ALERT then [cycles[|cycles| - 1].analysis] else []
  }

  /** What the context calls the recent alerts. */
  function FirstThree(all: seq<string>): seq<string> {
    if |all| <= 3 then all else all[..3]
  }

  /** Percentage of alert cycles. */
  function AlertRate(cycles: seq<CycleRecord>): real {
    if cycles == [] then 0.0 else CountAction(cycles, ALERT) as real / |cycles| as real * 100.0
  }

  ghost predicate AlertFree(cycles: seq<CycleRecord>) {
    forall i :: 0 <= i < |cycles| ==> cycles[i].action != ALERT
  }

  /** How many cycles have passed since the last alert cycle. */
  function Streak(cycles: seq<CycleRecord>): (streak: nat)
    ensures streak <= |cycles|
    ensures forall i :: |cycles| - streak <= i < |cycles| ==> cycles[i].action != ALERT
    ensures streak < |cycles| ==> cycles[|cycles| - streak - 1].action == ALERT
  {
    if cycles == [] || cycles[|cycles| - 1].action == ALERT then 0 else 1 + Streak(cycles[..|cycles| - 1])
  }

  /** The positions of the cycles with a given action. */
  ghost function Where(cycles: seq<CycleRecord>, action: string): set<int> {
    set i | 0 <= i < |cycles| && cycles[i].action == action
  }

  lemma OneMoreWhere(cycles: seq<CycleRecord>, action: string)
    requires cycles != []
    ensures var n, before := |cycles| - 1, Where(cycles[..|cycles| - 1], action);
            && n !in before
            && Where(cycles, action) == if cycles[n].action == action then before + {n} else before
  {
    var n := |cycles| - 1;
    assert forall i :: 0 <= i < n ==> cycles[..n][i] == cycles[i];
  }

  lemma {:induction false} CountIsSize(cycles: seq<CycleRecord>, action: string)
    ensures CountAction(cycles, action) == |Where(cycles, action)|
  {
    if cycles != [] {
      CountIsSize(cycles[..|cycles| - 1], action);
      OneMoreWhere(cycles, action);
    }
  }

  /** The positions `where` ascend and are those of the alert cycles, whose analyses are `all`. */
  ghost predicate AreAlerts(all: seq<string>, where: seq<nat>, cycles: seq<CycleRecord>) {
    && |all| == |where|
    && (forall k :: 0 <= k < |where| ==> where[k] < |cycles| && all[k] == cycles[where[k]].analysis)
    && (forall j, k :: 0 <= j < k < |where| ==> where[j] < where[k])
    && (forall i :: 0 <= i < |cycles| ==> (i in where <==> cycles[i].action == "alert"))
  }

  lemma OneMoreCycle(all: seq<string>, where: seq<nat>, before: seq<CycleRecord>, cycle: CycleRecord)
    requires AreAlerts(all, where, before)
    ensures if cycle.action == ALERT then AreAlerts(all + [cycle.analysis], where + [|before|], before + [cycle])
            else AreAlerts(all, where, before + [cycle])
  {
    var n, cycles, longer := |before|, before + [cycle], where + [|before|];
    assert n !in where;
    forall i | 0 <= i < |cycles|
      ensures i in longer <==> i in where || i == n
      ensures i < n ==> cycles[i] == before[i]
    {
      assert longer[|where|] == n;
    }
  }

  lemma {:induction false} AlertAnalysesAre(cycles: seq<CycleRecord>) returns (where: seq<nat>)
    ensures AreAlerts(AlertAnalyses(cycles), where, cycles)
  {
    if cycles == [] {
      return [];
    }
    var n := |cycles| - 1;
    where := AlertAnalysesAre(cycles[..n]);
    OneMoreCycle(AlertAnalyses(cycles[..n]), where, cycles[..n], cycles[n]);
    assert cycles[..n] + [cycles[n]] == cycles;
    if cycles[n].action == ALERT {
      where := where + [n];
    } else {
      assert AlertAnalyses(cycles) == AlertAnalyses(cycles[..n]);
    }
  }

  /** The analyses of the first three alert cycles, or of all if there are fewer. */
  ghost predicate AreRecent(recent: seq<string>, cycles: seq<CycleRecord>, all: seq<string>, where: seq<nat>) {
    AreAlerts(all, where, cycles) && recent == if |all| < 3 then all else all[..3]
  }

  lemma {:induction false} CountsAlerts(cycles: seq<CycleRecord>)
    ensures |AlertAnalyses(cycles)| == CountAction(cycles, ALERT)
    ensures CountAction(cycles, ALERT) == 0 <==> AlertFree(cycles)
  {
    if cycles != [] {
      CountsAlerts(cycles[..|cycles| - 1]);
    }
  }

  lemma RateTimesCount(n: real, total: real)
    requires total > 0.0
    ensures n / total * 100.0 * total == 100.0 * n
  {
    var share := n / total;
    assert share * total == n;
    assert share * 100.0 * total == share * total * 100.0;
  }

  /** The alert rate is a hundred times the number of alert cycles over the number of all, and 0 for none. */
  lemma AlertRateIs(cycles: seq<CycleRecord>)
    ensures if cycles == [] then AlertRate(cycles) == 0.0
            else AlertRate(cycles) * |cycles| as real == 100.0 * |Where(cycles, "alert")| as real
  {
    CountIsSize(cycles, ALERT);
    if cycles != [] {
      RateTimesCount(CountAction(cycles, ALERT) as real, |cycles| as real);
    }
  }

  /** The recent alerts are the analyses of the first three alert cycles. */
  lemma RecentAlertsAre(cycles: seq<CycleRecord>) returns (all: seq<string>, where: seq<nat>)
    ensures AreRecent(FirstThree(AlertAnalyses(cycles)), cycles, all, where)
  {
    all := AlertAnalyses(cycles);
    where := AlertAnalysesAre(cycles);
  }

  lemma StreakIsWhole(cycles: seq<CycleRecord>)
    ensures Streak(cycles) == |cycles| <==> AlertFree(cycles)
  {
  }

  lemma ShareIsZero(n: nat, total: nat)
    requires total > 0
    ensures n as real / total as real * 100.0 == 0.0 <==> n == 0
  {
    var share := n as real / total as real;
    assert share * total as real == n as real;
  }

  lemma RateIsZero(cycles: seq<CycleRecord>)
    ensures AlertRate(cycles) == 0.0 <==> AlertFree(cycles)
  {
    CountsAlerts(cycles);
    if cycles != [] {
      ShareIsZero(CountAction(cycles, ALERT), |cycles|);
    }
  }

  lemma NoRecentAlert(cycles: seq<CycleRecord>)
    ensures FirstThree(AlertAnalyses(cycles)) == [] <==> AlertFree(cycles)
  {
    CountsAlerts(cycles);
  }

  /** The three stability signals agree: no alert rate, a streak as long as the window, no recent alert. */
  lemma StabilitySignalsAgree(cycles: seq<CycleRecord>)
    ensures AlertRate(cycles) == 0.0 <==> Streak(cycles) == |cycles|
    ensures Streak(cycles) == |cycles| <==> FirstThree(AlertAnalyses(cycles)) == []
  {
    StreakIsWhole(cycles);
    assert AlertRate(cycles) == 0.0 <==> AlertFree(cycles) by {
      RateIsZero(cycles);
    }
    NoRecentAlert(cycles);
  }

  ghost predicate Distinct(all: seq<string>) {
    forall i, j :: 0 <= i < j < |all| ==> all[i] != all[j]
  }

  /**
   The recent alerts are the three latest ones when there are at most three; when there are more, and no two say the
   same, they never are, and the latest alert of all is not among them.
   */
  lemma RecentAlertsIff(cycles: seq<CycleRecord>)
    ensures var alerts := AlertAnalyses(cycles);
            && (CountAction(cycles, ALERT) <= 3 ==> FirstThree(alerts) == Suffix(alerts, 3))
            && (Distinct(alerts) ==> (FirstThree(alerts) == Suffix(alerts, 3) <==> CountAction(cycles, ALERT) <= 3))
            && (Distinct(alerts) && CountAction(cycles, ALERT) > 3 ==> alerts[|alerts| - 1] !in FirstThree(alerts))
  {
    CountsAlerts(cycles);
    var alerts := AlertAnalyses(cycles);
    if |alerts| > 3 && Distinct(alerts) {
      assert FirstThree(alerts)[0] == alerts[0] && Suffix(alerts, 3)[0] == alerts[|alerts| - 3];
    }
  }

  lemma StreakIs(cycles: seq<CycleRecord>, n: nat)
    requires n <= |cycles|
    requires forall i :: |cycles| - n <= i < |cycles| ==> cycles[i].action != ALERT
    requires n < |cycles| ==> cycles[|cycles| - n - 1].action == ALERT
    ensures Streak(cycles) == n
  {
  }

  method StableStreak(cycles: seq<CycleRecord>) returns (streak: nat)
    ensures streak == Streak(cycles)
    ensures streak <= |cycles| && forall i :: |cycles| - streak <= i < |cycles| ==> cycles[i].action != "alert"
    ensures streak < |cycles| ==> cycles[|cycles| - streak - 1].action == "alert"
  {
    streak := 0;
    var i := |cycles| - 1;
    while i >= 0
      invariant -1 <= i < |cycles| && streak == |cycles| - 1 - i
      invariant forall k :: i < k < |cycles| ==> cycles[k].action != ALERT
    {
      if cycles[i].action == ALERT {
        break;
      }
      streak := streak + 1;
      i := i - 1;
    }
    StreakIs(cycles, streak);
  }

  method CountActions(cycles: seq<CycleRecord>) returns (counts: map<string, nat>)
    ensures forall a :: CountAction(cycles, a) == if a in counts then counts[a] else 0
    ensures forall a :: a in counts ==> counts[a] > 0
    ensures cycles != [] ==> counts != map[]
  {
    counts := map[];
    for k := 0 to |cycles|
      invariant forall a :: CountAction(cycles[..k], a) == if a in counts then counts[a] else 0
      invariant forall a :: a in counts ==> counts[a] > 0
      invariant k > 0 ==> counts != map[]
    {
      var a := cycles[k].action;
      assert cycles[..k + 1][..k] == cycles[..k];
      counts := counts[a := (if a in counts then counts[a] else 0) + 1];
      assert a in counts;
    }
    assert cycles[..|cycles|] == cycles;
  }

  /** A key with the greatest count; which one of several is left to the iteration order of the map. */
  method DominantKey(counts: map<string, nat>) returns (best: string)
    requires forall a :: a in counts ==> counts[a] > 0
    ensures counts == map[] ==> best == ""
    ensures counts != map[] ==> best in counts && forall a :: a in counts ==> counts[a] <= counts[best]
  {
    best := "";
    var max := 0;
    var left := counts.Keys;
    while left != {}
      invariant left <= counts.Keys
      invariant forall a :: a in counts && a !in left ==> counts[a] <= max
      invariant if max == 0 then best == "" && left == counts.Keys else best in counts && counts[best] == max
      decreases left
    {
      var k :| k in left;
      if counts[k] > max {
        max := counts[k];
        best := k;
      }
      left := left - {k};
    }
    assert counts != map[] ==> exists a :: a in counts;
  }

  // ----- snapshots

  /** The mean change from one value to the next, computed from the two ends only. */
  function SlopeOf(values: seq<real>): real {
    if |values| < 2 then 0.0 else (values[|values| - 1] - values[0]) / (|values| - 1) as real
  }

  /** The cycles left until the threshold at the present slope, if that is between now and 100 cycles ahead. */
  function Forecast(values: seq<real>, threshold: real): Option<real> {
    if |values| < 3 then None
    else
      var current := values[|values| - 1];
      if current >= threshold then None
      else
        var delta := SlopeOf(values);
        if delta <= 0.0 then None
        else
          var remaining := (threshold - current) / delta;
          if remaining > 100.0 then None else Some(remaining)
  }

  function SumOfChanges(values: seq<real>): real {
    if |values| < 2 then 0.0
    else SumOfChanges(values[..|values| - 1]) + (values[|values| - 1] - values[|values| - 2])
  }

  lemma {:induction false} ChangesTelescope(values: seq<real>)
    requires |values| >= 1
    ensures SumOfChanges(values) == values[|values| - 1] - values[0]
  {
    if |values| > 1 {
      ChangesTelescope(values[..|values| - 1]);
    }
  }

  /** The slope read off the two ends is the average of all the changes in between. */
  lemma {:induction false} SlopeIsMeanChange(values: seq<real>)
    requires |values| >= 2
    ensures SlopeOf(values) == SumOfChanges(values) / (|values| - 1) as real
  {
    ChangesTelescope(values);
  }

  lemma Quotient(distance: real, delta: real)
    requires delta > 0.0
    ensures (distance / delta) * delta == distance
    ensures distance / delta > 100.0 <==> distance > 100.0 * delta
  {
  }

  /** There is a forecast exactly when the threshold is not reached yet but is within 100 more steps of the slope. */
  ghost predicate IsForecast(r: Option<real>, values: seq<real>, threshold: real)
    requires |values| >= 3
  {
    var current := values[|values| - 1];
    && (r.Some? <==> current < threshold <= current + 100.0 * SlopeOf(values))
    && (r.Some? ==> 0.0 < r.value && current + r.value * SlopeOf(values) == threshold)
  }

  lemma ForecastIff(values: seq<real>, threshold: real)
    requires |values| >= 3
    ensures IsForecast(Forecast(values, threshold), values, threshold)
  {
    var current := values[|values| - 1];
    var delta := SlopeOf(values);
    if delta > 0.0 {
      Quotient(threshold - current, delta);
      var r := (threshold - current) / delta;
      assert r <= 0.0 ==> r * delta <= 0.0;
    }
  }

  /** A metric that grows by `delta` at every snapshot. */
  ghost predicate IsProgression(values: seq<real>, delta: real) {
    forall i :: 0 <= i < |values| ==> values[i] == values[0] + i as real * delta
  }

  lemma SlopeOfProgression(values: seq<real>, delta: real)
    requires |values| >= 2 && IsProgression(values, delta)
    ensures SlopeOf(values) == delta
  {
    var n := |values| - 1;
    assert values[n] == values[0] + n as real * delta;
    assert (n as real * delta) / n as real == delta;
  }

  lemma Crossing(first: real, n: real, k: real, r: real, delta: real)
    requires delta > 0.0
    ensures first + (n + k) * delta >= first + n * delta + r * delta <==> k >= r
  {
    assert (n + k) * delta == n * delta + k * delta;
    assert k * delta - r * delta == (k - r) * delta;
    assert k > r ==> (k - r) * delta > 0.0;
    assert k < r ==> (r - k) * delta > 0.0;
  }

  /** On a steadily growing metric `k` more cycles reach the threshold exactly when k is at least the forecast. */
  lemma {:induction false} ForecastIsCrossing(values: seq<real>, delta: real, threshold: real, k: nat)
    requires |values| >= 3 && IsProgression(values, delta)
    requires Forecast(values, threshold).Some?
    ensures values[0] + (|values| - 1 + k) as real * delta >= threshold
       <==> k as real >= Forecast(values, threshold).value
  {
    SlopeOfProgression(values, delta);
    ForecastIff(values, threshold);
    var n := |values| - 1;
    assert values[n] == values[0] + n as real * delta;
    var r := Forecast(values, threshold).value;
    assert threshold == values[n] + r * SlopeOf(values);
    assert threshold == values[0] + n as real * delta + r * delta;
    Crossing(values[0], n as real, k as real, r, delta);
    assert (n + k) as real == n as real + k as real;
  }

  /** The sum of some values, added up in order. */
  function Sum(values: seq<real>): real {
    if values == [] then 0.0 else Sum(values[..|values| - 1]) + values[|values| - 1]
  }

  /** The mean of some values, 0 for none. */
  function Mean(values: seq<real>): real {
    if values == [] then 0.0 else Sum(values) / |values| as real
  }

  method Average(values: seq<real>) returns (mean: real)
    ensures mean == Mean(values)
    ensures values == [] ==> mean == 0.0
    ensures values != [] ==> mean * |values| as real == Sum(values)
  {
    if |values| == 0 {
      return 0.0;
    }
    var sum := 0.0;
    for k := 0 to |values|
      invariant sum == Sum(values[..k])
    {
      assert values[..k + 1][..k] == values[..k];
      sum := sum + values[k];
    }
    assert values[..|values|] == values;
    mean := sum / |values| as real;
  }

  // ----- trends

  datatype Trend =
    | InsufficientData
    | Critical(current: real)
    | Elevated(current: real)
    | Rising(first: real, last: real)
    | Falling(first: real, last: real)
    | Stable(current: real)

  /** The trend of a metric: how close its last value is to the threshold, else how its two halves compare. */
  function TrendOf(values: seq<real>, threshold: real): Trend {
    if |values| < 3 then InsufficientData
    else
      var first := Mean(values[..|values| / 2]);
      var last := Mean(values[|values| / 2..]);
      var current := values[|values| - 1];
      if current >= threshold then Critical(current)
      else if current >= threshold * 0.85 then Elevated(current)
      else if last - first > 10.0 then Rising(first, last)
      else if last - first < -10.0 then Falling(first, last)
      else Stable(current)
  }

  /**
   Of each trend exactly when it is seen and with which numbers: the last value decides before the halves do, and fewer
   than three values show none.
   */
  ghost predicate IsTrend(trend: Trend, values: seq<real>, threshold: real) {
    && (trend.InsufficientData? <==> |values| < 3)
    && (|values| >= 3 ==>
          var current, h := values[|values| - 1], |values| / 2;
          var first, last := Mean(values[..h]), Mean(values[h..]);
          var low := current < threshold && current < threshold * 0.85;
          && (trend.Critical? <==> current >= threshold)
          && (trend.Elevated? <==> threshold * 0.85 <= current < threshold)
          && (trend.Rising? <==> low && last > first + 10.0)
          && (trend.Falling? <==> low && first > last + 10.0)
          && (trend.Critical? || trend.Elevated? || trend.Stable? ==> trend.current == current)
          && (trend.Rising? || trend.Falling? ==> trend.first == first && trend.last == last))
  }

  lemma TrendIs(values: seq<real>, threshold: real)
    ensures IsTrend(TrendOf(values, threshold), values, threshold)
  {
  }

  method TrendWithThreshold(values: seq<real>, threshold: real) returns (trend: Trend)
    ensures trend == TrendOf(values, threshold)
  {
    if |values| < 3 {
      return InsufficientData;
    }
    var first := Average(values[..|values| / 2]);
    var last := Average(values[|values| / 2..]);
    var diff := last - first;
    var current := values[|values| - 1];
    if current >= threshold {
      return Critical(current);
    }
    if current >= threshold * 0.85 {
      return Elevated(current);
    }
    if diff > 10.0 {
      return Rising(first, last);
    }
    if diff < -10.0 {
      return Falling(first, last);
    }
    return Stable(current);
  }

  /** The sum of a progression: its length times the mean of its two ends. */
  lemma {:induction false} SumOfProgression(values: seq<real>, first: real, delta: real)
    requires forall i :: 0 <= i < |values| ==> values[i] == first + i as real * delta
    ensures Sum(values) == |values| as real * (first + (|values| as real - 1.0) * delta / 2.0)
  {
    var n := |values|;
    if n > 0 {
      SumOfProgression(values[..n - 1], first, delta);
      assert values[n - 1] == first + (n - 1) as real * delta;
      OneMoreTerm(n as real, first, delta);
    }
  }

  lemma OneMoreTerm(n: real, first: real, delta: real)
    ensures (n - 1.0) * (first + (n - 2.0) * delta / 2.0) + (first + (n - 1.0) * delta)
         == n * (first + (n - 1.0) * delta / 2.0)
  {
  }

  lemma MeanOfProgression(values: seq<real>, first: real, delta: real)
    requires values != []
    requires forall i :: 0 <= i < |values| ==> values[i] == first + i as real * delta
    ensures Mean(values) == first + (|values| as real - 1.0) * delta / 2.0
  {
    SumOfProgression(values, first, delta);
  }

  lemma EndOfProgression(values: seq<real>, delta: real, h: nat)
    requires IsProgression(values, delta) && h < |values|
    ensures values[h] == values[0] + h as real * delta
    ensures forall i :: 0 <= i < |values[h..]| ==> values[h..][i] == values[h] + i as real * delta
  {
    forall i | 0 <= i < |values[h..]|
      ensures values[h..][i] == values[h] + i as real * delta
    {
      assert values[h..][i] == values[h + i] == values[0] + (h + i) as real * delta;
      assert (h + i) as real * delta == h as real * delta + i as real * delta;
    }
  }

  lemma HalvesDiffer(n: real, h: real, first: real, delta: real)
    ensures (first + h * delta + (n - h - 1.0) * delta / 2.0) - (first + (h - 1.0) * delta / 2.0) == n * delta / 2.0
  {
  }

  /** On a steadily changing metric the means of the two halves differ by exactly half its length times its step. */
  lemma HalvesOfProgression(values: seq<real>, delta: real)
    requires |values| >= 2 && IsProgression(values, delta)
    ensures Mean(values[|values| / 2..]) - Mean(values[..|values| / 2]) == |values| as real * delta / 2.0
  {
    var n, h := |values|, |values| / 2;
    MeanOfProgression(values[..h], values[0], delta);
    EndOfProgression(values, delta, h);
    MeanOfProgression(values[h..], values[h], delta);
    HalvesDiffer(n as real, h as real, values[0], delta);
  }

  /**
   A metric that changes by the same step at every snapshot and stays below 85 percent of its threshold is rising
   exactly when length times step exceeds 20, falling exactly when it is below -20, and stable otherwise.
   */
  lemma TrendOfProgression(values: seq<real>, delta: real, threshold: real)
    requires |values| >= 3 && IsProgression(values, delta)
    requires values[|values| - 1] < threshold && values[|values| - 1] < threshold * 0.85
    ensures TrendOf(values, threshold).Rising? <==> |values| as real * delta > 20.0
    ensures TrendOf(values, threshold).Falling? <==> |values| as real * delta < -20.0
    ensures TrendOf(values, threshold).Stable? <==> -20.0 <= |values| as real * delta <= 20.0
  {
    HalvesOfProgression(values, delta);
  }

  // ----- the context

  datatype Thresholds = Thresholds(cpu: real, ram: real, disk: real)

  datatype Diagnosis = MemoryLeak | ProcessingSurge | Overload

  const RISING: real := 2.0

  /** What the slopes of the processor and the memory say together. */
  function Correlation(cpu: seq<real>, ram: seq<real>): Option<Diagnosis> {
    if |cpu| < 3 then None
    else
      var cpuRising, ramRising := SlopeOf(cpu) > RISING, SlopeOf(ram) > RISING;
      if ramRising && !cpuRising then Some(MemoryLeak)
      else if cpuRising && !ramRising then Some(ProcessingSurge)
      else if cpuRising && ramRising then Some(Overload)
      else None
  }

  datatype Period = Night | Morning | Daytime | Evening

  function PeriodOf(hour: nat): Period {
    if hour < 6 then Night
    else if hour < 12 then Morning
    else if hour < 18 then Daytime
    else Evening
  }

  /** Days of the week count from Sunday. */
  predicate IsWeekend(weekday: nat) {
    weekday == 6 || weekday == 0
  }

  /** The changes of a metric add up to more than two points for each snapshot after the first. */
  ghost predicate Climbs(values: seq<real>)
    requires |values| >= 2
  {
    SumOfChanges(values) > 2.0 * (|values| - 1) as real
  }

  lemma MeanExceeds(total: real, n: real)
    requires n > 0.0
    ensures total / n > RISING <==> total > 2.0 * n
  {
    var mean := total / n;
    assert mean * n == total;
    assert (mean - 2.0) * n == total - 2.0 * n;
    assert mean > 2.0 <==> (mean - 2.0) * n > 0.0;
  }

  lemma {:induction false} RisingIffClimbs(values: seq<real>)
    requires |values| >= 2
    ensures SlopeOf(values) > RISING <==> Climbs(values)
  {
    SlopeIsMeanChange(values);
    MeanExceeds(SumOfChanges(values), (|values| - 1) as real);
  }

  /** The diagnosis names exactly which of the two metrics have climbed, and is missing when neither has. */
  ghost predicate IsDiagnosis(diagnosis: Option<Diagnosis>, cpu: seq<real>, ram: seq<real>)
    requires |cpu| >= 2 && |ram| >= 2
  {
    && (diagnosis == Some(MemoryLeak) <==> Climbs(ram) && !Climbs(cpu))
    && (diagnosis == Some(ProcessingSurge) <==> Climbs(cpu) && !Climbs(ram))
    && (diagnosis == Some(Overload) <==> Climbs(cpu) && Climbs(ram))
    && (diagnosis == None <==> !Climbs(cpu) && !Climbs(ram))
  }

  lemma CorrelationIff(cpu: seq<real>, ram: seq<real>)
    requires |cpu| >= 3 && |ram| >= 2
    ensures IsDiagnosis(Correlation(cpu, ram), cpu, ram)
  {
    RisingIffClimbs(cpu);
    RisingIffClimbs(ram);
  }

  /** The periods divide the day into four quarters, and the weekend is two of seven days and in one piece. */
  lemma CalendarIsEven(hour: nat, other: nat, weekday: nat)
    requires hour < 24 && other < 24 && weekday < 7
    ensures PeriodOf(hour) == PeriodOf(other) <==> hour / 6 == other / 6
    ensures PeriodOf(hour) == [Night, Morning, Daytime, Evening][hour / 6]
    ensures IsWeekend(weekday) <==> (weekday + 1) % 7 < 2
  {
  }

  /** What is read off the snapshots, for each metric and for the processor and the memory together. */
  datatype Outlook = Outlook(
    cpuTrend: Trend,
    ramTrend: Trend,
    diskTrend: Trend,
    correlation: Option<Diagnosis>,
    cpuForecast: Option<real>,
    ramForecast: Option<real>,
    diskForecast: Option<real>)

  datatype AdaptiveContext = AdaptiveContext(
    cycleCount: nat,
    dominantAction: string,
    alertRate: real,
    recentAlerts: seq<string>,
    stableStreak: nat,
    outlook: Option<Outlook>,
    timeOfDay: Period,
    isWeekend: bool)

  function Values(snapshots: seq<Snapshot>, m: Metric): seq<real> {
    seq(|snapshots|, i requires 0 <= i < |snapshots| => Value(snapshots[i], m))
  }

  /** With fewer than three snapshots nothing is said of them. */
  function OutlookOf(snapshots: seq<Snapshot>, t: Thresholds): Option<Outlook> {
    if |snapshots| < 3 then None
    else
      var cpu, ram, disk := Values(snapshots, CPU), Values(snapshots, RAM), Values(snapshots, DISK);
      Some(Outlook(TrendOf(cpu, t.cpu), TrendOf(ram, t.ram), TrendOf(disk, t.disk), Correlation(cpu, ram),
                   Forecast(cpu, t.cpu), Forecast(ram, t.ram), Forecast(disk, t.disk)))
  }

  /** The three metrics of every snapshot. */
  ghost predicate AreReadings(cpu: seq<real>, ram: seq<real>, disk: seq<real>, snapshots: seq<Snapshot>) {
    && |cpu| == |ram| == |disk| == |snapshots|
    && forall i :: 0 <= i < |snapshots| ==>
         && cpu[i] == snapshots[i].cpuPercent && ram[i] == snapshots[i].memPercent
         && disk[i] == snapshots[i].diskPercent
  }

  /** Once there are three snapshots, the trend of each metric is that of its own readings and its own threshold. */
  lemma TrendsAre(snapshots: seq<Snapshot>, cpu: seq<real>, ram: seq<real>, disk: seq<real>, t: Thresholds)
    requires AreReadings(cpu, ram, disk, snapshots)
    ensures OutlookOf(snapshots, t).Some? <==> |snapshots| >= 3
    ensures |snapshots| >= 3 ==>
              var o := OutlookOf(snapshots, t).value;
              && IsTrend(o.cpuTrend, cpu, t.cpu) && IsTrend(o.ramTrend, ram, t.ram)
              && IsTrend(o.diskTrend, disk, t.disk)
  {
    assert cpu == Values(snapshots, CPU);
    assert ram == Values(snapshots, RAM);
    assert disk == Values(snapshots, DISK);
    TrendIs(cpu, t.cpu);
    TrendIs(ram, t.ram);
    TrendIs(disk, t.disk);
  }

  /** So is its forecast, and the diagnosis is that of the processor and the memory. */
  lemma ForecastsAre(snapshots: seq<Snapshot>, cpu: seq<real>, ram: seq<real>, disk: seq<real>, t: Thresholds)
    requires AreReadings(cpu, ram, disk, snapshots) && |snapshots| >= 3
    ensures var o := OutlookOf(snapshots, t).value;
            && IsForecast(o.cpuForecast, cpu, t.cpu) && IsForecast(o.ramForecast, ram, t.ram)
            && IsForecast(o.diskForecast, disk, t.disk) && IsDiagnosis(o.correlation, cpu, ram)
  {
    assert cpu == Values(snapshots, CPU);
    assert ram == Values(snapshots, RAM);
    assert disk == Values(snapshots, DISK);
    ForecastIff(cpu, t.cpu);
    ForecastIff(ram, t.ram);
    ForecastIff(disk, t.disk);
    CorrelationIff(cpu, ram);
  }

  method AnalyzeSnapshots(snapshots: seq<Snapshot>, t: Thresholds) returns (outlook: Option<Outlook>)
    ensures outlook == OutlookOf(snapshots, t)
  {
    if |snapshots| < 3 {
      return None;
    }
    var cpu, ram, disk := Values(snapshots, CPU), Values(snapshots, RAM), Values(snapshots, DISK);
    var cpuTrend := TrendWithThreshold(cpu, t.cpu);
    var ramTrend := TrendWithThreshold(ram, t.ram);
    var diskTrend := TrendWithThreshold(disk, t.disk);
    return Some(Outlook(cpuTrend, ramTrend, diskTrend, Correlation(cpu, ram),
                        Forecast(cpu, t.cpu), Forecast(ram, t.ram), Forecast(disk, t.disk)));
  }

  method BuildAdaptiveContext(
      cycles: seq<CycleRecord>, snapshots: seq<Snapshot>, t: Thresholds, hour: nat, weekday: nat)
    returns (ctx: AdaptiveContext)
    ensures ctx.cycleCount == |cycles|
    ensures cycles == [] ==> ctx.dominantAction == ""
    ensures forall a :: CountAction(cycles, a) <= CountAction(cycles, ctx.dominantAction)
    ensures ctx.alertRate == AlertRate(cycles)
    ensures ctx.recentAlerts == FirstThree(AlertAnalyses(cycles))
    ensures ctx.stableStreak == Streak(cycles)
    ensures ctx.outlook == OutlookOf(snapshots, t)
    ensures ctx.timeOfDay == PeriodOf(hour) && ctx.isWeekend == IsWeekend(weekday)
    ensures ctx.alertRate == 0.0 <==> ctx.stableStreak == ctx.cycleCount
    ensures ctx.stableStreak == ctx.cycleCount <==> ctx.recentAlerts == []
  {
    var dominant, rate, recent: seq<string> := "", 0.0, [];
    if |cycles| > 0 {
      var counts := CountActions(cycles);
      dominant := DominantKey(counts);
      var alerts := if ALERT in counts then counts[ALERT] else 0;
      rate := alerts as real / |cycles| as real * 100.0;
      for k := 0 to |cycles|
        invariant recent == FirstThree(AlertAnalyses(cycles[..k]))
      {
        assert cycles[..k + 1][..k] == cycles[..k];
        if cycles[k].action == ALERT && |recent| < 3 {
          recent := recent + [cycles[k].analysis];
        }
      }
      assert cycles[..|cycles|] == cycles;
    }
    var outlook := AnalyzeSnapshots(snapshots, t);
    var streak := StableStreak(cycles);
    StabilitySignalsAgree(cycles);
    ctx := AdaptiveContext(|cycles|, dominant, rate, recent, streak, outlook, PeriodOf(hour), IsWeekend(weekday));
  }
}
