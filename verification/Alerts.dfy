/** Threshold alerts: a counter of consecutive high samples and a cooldown for each metric. */
module Alerts {
  import opened Records

  /** What the agent remembers of one metric: its run of high samples, its last alert and the current cycle. */
  datatype Gauge = Gauge(run: int, lastAlert: int, cycle: int)

  /** The cycle number that stands for "never alerted". */
  const NEVER: int := -999

  /** One more sample, `over` its threshold or not, and whether it raises an alert. */
  function Tick(g: Gauge, over: bool, minCycles: int, cooldown: int): (Gauge, bool) {
    var cycle := g.cycle + 1;
    var run := if over then g.run + 1 else 0;
    var fires := over && run >= minCycles && cycle - g.lastAlert >= cooldown;
    (Gauge(run, if fires then cycle else g.lastAlert, cycle), fires)
  }

  function State(h: seq<bool>, minCycles: int, cooldown: int): Gauge {
    if h == [] then Gauge(0, NEVER, 0)
    else Tick(State(h[..|h| - 1], minCycles, cooldown), h[|h| - 1], minCycles, cooldown).0
  }

  /** Which samples of a history raised an alert. */
  function Fired(h: seq<bool>, minCycles: int, cooldown: int): (fired: seq<bool>)
    ensures |fired| == |h|
  {
    if h == [] then []
    else
      var before := h[..|h| - 1];
      Fired(before, minCycles, cooldown)
      + [Tick(State(before, minCycles, cooldown), h[|h| - 1], minCycles, cooldown).1]
  }

  // ----- the declarative rule

  /** The samples of the last `minCycles` cycles up to `k` exist and are all high, sample `k` included. */
  ghost predicate HighSince(h: seq<bool>, k: nat, minCycles: int)
    requires k < |h|
  {
    h[k] && minCycles <= k + 1 && forall j :: 0 <= j <= k && k - minCycles < j ==> h[j]
  }

  /** No alert in the `cooldown - 1` cycles before `k`. */
  ghost predicate Quiet(fired: seq<bool>, k: nat, cooldown: int)
    requires k <= |fired|
  {
    forall j :: 0 <= j < k && k - cooldown < j ==> !fired[j]
  }

  ghost predicate FollowsRule(h: seq<bool>, fired: seq<bool>, minCycles: int, cooldown: int)
    requires |h| == |fired|
  {
    forall k :: 0 <= k < |h| ==> (fired[k] <==> HighSince(h, k, minCycles) && Quiet(fired, k, cooldown))
  }

  /** How many samples at the end of a history are high. */
  function TrailingRun(h: seq<bool>): (run: nat)
    ensures run <= |h|
    ensures forall j :: |h| - run <= j < |h| ==> h[j]
    ensures run < |h| ==> !h[|h| - run - 1]
  {
    if h == [] || !h[|h| - 1] then 0 else 1 + TrailingRun(h[..|h| - 1])
  }

  /** The cycle (counted from 1) of the last alert. */
  function LastFire(fired: seq<bool>): (cycle: int)
    ensures cycle == NEVER || 1 <= cycle <= |fired|
    ensures cycle == NEVER <==> forall j :: 0 <= j < |fired| ==> !fired[j]
    ensures cycle != NEVER ==> fired[cycle - 1] && forall j :: cycle <= j < |fired| ==> !fired[j]
  {
    if fired == [] then NEVER
    else if fired[|fired| - 1] then |fired|
    else LastFire(fired[..|fired| - 1])
  }

  /** The counters are what their names say: the trailing run, the last alert and the number of samples. */
  lemma {:induction false} CountersAreExact(h: seq<bool>, minCycles: int, cooldown: int)
    ensures State(h, minCycles, cooldown) == Gauge(TrailingRun(h), LastFire(Fired(h, minCycles, cooldown)), |h|)
  {
    if h != [] {
      var before := h[..|h| - 1];
      CountersAreExact(before, minCycles, cooldown);
      assert Fired(h, minCycles, cooldown)[..|before|] == Fired(before, minCycles, cooldown);
    }
  }

  lemma {:induction false} FiredOfPrefix(h: seq<bool>, n: nat, minCycles: int, cooldown: int)
    requires n <= |h|
    ensures Fired(h[..n], minCycles, cooldown) == Fired(h, minCycles, cooldown)[..n]
    decreases |h|
  {
    if n < |h| {
      FiredOfPrefix(h[..|h| - 1], n, minCycles, cooldown);
      assert h[..|h| - 1][..n] == h[..n];
    } else {
      assert h[..n] == h;
    }
  }

  lemma TickAt(h: seq<bool>, k: nat, minCycles: int, cooldown: int)
    requires k < |h|
    ensures var fired := Fired(h, minCycles, cooldown);
            fired[k] <==>
              h[k] && TrailingRun(h[..k + 1]) >= minCycles && k + 1 - LastFire(fired[..k]) >= cooldown
  {
    FiredOfPrefix(h, k, minCycles, cooldown);
    FiredOfPrefix(h, k + 1, minCycles, cooldown);
    CountersAreExact(h[..k], minCycles, cooldown);
    CountersAreExact(h[..k + 1], minCycles, cooldown);
    assert h[..k + 1][..k] == h[..k];
  }

  /** The code at sample `k`: the rule, plus a condition that only matters before the first alert. */
  lemma FiresIff(h: seq<bool>, k: nat, minCycles: int, cooldown: int)
    requires k < |h|
    ensures var fired := Fired(h, minCycles, cooldown);
            fired[k] <==>
              && HighSince(h, k, minCycles)
              && Quiet(fired, k, cooldown)
              && (LastFire(fired[..k]) == NEVER ==> cooldown <= k + 1000)
  {
    TickAt(h, k, minCycles, cooldown);
  }

  function AtLeastOne(n: int): (r: int) {
    if n < 1 then 1 else n
  }

  lemma RuleHolds(h: seq<bool>, minCycles: int, cooldown: int)
    requires cooldown <= AtLeastOne(minCycles) + 999
    ensures FollowsRule(h, Fired(h, minCycles, cooldown), minCycles, cooldown)
  {
    forall k | 0 <= k < |h|
      ensures Fired(h, minCycles, cooldown)[k]
         <==> HighSince(h, k, minCycles) && Quiet(Fired(h, minCycles, cooldown), k, cooldown)
    {
      FiresIff(h, k, minCycles, cooldown);
    }
  }

  /** The shortest history on which a longer cooldown suppresses the first alert it owes. */
  lemma RuleBroken(minCycles: int, cooldown: int) returns (h: seq<bool>)
    requires cooldown > AtLeastOne(minCycles) + 999
    ensures h == seq(AtLeastOne(minCycles), i => true)
    ensures !FollowsRule(h, Fired(h, minCycles, cooldown), minCycles, cooldown)
  {
    h := seq(AtLeastOne(minCycles), i => true);
    var fired := Fired(h, minCycles, cooldown);
    var k := |h| - 1;
    forall j | 0 <= j <= k
      ensures !fired[j]
    {
      NothingFiresEarly(h, j, minCycles, cooldown);
    }
    assert HighSince(h, k, minCycles) && Quiet(fired, k, cooldown);
  }

  lemma {:induction false} NothingFiresEarly(h: seq<bool>, j: nat, minCycles: int, cooldown: int)
    requires j < |h| && cooldown > j + 1000
    ensures !Fired(h, minCycles, cooldown)[j]
    decreases j
  {
    FiresIff(h, j, minCycles, cooldown);
    forall i | 0 <= i < j
      ensures !Fired(h, minCycles, cooldown)[..j][i]
    {
      NothingFiresEarly(h, i, minCycles, cooldown);
    }
  }

  /**
   The counters implement the rule on every history exactly when the cooldown is at most 999 cycles longer than the run
   an alert needs; beyond that the "never alerted" mark is taken for a recent alert.
   */
  lemma RuleIff(minCycles: int, cooldown: int)
    ensures (forall h :: FollowsRule(h, Fired(h, minCycles, cooldown), minCycles, cooldown))
       <==> cooldown <= AtLeastOne(minCycles) + 999
  {
    if cooldown <= AtLeastOne(minCycles) + 999 {
      forall h
        ensures FollowsRule(h, Fired(h, minCycles, cooldown), minCycles, cooldown)
      {
        RuleHolds(h, minCycles, cooldown);
      }
    } else {
      var h := RuleBroken(minCycles, cooldown);
    }
  }

  /** The rule leaves no choice: whatever follows it raises exactly the alerts of the code. */
  lemma {:induction false} RuleIsUnique(h: seq<bool>, other: seq<bool>, minCycles: int, cooldown: int, k: nat)
    requires cooldown <= AtLeastOne(minCycles) + 999
    requires |other| == |h| && FollowsRule(h, other, minCycles, cooldown)
    requires k < |h|
    ensures other[k] == Fired(h, minCycles, cooldown)[k]
    decreases k
  {
    RuleHolds(h, minCycles, cooldown);
    forall j | 0 <= j < k
      ensures other[j] == Fired(h, minCycles, cooldown)[j]
    {
      RuleIsUnique(h, other, minCycles, cooldown, j);
    }
  }

  // ----- rate and responsiveness

  ghost predicate Spaced(fired: seq<bool>, cooldown: int) {
    forall j, k :: 0 <= j < k < |fired| && fired[j] && fired[k] ==> k - j >= cooldown
  }

  /** Any two alerts of one metric are at least the cooldown apart, for every configuration. */
  lemma AlertsAreSpaced(h: seq<bool>, minCycles: int, cooldown: int)
    ensures Spaced(Fired(h, minCycles, cooldown), cooldown)
  {
    var fired := Fired(h, minCycles, cooldown);
    forall j, k | 0 <= j < k < |fired| && fired[j] && fired[k]
      ensures k - j >= cooldown
    {
      FiresIff(h, k, minCycles, cooldown);
    }
  }

  function Count(fired: seq<bool>): nat {
    if fired == [] then 0 else Count(fired[..|fired| - 1]) + if fired[|fired| - 1] then 1 else 0
  }

  /** The cooldowns that some alerts start, added up. */
  function CooldownTime(fired: seq<bool>, cooldown: nat): nat {
    if fired == [] then 0
    else CooldownTime(fired[..|fired| - 1], cooldown) + if fired[|fired| - 1] then cooldown else 0
  }

  lemma {:induction false} CooldownTimeIsProduct(fired: seq<bool>, cooldown: nat)
    ensures CooldownTime(fired, cooldown) == Count(fired) * cooldown
  {
    if fired != [] {
      CooldownTimeIsProduct(fired[..|fired| - 1], cooldown);
    }
  }

  /** All cooldowns but the last one fit between the first sample and the last alert. */
  lemma {:induction false} SpacedTime(fired: seq<bool>, cooldown: nat)
    requires Spaced(fired, cooldown)
    ensures LastFire(fired) == NEVER ==> CooldownTime(fired, cooldown) == 0
    ensures LastFire(fired) != NEVER ==> CooldownTime(fired, cooldown) <= LastFire(fired) - 1 + cooldown
  {
    if fired != [] {
      var before := fired[..|fired| - 1];
      assert Spaced(before, cooldown);
      SpacedTime(before, cooldown);
      var last := LastFire(before);
      if fired[|fired| - 1] && last != NEVER {
        assert fired[last - 1];
        assert |fired| - last >= cooldown;
      }
    }
  }

  /** Any `to - from` cycles in a row raise at most that number divided by the cooldown, rounded up. */
  lemma RateBound(h: seq<bool>, minCycles: int, cooldown: nat, from: nat, to: nat)
    requires cooldown >= 1 && from <= to <= |h|
    ensures Count(Fired(h, minCycles, cooldown)[from..to]) * cooldown <= (to - from) + cooldown - 1
  {
    AlertsAreSpaced(h, minCycles, cooldown);
    var window := Fired(h, minCycles, cooldown)[from..to];
    assert Spaced(window, cooldown);
    SpacedTime(window, cooldown);
    CooldownTimeIsProduct(window, cooldown);
  }

  /** Every `minCycles + cooldown - 1` high samples in a row contain an alert. */
  lemma Responsiveness(h: seq<bool>, minCycles: int, cooldown: int, from: nat)
    requires cooldown <= AtLeastOne(minCycles) + 999
    requires from + AtLeastOne(minCycles) + AtLeastOne(cooldown) - 1 <= |h|
    requires forall j :: from <= j < from + AtLeastOne(minCycles) + AtLeastOne(cooldown) - 1 ==> h[j]
    ensures exists k :: from <= k < from + AtLeastOne(minCycles) + AtLeastOne(cooldown) - 1
                        && Fired(h, minCycles, cooldown)[k]
  {
    RuleHolds(h, minCycles, cooldown);
    var k := from + AtLeastOne(minCycles) + AtLeastOne(cooldown) - 2;
    if Quiet(Fired(h, minCycles, cooldown), k, cooldown) {
      assert HighSince(h, k, minCycles);
    }
  }

  // ----- the agent

  datatype Level = Warning | Critical

  datatype Alert = Alert(timestamp: int, level: Level, metric: Metric, value: real, threshold: real, cyclesAbove: int)

  datatype Config = Config(cpu: real, ram: real, disk: real, minCycles: int, cooldown: int)
  {
    function Threshold(m: Metric): real {
      match m
      case CPU => cpu
      case RAM => ram
      case DISK => disk
    }

    /** A disk alert needs one high sample only. */
    function RunNeeded(m: Metric): int {
      if m == DISK then 1 else minCycles
    }
  }

  /** Which samples of a metric reached its threshold. */
  function Over(samples: seq<Snapshot>, m: Metric, c: Config): (h: seq<bool>)
    ensures |h| == |samples|
  {
    seq(|samples|, i requires 0 <= i < |samples| => Value(samples[i], m) >= c.Threshold(m))
  }

  function GaugeAfter(samples: seq<Snapshot>, m: Metric, c: Config): Gauge {
    State(Over(samples, m, c), c.RunNeeded(m), c.cooldown)
  }

  /** The alert that the last sample raises for metric `m`, if any. */
  function Raised(samples: seq<Snapshot>, m: Metric, c: Config): seq<Alert>
    requires |samples| > 0
  {
    var h := Over(samples, m, c);
    var s := samples[|samples| - 1];
    if Fired(h, c.RunNeeded(m), c.cooldown)[|h| - 1] then
      [Alert(s.timestamp, if m == DISK then Warning else Critical, m, Value(s, m), c.Threshold(m),
             if m == DISK then 0 else TrailingRun(h))]
    else []
  }

  /** A metric's alerts depend on nothing but its own samples and their times. */
  lemma MetricsAreIndependent(a: seq<Snapshot>, b: seq<Snapshot>, m: Metric, c: Config)
    requires |a| == |b| > 0
    requires forall i :: 0 <= i < |a| ==> Value(a[i], m) == Value(b[i], m) && a[i].timestamp == b[i].timestamp
    ensures Raised(a, m, c) == Raised(b, m, c)
  {
    assert Over(a, m, c) == Over(b, m, c);
  }

  function After(g: Gauge, snap: Snapshot, m: Metric, c: Config): Gauge {
    Tick(g, Value(snap, m) >= c.Threshold(m), c.RunNeeded(m), c.cooldown).0
  }

  /** The alert that sample `snap` raises on a gauge, if any. */
  function RaisedBy(g: Gauge, snap: Snapshot, m: Metric, c: Config): seq<Alert> {
    var (next, fires) := Tick(g, Value(snap, m) >= c.Threshold(m), c.RunNeeded(m), c.cooldown);
    if fires then
      [Alert(snap.timestamp, if m == DISK then Warning else Critical, m, Value(snap, m), c.Threshold(m),
             if m == DISK then 0 else next.run)]
    else []
  }

  lemma NextTick(h: seq<bool>, high: bool, minCycles: int, cooldown: int)
    ensures var g, longer := State(h, minCycles, cooldown), h + [high];
            var (next, fires) := Tick(g, high, minCycles, cooldown);
            && g.run >= 0 && State(longer, minCycles, cooldown) == next && next.run == TrailingRun(longer)
            && Fired(longer, minCycles, cooldown)[|h|] == fires
  {
    assert (h + [high])[..|h|] == h;
    CountersAreExact(h, minCycles, cooldown);
    CountersAreExact(h + [high], minCycles, cooldown);
  }

  lemma OverLonger(before: seq<Snapshot>, snap: Snapshot, m: Metric, c: Config)
    ensures Over(before + [snap], m, c) == Over(before, m, c) + [Value(snap, m) >= c.Threshold(m)]
  {
  }

  lemma RaisedLonger(before: seq<Snapshot>, snap: Snapshot, m: Metric, c: Config, g: Gauge)
    requires var h := Over(before + [snap], m, c);
             var (next, fires) := Tick(g, Value(snap, m) >= c.Threshold(m), c.RunNeeded(m), c.cooldown);
             next.run == TrailingRun(h) && Fired(h, c.RunNeeded(m), c.cooldown)[|before|] == fires
    ensures Raised(before + [snap], m, c) == RaisedBy(g, snap, m, c)
  {
  }

  /** What one more sample does to the gauge of a metric and which alert it raises. */
  lemma NextSample(before: seq<Snapshot>, snap: Snapshot, m: Metric, c: Config)
    ensures var g := GaugeAfter(before, m, c);
            && g.run >= 0
            && GaugeAfter(before + [snap], m, c) == After(g, snap, m, c)
            && Raised(before + [snap], m, c) == RaisedBy(g, snap, m, c)
  {
    OverLonger(before, snap, m, c);
    NextTick(Over(before, m, c), Value(snap, m) >= c.Threshold(m), c.RunNeeded(m), c.cooldown);
    RaisedLonger(before, snap, m, c, GaugeAfter(before, m, c));
  }

  // ----- whole runs of the agent, in terms of readings, thresholds and alerts

  /** The alerts of the latest cycle: CPU, then RAM, then disk. */
  function AlertsOf(samples: seq<Snapshot>, c: Config): seq<Alert>
    requires |samples| > 0
  {
    Raised(samples, CPU, c) + Raised(samples, RAM, c) + Raised(samples, DISK, c)
  }

  /** The alerts of every cycle. */
  function AllRaised(samples: seq<Snapshot>, c: Config): (raised: seq<seq<Alert>>)
    ensures |raised| == |samples|
  {
    if samples == [] then [] else AllRaised(samples[..|samples| - 1], c) + [AlertsOf(samples, c)]
  }

  ghost predicate HasAlert(alerts: seq<Alert>, m: Metric) {
    exists k :: 0 <= k < |alerts| && alerts[k].metric == m
  }

  /** In which cycles a metric raised an alert. */
  ghost function Alerted(raised: seq<seq<Alert>>, m: Metric): (alerted: seq<bool>)
    ensures |alerted| == |raised|
  {
    seq(|raised|, i requires 0 <= i < |raised| => HasAlert(raised[i], m))
  }

  /** In which cycles a reading reached its threshold. */
  ghost function High(samples: seq<Snapshot>, reading: Snapshot -> real, threshold: real): (high: seq<bool>)
    ensures |high| == |samples|
  {
    seq(|samples|, i requires 0 <= i < |samples| => reading(samples[i]) >= threshold)
  }

  /** Cycle `k` owes an alert: by the rule and, before the first alert of all, once the sentinel is no cooldown away. */
  ghost predicate Owes(high: seq<bool>, alerted: seq<bool>, k: nat, minCycles: int, cooldown: int)
    requires k < |high| == |alerted|
  {
    && HighSince(high, k, minCycles) && Quiet(alerted, k, cooldown)
    && ((forall j :: 0 <= j < k ==> !alerted[j]) ==> cooldown <= k + 1000)
  }

  lemma HasOfThree(cpu: seq<Alert>, ram: seq<Alert>, disk: seq<Alert>, m: Metric)
    requires forall k :: 0 <= k < |cpu| ==> cpu[k].metric == CPU
    requires forall k :: 0 <= k < |ram| ==> ram[k].metric == RAM
    requires forall k :: 0 <= k < |disk| ==> disk[k].metric == DISK
    ensures HasAlert(cpu + ram + disk, m) <==> (match m case CPU => cpu case RAM => ram case DISK => disk) != []
  {
    var alerts := cpu + ram + disk;
    var own := match m case CPU => cpu case RAM => ram case DISK => disk;
    var at := match m case CPU => 0 case RAM => |cpu| case DISK => |cpu| + |ram|;
    if own != [] {
      assert alerts[at] == own[0];
    }
  }

  lemma HasRaised(samples: seq<Snapshot>, c: Config, m: Metric)
    requires |samples| > 0
    ensures HasAlert(AlertsOf(samples, c), m) <==> Fired(Over(samples, m, c), c.RunNeeded(m), c.cooldown)[|samples| - 1]
  {
    HasOfThree(Raised(samples, CPU, c), Raised(samples, RAM, c), Raised(samples, DISK, c), m);
  }

  lemma OneMoreRaised(raised: seq<seq<Alert>>, alerts: seq<Alert>, m: Metric)
    ensures Alerted(raised + [alerts], m) == Alerted(raised, m) + [HasAlert(alerts, m)]
  {
  }

  lemma OneMoreSample(samples: seq<Snapshot>, c: Config, m: Metric)
    requires samples != []
    ensures var n, fired := |samples| - 1, Fired(Over(samples, m, c), c.RunNeeded(m), c.cooldown);
            fired == Fired(Over(samples[..n], m, c), c.RunNeeded(m), c.cooldown) + [fired[n]]
  {
    var n := |samples| - 1;
    FiredOfPrefix(Over(samples, m, c), n, c.RunNeeded(m), c.cooldown);
    assert Over(samples, m, c)[..n] == Over(samples[..n], m, c);
  }

  lemma {:induction false} AlertedIsFired(samples: seq<Snapshot>, c: Config, m: Metric)
    ensures Alerted(AllRaised(samples, c), m) == Fired(Over(samples, m, c), c.RunNeeded(m), c.cooldown)
  {
    if samples != [] {
      var before := samples[..|samples| - 1];
      AlertedIsFired(before, c, m);
      HasRaised(samples, c, m);
      OneMoreSample(samples, c, m);
      OneMoreRaised(AllRaised(before, c), AlertsOf(samples, c), m);
    }
  }

  lemma FiresIfOwed(h: seq<bool>, k: nat, minCycles: int, cooldown: int)
    requires k < |h|
    ensures Fired(h, minCycles, cooldown)[k] <==> Owes(h, Fired(h, minCycles, cooldown), k, minCycles, cooldown)
  {
    FiresIff(h, k, minCycles, cooldown);
  }

  /** A metric raises an alert in the latest cycle exactly when its readings and its earlier alerts call for one. */
  lemma RaisedIff(samples: seq<Snapshot>, c: Config, m: Metric, reading: Snapshot -> real, threshold: real)
    requires |samples| > 0 && c.Threshold(m) == threshold
    requires forall s: Snapshot :: reading(s) == Value(s, m)
    ensures HasAlert(AlertsOf(samples, c), m)
       <==> Owes(High(samples, reading, threshold), Alerted(AllRaised(samples, c), m), |samples| - 1,
                 c.RunNeeded(m), c.cooldown)
    ensures High(samples, reading, threshold) == Over(samples, m, c)
  {
    var h, k := Over(samples, m, c), |samples| - 1;
    assert High(samples, reading, threshold) == h;
    AlertedIsFired(samples, c, m);
    FiresIfOwed(h, k, c.RunNeeded(m), c.cooldown);
    HasRaised(samples, c, m);
  }

  /**
   What a cycle raises, read off the metrics, the configured thresholds and the alerts of the cycles before: a critical
   CPU alert and a critical RAM alert after `minCycles` high readings in a row, a disk warning after one, each unless
   the same metric has raised one in the `cooldown - 1` cycles before, in this order, and nothing else.
   */
  ghost predicate IsDocumented(samples: seq<Snapshot>, raised: seq<seq<Alert>>, c: Config, alerts: seq<Alert>)
    requires |samples| == |raised| > 0
  {
    var k, s := |samples| - 1, samples[|samples| - 1];
    var cpu := High(samples, (s: Snapshot) => s.cpuPercent, c.cpu);
    var ram := High(samples, (s: Snapshot) => s.memPercent, c.ram);
    var disk := High(samples, (s: Snapshot) => s.diskPercent, c.disk);
    var owesCpu := Owes(cpu, Alerted(raised, CPU), k, c.minCycles, c.cooldown);
    var owesRam := Owes(ram, Alerted(raised, RAM), k, c.minCycles, c.cooldown);
    var owesDisk := Owes(disk, Alerted(raised, DISK), k, 1, c.cooldown);
    alerts == (if owesCpu then [Alert(s.timestamp, Critical, CPU, s.cpuPercent, c.cpu, TrailingRun(cpu))] else [])
              + (if owesRam then [Alert(s.timestamp, Critical, RAM, s.memPercent, c.ram, TrailingRun(ram))] else [])
              + (if owesDisk then [Alert(s.timestamp, Warning, DISK, s.diskPercent, c.disk, 0)] else [])
  }

  lemma AlertsAreDocumented(samples: seq<Snapshot>, c: Config)
    requires |samples| > 0
    ensures IsDocumented(samples, AllRaised(samples, c), c, AlertsOf(samples, c))
  {
    RaisedIff(samples, c, CPU, (s: Snapshot) => s.cpuPercent, c.cpu);
    RaisedIff(samples, c, RAM, (s: Snapshot) => s.memPercent, c.ram);
    RaisedIff(samples, c, DISK, (s: Snapshot) => s.diskPercent, c.disk);
    HasRaised(samples, c, CPU);
    HasRaised(samples, c, RAM);
    HasRaised(samples, c, DISK);
  }

  // ----- the object of the implementation

  class AlertAgent {
    const config: Config
    var cpuCycles: int
    var ramCycles: int
    var lastAlertCPU: int
    var lastAlertRAM: int
    var lastAlertDsk: int
    var currentCycle: int
    ghost var samples: seq<Snapshot>
    ghost var raised: seq<seq<Alert>>

    ghost predicate Valid()
      reads this
    {
      && Gauge(cpuCycles, lastAlertCPU, currentCycle) == GaugeAfter(samples, CPU, config)
      && Gauge(ramCycles, lastAlertRAM, currentCycle) == GaugeAfter(samples, RAM, config)
      && lastAlertDsk == GaugeAfter(samples, DISK, config).lastAlert
      && currentCycle == GaugeAfter(samples, DISK, config).cycle
      && raised == AllRaised(samples, config)
    }

    constructor (config: Config)
      ensures Valid() && samples == [] && raised == [] && this.config == config
    {
      this.config := config;
      cpuCycles, ramCycles, currentCycle := 0, 0, 0;
      lastAlertCPU, lastAlertRAM, lastAlertDsk := NEVER, NEVER, NEVER;
      samples, raised := [], [];
    }

    /** The work of `Analyze` under its mutex: one step of each gauge. The disk gauge has no counter of its own. */
    method AnalyzeLocked(snap: Snapshot, ghost dsk: Gauge) returns (alerts: seq<Alert>)
      requires dsk.run >= 0 && dsk.lastAlert == lastAlertDsk && dsk.cycle == currentCycle
      modifies this
      ensures samples == old(samples) && raised == old(raised)
      ensures var cpu := old(Gauge(cpuCycles, lastAlertCPU, currentCycle));
              var ram := old(Gauge(ramCycles, lastAlertRAM, currentCycle));
              && Gauge(cpuCycles, lastAlertCPU, currentCycle) == After(cpu, snap, CPU, config)
              && Gauge(ramCycles, lastAlertRAM, currentCycle) == After(ram, snap, RAM, config)
              && Gauge(After(dsk, snap, DISK, config).run, lastAlertDsk, currentCycle) == After(dsk, snap, DISK, config)
              && alerts == RaisedBy(cpu, snap, CPU, config) + RaisedBy(ram, snap, RAM, config)
                           + RaisedBy(dsk, snap, DISK, config)
    {
      currentCycle := currentCycle + 1;
      alerts := [];
      if snap.cpuPercent >= config.cpu {
        cpuCycles := cpuCycles + 1;
        if cpuCycles >= config.minCycles && currentCycle - lastAlertCPU >= config.cooldown {
          alerts := alerts + [Alert(snap.timestamp, Critical, CPU, snap.cpuPercent, config.cpu, cpuCycles)];
          lastAlertCPU := currentCycle;
        }
      } else {
        cpuCycles := 0;
      }
      if snap.memPercent >= config.ram {
        ramCycles := ramCycles + 1;
        if ramCycles >= config.minCycles && currentCycle - lastAlertRAM >= config.cooldown {
          alerts := alerts + [Alert(snap.timestamp, Critical, RAM, snap.memPercent, config.ram, ramCycles)];
          lastAlertRAM := currentCycle;
        }
      } else {
        ramCycles := 0;
      }
      if snap.diskPercent >= config.disk && currentCycle - lastAlertDsk >= config.cooldown {
        alerts := alerts + [Alert(snap.timestamp, Warning, DISK, snap.diskPercent, config.disk, 0)];
        lastAlertDsk := currentCycle;
      }
    }

    /** One cycle: the CPU alert, then the RAM alert, then the disk alert, each if its own history calls for it. */
    method Analyze(snap: Snapshot) returns (alerts: seq<Alert>)
      requires Valid()
      modifies this
      ensures Valid() && samples == old(samples) + [snap] && raised == old(raised) + [alerts]
      ensures alerts == Raised(samples, CPU, config) + Raised(samples, RAM, config) + Raised(samples, DISK, config)
      ensures IsDocumented(samples, raised, config, alerts)
    {
      NextSample(samples, snap, CPU, config);
      NextSample(samples, snap, RAM, config);
      NextSample(samples, snap, DISK, config);
      alerts := AnalyzeLocked(snap, GaugeAfter(samples, DISK, config));
      ghost var longer := samples + [snap];
      assert longer[..|samples|] == samples;
      samples, raised := longer, raised + [alerts];
      AlertsAreDocumented(samples, config);
    }
  }
}
