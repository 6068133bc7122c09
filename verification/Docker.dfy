/** Container alerts: edges between the last state seen of each container and the one of the current scan. */
module Containers {
  import opened Options

  datatype Container = Container(name: string, image: string, status: string, unhealthy: bool)
  {
    predicate Running() {
      status == "running"
    }

    predicate Exited() {
      status == "exited"
    }
  }

  datatype Kind = FirstSeenExited | Stopped | Unhealthy

  datatype Alert = Alert(name: string, image: string, kind: Kind)

  /** What the agent remembers: the last status and the last health of every container it has seen. */
  datatype Memory = Memory(states: map<string, string>, unhealthy: map<string, bool>)

  const BLANK: Memory := Memory(map[], map[])

  /** The alerts of one container, given what was last seen of it. */
  function AlertsFor(m: Memory, c: Container): seq<Alert> {
    if c.name !in m.states && c.Exited() then [Alert(c.name, c.image, FirstSeenExited)]
    else
      (if c.name in m.states && m.states[c.name] == "running" && c.Exited() then [Alert(c.name, c.image, Stopped)]
       else [])
      + (if c.unhealthy && !(c.name in m.unhealthy && m.unhealthy[c.name]) then [Alert(c.name, c.image, Unhealthy)]
         else [])
  }

  function Detect(m: Memory, scan: seq<Container>): seq<Alert> {
    if scan == [] then [] else Detect(m, scan[..|scan| - 1]) + AlertsFor(m, scan[|scan| - 1])
  }

  function Remember(m: Memory, scan: seq<Container>): Memory {
    if scan == [] then m
    else
      var c := scan[|scan| - 1];
      var m := Remember(m, scan[..|scan| - 1]);
      Memory(m.states[c.name := c.status], m.unhealthy[c.name := c.unhealthy])
  }

  /** A cycle of the agent either cannot reach Docker, and changes nothing, or scans the containers it watches. */
  datatype Cycle = Unreachable | Scan(containers: seq<Container>)

  /** Names are compared by `same`, which ignores case. */
  predicate OnList(name: string, watchList: seq<string>, same: (string, string) -> bool) {
    exists w :: w in watchList && same(name, w)
  }

  function Listed(scan: seq<Container>, watchList: seq<string>, same: (string, string) -> bool): seq<Container> {
    if scan == [] then []
    else
      var c := scan[|scan| - 1];
      Listed(scan[..|scan| - 1], watchList, same) + if OnList(c.name, watchList, same) then [c] else []
  }

  /** An empty list watches every container. */
  function Watched(scan: seq<Container>, watchList: seq<string>, same: (string, string) -> bool): seq<Container> {
    if watchList == [] then scan else Listed(scan, watchList, same)
  }

  function MemoryAfter(scans: seq<seq<Container>>): Memory {
    if scans == [] then BLANK else Remember(MemoryAfter(scans[..|scans| - 1]), scans[|scans| - 1])
  }

  /** Every alert of a run, in order. */
  function AllAlerts(scans: seq<seq<Container>>): seq<Alert> {
    if scans == [] then []
    else
      var before := scans[..|scans| - 1];
      AllAlerts(before) + Detect(MemoryAfter(before), scans[|scans| - 1])
  }

  // ----- one container on its own

  /** The alerts of an alert list that are about container `name`. */
  function About(alerts: seq<Alert>, name: string): seq<Alert> {
    if alerts == [] then []
    else if alerts[|alerts| - 1].name == name then About(alerts[..|alerts| - 1], name) + [alerts[|alerts| - 1]]
    else About(alerts[..|alerts| - 1], name)
  }

  function Sightings(scan: seq<Container>, name: string): seq<Container> {
    if scan == [] then []
    else if scan[|scan| - 1].name == name then Sightings(scan[..|scan| - 1], name) + [scan[|scan| - 1]]
    else Sightings(scan[..|scan| - 1], name)
  }

  /** Every observation of container `name` in a run, across the scans in which it is absent. */
  function Observations(scans: seq<seq<Container>>, name: string): seq<Container> {
    if scans == [] then []
    else Observations(scans[..|scans| - 1], name) + Sightings(scans[|scans| - 1], name)
  }

  /** What an observation calls for after the one before it, if any. */
  function EdgeBetween(prev: Option<Container>, c: Container): seq<Alert> {
    if prev.None? && c.Exited() then [Alert(c.name, c.image, FirstSeenExited)]
    else
      (if prev.Some? && prev.value.Running() && c.Exited() then [Alert(c.name, c.image, Stopped)] else [])
      + (if c.unhealthy && (prev.None? || !prev.value.unhealthy) then [Alert(c.name, c.image, Unhealthy)] else [])
  }

  /**
   What observation `k` of a container calls for, from its own history alone: an alert if it is first seen exited, else
   one for each of a change from running to exited and a change to unhealthy since the observation before.
   */
  function Edge(obs: seq<Container>, k: nat): seq<Alert>
    requires k < |obs|
  {
    EdgeBetween(if k == 0 then None else Some(obs[k - 1]), obs[k])
  }

  function Edges(obs: seq<Container>, n: nat): seq<Alert>
    requires n <= |obs|
  {
    if n == 0 then [] else Edges(obs, n - 1) + Edge(obs, n - 1)
  }

  ghost predicate UniqueNames(scan: seq<Container>) {
    forall i, j :: 0 <= i < j < |scan| ==> scan[i].name != scan[j].name
  }

  lemma {:induction false} AboutConcat(a: seq<Alert>, b: seq<Alert>, name: string)
    ensures About(a + b, name) == About(a, name) + About(b, name)
  {
    if b == [] {
      assert a + b == a;
    } else {
      AboutConcat(a, b[..|b| - 1], name);
      assert (a + b)[..|a + b| - 1] == a + b[..|b| - 1];
    }
  }

  lemma AboutOne(m: Memory, c: Container, name: string)
    ensures About(AlertsFor(m, c), name) == if c.name == name then AlertsFor(m, c) else []
  {
    var alerts := AlertsFor(m, c);
    assert forall k :: 0 <= k < |alerts| ==> alerts[k].name == c.name;
    AboutUniform(alerts, name, c.name);
  }

  lemma {:induction false} AboutUniform(alerts: seq<Alert>, name: string, all: string)
    requires forall k :: 0 <= k < |alerts| ==> alerts[k].name == all
    ensures About(alerts, name) == if all == name then alerts else []
  {
    if alerts != [] {
      AboutUniform(alerts[..|alerts| - 1], name, all);
    }
  }

  /**
   The alerts of a scan about one container are those of its sightings, none of which changes the memory in between.
   */
  lemma {:induction false} DetectAbout(m: Memory, scan: seq<Container>, name: string)
    ensures About(Detect(m, scan), name) == Detect(m, Sightings(scan, name))
  {
    if scan != [] {
      var before := scan[..|scan| - 1];
      var c := scan[|scan| - 1];
      DetectAbout(m, before, name);
      AboutConcat(Detect(m, before), AlertsFor(m, c), name);
      AboutOne(m, c, name);
      if c.name == name {
        assert Sightings(scan, name)[..|Sightings(before, name)|] == Sightings(before, name);
      }
    }
  }

  lemma {:induction false} SightingsAre(scan: seq<Container>, name: string)
    ensures forall k :: 0 <= k < |Sightings(scan, name)| ==> Sightings(scan, name)[k].name == name
    ensures Sightings(scan, name) == [] <==> forall k :: 0 <= k < |scan| ==> scan[k].name != name
    ensures UniqueNames(scan) ==> |Sightings(scan, name)| <= 1
  {
    if scan != [] {
      SightingsAre(scan[..|scan| - 1], name);
    }
  }

  lemma {:induction false} RememberOne(m: Memory, scan: seq<Container>, name: string)
    ensures var after := Remember(m, scan);
            var seen := Sightings(scan, name);
            if seen == [] then
              && (name in after.states <==> name in m.states)
              && (name in m.states ==> after.states[name] == m.states[name])
              && (name in after.unhealthy <==> name in m.unhealthy)
              && (name in m.unhealthy ==> after.unhealthy[name] == m.unhealthy[name])
            else
              && name in after.states && after.states[name] == seen[|seen| - 1].status
              && name in after.unhealthy && after.unhealthy[name] == seen[|seen| - 1].unhealthy
  {
    if scan != [] {
      RememberOne(m, scan[..|scan| - 1], name);
    }
  }

  /** The memory holds the last observation of each container, however long ago that was. */
  lemma {:induction false} MemoryIsLastObservation(scans: seq<seq<Container>>, name: string)
    ensures var m := MemoryAfter(scans);
            var obs := Observations(scans, name);
            && (name in m.states <==> obs != []) && (name in m.unhealthy <==> obs != [])
            && (obs != [] ==> m.states[name] == obs[|obs| - 1].status && m.unhealthy[name] == obs[|obs| - 1].unhealthy)
  {
    if scans != [] {
      MemoryIsLastObservation(scans[..|scans| - 1], name);
      RememberOne(MemoryAfter(scans[..|scans| - 1]), scans[|scans| - 1], name);
    }
  }

  /** Edges look at no observation after their own. */
  lemma {:induction false} EdgesOfPrefix(some: seq<Container>, more: seq<Container>, n: nat)
    requires n <= |some| <= |more|
    requires forall i :: 0 <= i < n ==> more[i] == some[i]
    ensures Edges(more, n) == Edges(some, n)
  {
    if n > 0 {
      EdgesOfPrefix(some, more, n - 1);
      assert Edge(more, n - 1) == Edge(some, n - 1);
    }
  }

  lemma OneMoreObservation(scans: seq<seq<Container>>, c: Container)
    ensures var obs := Observations(scans, c.name);
            Edge(obs + [c], |obs|) == Detect(MemoryAfter(scans), [c])
  {
    MemoryIsLastObservation(scans, c.name);
    assert [c][..0] == [];
  }

  lemma OneMoreEdge(obs: seq<Container>, c: Container)
    ensures Edges(obs + [c], |obs| + 1) == Edges(obs, |obs|) + Edge(obs + [c], |obs|)
  {
    EdgesOfPrefix(obs, obs + [c], |obs|);
  }

  /** What one more scan adds to the alerts about a container and to its edges is the same. */
  lemma OneMoreScan(before: seq<seq<Container>>, scan: seq<Container>, name: string)
    requires UniqueNames(scan)
    ensures var obs := Observations(before, name);
            var seen := Sightings(scan, name);
            Edges(obs + seen, |obs + seen|) == Edges(obs, |obs|) + About(Detect(MemoryAfter(before), scan), name)
  {
    var obs := Observations(before, name);
    var seen := Sightings(scan, name);
    var m := MemoryAfter(before);
    assert About(Detect(m, scan), name) == Detect(m, seen) by {
      DetectAbout(m, scan, name);
    }
    SightingsAre(scan, name);
    if seen != [] {
      var c := seen[0];
      assert seen == [c];
      OneMoreObservation(before, c);
      OneMoreEdge(obs, c);
    } else {
      assert obs + seen == obs;
    }
  }

  /**
   The alerts of a run about one container are exactly the edges of that container's own observations, in order, with
   scans that miss it left out: no other container and no failed cycle has any influence.
   */
  lemma {:induction false} AlertsAreEdges(scans: seq<seq<Container>>, name: string)
    requires forall i :: 0 <= i < |scans| ==> UniqueNames(scans[i])
    ensures About(AllAlerts(scans), name) == Edges(Observations(scans, name), |Observations(scans, name)|)
  {
    if scans != [] {
      var before := scans[..|scans| - 1];
      var scan := scans[|scans| - 1];
      AlertsAreEdges(before, name);
      AboutConcat(AllAlerts(before), Detect(MemoryAfter(before), scan), name);
      OneMoreScan(before, scan, name);
    }
  }

  /** `kept` has the containers of `scan` at the positions `where`: in order, those with a name on the list. */
  ghost predicate IsSelection(
      kept: seq<Container>, where: seq<nat>, scan: seq<Container>, watchList: seq<string>,
      same: (string, string) -> bool)
  {
    && |kept| == |where|
    && (forall k :: 0 <= k < |where| ==> where[k] < |scan| && kept[k] == scan[where[k]])
    && (forall j, k :: 0 <= j < k < |where| ==> where[j] < where[k])
    && (forall i :: 0 <= i < |scan| ==> (i in where <==> exists w :: w in watchList && same(scan[i].name, w)))
  }

  lemma OneMoreListed(
      kept: seq<Container>, where: seq<nat>, before: seq<Container>, c: Container, watchList: seq<string>,
      same: (string, string) -> bool)
    requires IsSelection(kept, where, before, watchList, same)
    ensures if OnList(c.name, watchList, same) then
              IsSelection(kept + [c], where + [|before|], before + [c], watchList, same)
            else IsSelection(kept, where, before + [c], watchList, same)
  {
    var n, scan, longer := |before|, before + [c], where + [|before|];
    assert n !in where;
    forall i | 0 <= i < |scan|
      ensures i in longer <==> i in where || i == n
      ensures i < n ==> scan[i] == before[i]
    {
      assert longer[|where|] == n;
    }
  }

  lemma {:induction false} ListedAre(scan: seq<Container>, watchList: seq<string>, same: (string, string) -> bool)
      returns (where: seq<nat>)
    ensures IsSelection(Listed(scan, watchList, same), where, scan, watchList, same)
  {
    if scan == [] {
      return [];
    }
    var n := |scan| - 1;
    where := ListedAre(scan[..n], watchList, same);
    OneMoreListed(Listed(scan[..n], watchList, same), where, scan[..n], scan[n], watchList, same);
    assert scan[..n] + [scan[n]] == scan;
    if OnList(scan[n].name, watchList, same) {
      where := where + [n];
    } else {
      assert Listed(scan, watchList, same) == Listed(scan[..n], watchList, same);
    }
  }

  /**
   The containers watched are exactly those with a name on the list, or all if the list is empty, each as often as it is
   scanned and in the order of the scan, so that distinct names stay distinct.
   */
  lemma WatchedAre(scan: seq<Container>, watchList: seq<string>, same: (string, string) -> bool)
      returns (where: seq<nat>)
    ensures var watched := Watched(scan, watchList, same);
            && (if watchList == [] then watched == scan else IsSelection(watched, where, scan, watchList, same))
            && (UniqueNames(scan) ==> UniqueNames(watched))
  {
    where := ListedAre(scan, watchList, same);
  }

  /** What is known of a container calls for this alert. */
  ghost predicate CallsFor(
      states: map<string, string>, unhealthy: map<string, bool>, c: Container, alert: Alert)
  {
    var unseen := c.name !in states;
    && alert.name == c.name && alert.image == c.image
    && match alert.kind
       case FirstSeenExited => unseen && c.status == "exited"
       case Stopped => !unseen && states[c.name] == "running" && c.status == "exited"
       case Unhealthy =>
         && c.unhealthy && (c.name in unhealthy ==> !unhealthy[c.name])
         && !(unseen && c.status == "exited")
  }

  lemma AlertsForIff(m: Memory, c: Container, alert: Alert)
    ensures alert in AlertsFor(m, c) <==> CallsFor(m.states, m.unhealthy, c, alert)
  {
  }

  /** The alerts of a scan are all those that its containers call for, and no others. */
  lemma {:induction false} DetectIff(m: Memory, scan: seq<Container>, alert: Alert)
    ensures alert in Detect(m, scan)
       <==> exists k :: 0 <= k < |scan| && CallsFor(m.states, m.unhealthy, scan[k], alert)
  {
    if scan != [] {
      var n := |scan| - 1;
      DetectIff(m, scan[..n], alert);
      AlertsForIff(m, scan[n], alert);
      if alert in Detect(m, scan[..n]) {
        var k :| 0 <= k < n && CallsFor(m.states, m.unhealthy, scan[..n][k], alert);
        assert CallsFor(m.states, m.unhealthy, scan[k], alert);
      }
      if k :| 0 <= k < |scan| && CallsFor(m.states, m.unhealthy, scan[k], alert) {
        assert k < n ==> scan[..n][k] == scan[k];
      }
    }
  }

  // ----- counting

  function CountKind(alerts: seq<Alert>, stop: bool): nat {
    if alerts == [] then 0
    else CountKind(alerts[..|alerts| - 1], stop) + if alerts[|alerts| - 1].kind.Unhealthy? != stop then 1 else 0
  }

  /** How many times, in its first `n` observations, the container is seen exited right after being seen running. */
  function StopChanges(obs: seq<Container>, n: nat): nat
    requires n <= |obs|
  {
    if n < 2 then 0 else StopChanges(obs, n - 1) + One(obs[n - 2].status == "running" && obs[n - 1].status == "exited")
  }

  /** How many times, in its first `n` observations, it is seen unhealthy without having been so the time before. */
  function UnhealthyChanges(obs: seq<Container>, n: nat): nat
    requires n <= |obs|
  {
    if n == 0 then 0
    else UnhealthyChanges(obs, n - 1) + One(obs[n - 1].unhealthy && (n == 1 || !obs[n - 2].unhealthy))
  }

  lemma {:induction false} CountConcat(a: seq<Alert>, b: seq<Alert>, stop: bool)
    ensures CountKind(a + b, stop) == CountKind(a, stop) + CountKind(b, stop)
  {
    if b == [] {
      assert a + b == a;
    } else {
      CountConcat(a, b[..|b| - 1], stop);
      assert (a + b)[..|a + b| - 1] == a + b[..|b| - 1];
    }
  }

  function One(condition: bool): nat {
    if condition then 1 else 0
  }

  lemma CountSingle(a: Alert, stop: bool)
    ensures CountKind([a], stop) == One(a.kind.Unhealthy? != stop)
  {
    assert [a][..0] == [];
  }

  lemma CountBetween(prev: Option<Container>, c: Container, stop: bool)
    ensures CountKind(EdgeBetween(prev, c), stop)
         == if stop then One(c.Exited() && (prev.None? || prev.value.Running()))
            else One(c.unhealthy && (if prev.None? then !c.Exited() else !prev.value.unhealthy))
  {
    CountSingle(Alert(c.name, c.image, FirstSeenExited), stop);
    CountSingle(Alert(c.name, c.image, Stopped), stop);
    CountSingle(Alert(c.name, c.image, Unhealthy), stop);
    if prev.Some? || !c.Exited() {
      var stops := if prev.Some? && prev.value.Running() && c.Exited() then [Alert(c.name, c.image, Stopped)] else [];
      var sick :=
        if c.unhealthy && (prev.None? || !prev.value.unhealthy) then [Alert(c.name, c.image, Unhealthy)] else [];
      CountConcat(stops, sick, stop);
    }
  }

  lemma CountEdge(obs: seq<Container>, k: nat)
    requires k < |obs|
    ensures CountKind(Edge(obs, k), true)
         == One(obs[k].Exited() && (k == 0 || obs[k - 1].Running()))
    ensures CountKind(Edge(obs, k), false)
         == One(obs[k].unhealthy && (if k == 0 then !obs[0].Exited() else !obs[k - 1].unhealthy))
  {
    var prev := if k == 0 then None else Some(obs[k - 1]);
    CountBetween(prev, obs[k], true);
    CountBetween(prev, obs[k], false);
  }

  /** The first observation swallows a health alert when it is both exited and unhealthy. */
  predicate Swallowed(obs: seq<Container>) {
    obs != [] && obs[0].status == "exited" && obs[0].unhealthy
  }

  /** Alerts counted edge by edge. */
  function EdgeCount(obs: seq<Container>, n: nat, stop: bool): nat
    requires n <= |obs|
  {
    if n == 0 then 0 else EdgeCount(obs, n - 1, stop) + CountKind(Edge(obs, n - 1), stop)
  }

  lemma {:induction false} CountEdges(obs: seq<Container>, n: nat, stop: bool)
    requires n <= |obs|
    ensures CountKind(Edges(obs, n), stop) == EdgeCount(obs, n, stop)
  {
    if n > 0 {
      CountEdges(obs, n - 1, stop);
      CountConcat(Edges(obs, n - 1), Edge(obs, n - 1), stop);
    }
  }

  lemma {:induction false} CountStops(obs: seq<Container>, n: nat)
    requires n <= |obs|
    ensures EdgeCount(obs, n, true) == One(n > 0 && obs[0].Exited()) + StopChanges(obs, n)
  {
    if n > 0 {
      CountStops(obs, n - 1);
      CountEdge(obs, n - 1);
    }
  }

  lemma {:induction false} CountSick(obs: seq<Container>, n: nat)
    requires n <= |obs|
    ensures EdgeCount(obs, n, false) + One(n > 0 && Swallowed(obs)) == UnhealthyChanges(obs, n)
  {
    if n > 0 {
      CountSick(obs, n - 1);
      assert CountKind(Edge(obs, n - 1), false)
          == One(obs[n - 1].unhealthy && (if n == 1 then !obs[0].Exited() else !obs[n - 2].unhealthy)) by {
        CountEdge(obs, n - 1);
      }
    }
  }

  /**
   The stop alerts of a container number one if it is first seen exited plus its changes from running to exited; its
   health alerts number its changes to unhealthy, less the one swallowed when it is first seen both exited and
   unhealthy.
   */
  lemma AlertCounts(scans: seq<seq<Container>>, name: string)
    requires forall i :: 0 <= i < |scans| ==> UniqueNames(scans[i])
    ensures var alerts := About(AllAlerts(scans), name);
            var obs := Observations(scans, name);
            && CountKind(alerts, true) == One(obs != [] && obs[0].status == "exited") + StopChanges(obs, |obs|)
            && CountKind(alerts, false) + One(Swallowed(obs)) == UnhealthyChanges(obs, |obs|)
  {
    var obs := Observations(scans, name);
    AlertsAreEdges(scans, name);
    CountEdges(obs, |obs|, true);
    CountEdges(obs, |obs|, false);
    CountStops(obs, |obs|);
    CountSick(obs, |obs|);
  }

  // ----- the agent

  class DockerAgent {
    const watchList: seq<string>
    const same: (string, string) -> bool
    var prevStates: map<string, string>
    var prevUnhealthy: map<string, bool>
    ghost var scans: seq<seq<Container>>

    ghost predicate Valid()
      reads this
    {
      Memory(prevStates, prevUnhealthy) == MemoryAfter(scans)
    }

    constructor (watchList: seq<string>, same: (string, string) -> bool)
      ensures Valid() && scans == [] && this.watchList == watchList && this.same == same
    {
      this.watchList, this.same := watchList, same;
      prevStates, prevUnhealthy, scans := map[], map[], [];
    }

    method DetectChanges(containers: seq<Container>) returns (alerts: seq<Alert>)
      ensures alerts == Detect(Memory(prevStates, prevUnhealthy), containers)
      ensures forall a :: a in alerts <==>
                exists k :: 0 <= k < |containers| && CallsFor(prevStates, prevUnhealthy, containers[k], a)
    {
      alerts := [];
      for k := 0 to |containers|
        invariant alerts == Detect(Memory(prevStates, prevUnhealthy), containers[..k])
      {
        var c := containers[k];
        assert containers[..k + 1][..k] == containers[..k];
        var seen := c.name in prevStates;
        if !seen && c.Exited() {
          alerts := alerts + [Alert(c.name, c.image, FirstSeenExited)];
          continue;
        }
        if seen && prevStates[c.name] == "running" && c.Exited() {
          alerts := alerts + [Alert(c.name, c.image, Stopped)];
        }
        if c.unhealthy && !(c.name in prevUnhealthy && prevUnhealthy[c.name]) {
          alerts := alerts + [Alert(c.name, c.image, Unhealthy)];
        }
      }
      assert containers[..|containers|] == containers;
      forall a
        ensures a in alerts <==>
                  exists k :: 0 <= k < |containers| && CallsFor(prevStates, prevUnhealthy, containers[k], a)
      {
        DetectIff(Memory(prevStates, prevUnhealthy), containers, a);
      }
    }

    method FilterWatchList(containers: seq<Container>) returns (filtered: seq<Container>)
      ensures filtered == Listed(containers, watchList, same)
      ensures exists where :: IsSelection(filtered, where, containers, watchList, same)
    {
      filtered := [];
      for k := 0 to |containers|
        invariant filtered == Listed(containers[..k], watchList, same)
      {
        ghost var before := filtered;
        for j := 0 to |watchList|
          invariant filtered == before
          invariant forall i :: 0 <= i < j ==> !same(containers[k].name, watchList[i])
        {
          if same(containers[k].name, watchList[j]) {
            assert OnList(containers[k].name, watchList, same);
            filtered := filtered + [containers[k]];
            break;
          }
        }
        assert containers[..k + 1][..k] == containers[..k];
      }
      assert containers[..|containers|] == containers;
      ghost var where := ListedAre(containers, watchList, same);
    }

    /** The second half of a cycle: what has been scanned becomes the memory. */
    method UpdatePrevious(containers: seq<Container>)
      modifies this
      ensures scans == old(scans)
      ensures Memory(prevStates, prevUnhealthy) == Remember(old(Memory(prevStates, prevUnhealthy)), containers)
    {
      ghost var before := Memory(prevStates, prevUnhealthy);
      for k := 0 to |containers|
        invariant scans == old(scans)
        invariant Memory(prevStates, prevUnhealthy) == Remember(before, containers[..k])
      {
        assert containers[..k + 1][..k] == containers[..k];
        prevStates := prevStates[containers[k].name := containers[k].status];
        prevUnhealthy := prevUnhealthy[containers[k].name := containers[k].unhealthy];
      }
      assert containers[..|containers|] == containers;
    }

    /** One cycle: nothing when Docker is unreachable, else the edges since the last scan, which becomes the memory. */
    method Run(cycle: Cycle) returns (alerts: seq<Alert>)
      requires Valid()
      modifies this
      ensures Valid()
      ensures cycle.Unreachable? ==> alerts == [] && scans == old(scans)
      ensures cycle.Scan? ==>
                && scans == old(scans) + [Watched(cycle.containers, watchList, same)]
                && AllAlerts(scans) == AllAlerts(old(scans)) + alerts
    {
      match cycle {
        case Unreachable =>
          return [];
        case Scan(all) =>
          var containers := all;
          if |watchList| > 0 {
            containers := FilterWatchList(all);
          }
          alerts := DetectChanges(containers);
          UpdatePrevious(containers);
          ghost var longer := scans + [containers];
          assert longer[..|scans|] == scans;
          scans := longer;
      }
    }
  }
}
