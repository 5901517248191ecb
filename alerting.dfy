/** The consecutive-breach alert engine: per city, a counter of back-to-back
    readings strictly above the threshold. A reading at or below the
    threshold resets it, a failed fetch leaves it alone, and when it reaches
    the trigger count one alert fires and the counter starts over. */
module Alerting {
  import opened Wrappers
  import opened Weather
  import opened Config

  /** What the notifier is handed: the city and the current temperature. */
  datatype Alert = Alert(city: string, temp: real)

  /** A counter's next value and whether an alert fired. */
  datatype Transition = Transition(count: int, fired: bool)

  /** The counter's response to one successful reading. It fires exactly when
      the reading is above the threshold and the increment brings the counter
      to the trigger count; it then starts over at 0. Otherwise an
      above-threshold reading increments the counter and any other reading,
      equality included, resets it. A counter in [0, trigger) stays there. */
  function Step(count: int, temp: real, threshold: real, trigger: nat): (t: Transition)
    requires trigger >= 1
    ensures t.fired <==> temp > threshold && count + 1 >= trigger
    ensures t.fired ==> t.count == 0
    ensures !t.fired && temp > threshold ==> t.count == count + 1
    ensures temp <= threshold ==> t.count == 0
    ensures 0 <= count < trigger ==> 0 <= t.count < trigger
  {
    var c := if temp > threshold then count + 1 else 0;
    if c >= trigger then Transition(0, true) else Transition(c, false)
  }

  /** The counter of every city. */
  type Counters = map<string, int>

  ghost predicate InRange(counts: Counters, trigger: nat)
  {
    forall c :: c in counts ==> 0 <= counts[c] < trigger
  }

  datatype CheckResult = CheckResult(counts: Counters, alert: Option<Alert>)

  /** One city's share of an alert tick. A failed fetch changes no counter
      and fires nothing. A successful reading moves that city's counter by
      Step and fires at most one alert, carrying the city and the reading's
      temperature, which is then above the threshold. No other city's counter
      changes. */
  function CheckStep(counts: Counters, city: string, reading: Option<Reading>,
                     threshold: real, trigger: nat): (r: CheckResult)
    requires trigger >= 1 && city in counts
    ensures r.counts.Keys == counts.Keys
    ensures forall c :: c in counts && c != city ==> r.counts[c] == counts[c]
    ensures reading.None? ==> r == CheckResult(counts, None)
    ensures reading.Some? ==>
      var t := Step(counts[city], reading.value.temp, threshold, trigger);
      r.counts[city] == t.count && (r.alert.Some? <==> t.fired)
    ensures r.alert.Some? ==>
      reading.Some? && r.alert.value == Alert(city, reading.value.temp) && reading.value.temp > threshold
    ensures InRange(counts, trigger) ==> InRange(r.counts, trigger)
  {
    match reading
    case None => CheckResult(counts, None)
    case Some(rd) =>
      var t := Step(counts[city], rd.temp, threshold, trigger);
      CheckResult(counts[city := t.count], if t.fired then Some(Alert(city, rd.temp)) else None)
  }

  /** The alerts an optional one stands for, as a list for the notifier. */
  function Fired(o: Option<Alert>): seq<Alert>
  {
    if o.Some? then [o.value] else []
  }

  datatype TickResult = TickResult(counts: Counters, alerts: seq<Alert>)

  /** The readings checked one after the other, the i-th reading for the i-th
      city, with the alerts fired in order. At most one alert comes from each
      reading; every alert is for one of the cities and carries a temperature
      above the threshold; cities not checked keep their counters. */
  function CheckAll(counts: Counters, cities: seq<string>, readings: seq<Option<Reading>>,
                    threshold: real, trigger: nat): (r: TickResult)
    requires trigger >= 1 && |cities| == |readings|
    requires forall c :: c in cities ==> c in counts
    ensures r.counts.Keys == counts.Keys
    ensures InRange(counts, trigger) ==> InRange(r.counts, trigger)
    ensures forall c :: c in counts && c !in cities ==> r.counts[c] == counts[c]
    ensures |r.alerts| <= |cities|
    ensures forall a :: a in r.alerts ==> a.city in cities && a.temp > threshold
    decreases |cities|
  {
    if cities == [] then TickResult(counts, [])
    else
      var k := |cities| - 1;
      assert forall c :: c in cities[..k] ==> c in cities;
      var p := CheckAll(counts, cities[..k], readings[..k], threshold, trigger);
      var s := CheckStep(p.counts, cities[k], readings[k], threshold, trigger);
      TickResult(s.counts, p.alerts + Fired(s.alert))
  }

  /** Checking a non-empty batch is checking all but its last reading, then
      checking the last one. */
  lemma CheckAllLast(counts: Counters, cities: seq<string>, readings: seq<Option<Reading>>,
                     threshold: real, trigger: nat)
    requires trigger >= 1 && |cities| == |readings| > 0
    requires forall c :: c in cities ==> c in counts
    ensures var k := |cities| - 1;
      var p := CheckAll(counts, cities[..k], readings[..k], threshold, trigger);
      && cities[k] in p.counts
      && var s := CheckStep(p.counts, cities[k], readings[k], threshold, trigger);
      && CheckAll(counts, cities, readings, threshold, trigger)
         == TickResult(s.counts, p.alerts + Fired(s.alert))
  {
  }

  /** Checking a batch that ends in one more reading is checking the rest,
      then checking that reading. */
  lemma CheckAllSnoc(counts: Counters, cities: seq<string>, readings: seq<Option<Reading>>,
                     pc: seq<string>, pr: seq<Option<Reading>>, c: string, r: Option<Reading>,
                     threshold: real, trigger: nat)
    requires trigger >= 1 && |pc| == |pr| && cities == pc + [c] && readings == pr + [r]
    requires forall x :: x in cities ==> x in counts
    ensures forall x :: x in pc ==> x in counts
    ensures var p := CheckAll(counts, pc, pr, threshold, trigger);
      && c in p.counts
      && var s := CheckStep(p.counts, c, r, threshold, trigger);
      && CheckAll(counts, cities, readings, threshold, trigger) == TickResult(s.counts, p.alerts + Fired(s.alert))
  {
    assert cities[..|pc|] == pc && readings[..|pr|] == pr && cities[|pc|] == c;
    CheckAllLast(counts, cities, readings, threshold, trigger);
  }

  datatype RunResult = RunResult(count: int, alerts: seq<real>)

  /** One city's counter over successive alert ticks: its final value and the
      temperatures carried by the alerts fired, in order. A missing entry is
      a failed fetch. */
  function Run(count: int, temps: seq<Option<real>>, threshold: real, trigger: nat): (r: RunResult)
    requires trigger >= 1
    ensures 0 <= count < trigger ==> 0 <= r.count < trigger
    ensures |r.alerts| <= |temps|
    ensures forall t :: t in r.alerts ==> t > threshold
    decreases |temps|
  {
    if temps == [] then RunResult(count, [])
    else
      match temps[0]
      case None => Run(count, temps[1..], threshold, trigger)
      case Some(t) =>
        var step := Step(count, t, threshold, trigger);
        var rest := Run(step.count, temps[1..], threshold, trigger);
        RunResult(rest.count, (if step.fired then [t] else []) + rest.alerts)
  }

  /** Running over two stretches of ticks is running over the first and then,
      from where the counter stands, over the second. */
  lemma {:induction false} RunAppend(count: int, a: seq<Option<real>>, b: seq<Option<real>>,
                                     threshold: real, trigger: nat)
    requires trigger >= 1
    ensures var first := Run(count, a, threshold, trigger);
      var second := Run(first.count, b, threshold, trigger);
      Run(count, a + b, threshold, trigger) == RunResult(second.count, first.alerts + second.alerts)
    decreases |a|
  {
    if a != [] {
      assert (a + b)[0] == a[0] && (a + b)[1..] == a[1..] + b;
      match a[0]
      case None => RunAppend(count, a[1..], b, threshold, trigger);
      case Some(t) =>
        var step := Step(count, t, threshold, trigger);
        RunAppend(step.count, a[1..], b, threshold, trigger);
    } else {
      assert a + b == b;
    }
  }

  /** A failed fetch is invisible: it neither extends nor breaks a streak. */
  lemma RunSkipsFailedFetch(count: int, a: seq<Option<real>>, b: seq<Option<real>>,
                            threshold: real, trigger: nat)
    requires trigger >= 1
    ensures Run(count, a + [None] + b, threshold, trigger) == Run(count, a + b, threshold, trigger)
  {
    RunAppend(count, a, [None] + b, threshold, trigger);
    RunAppend(count, a, b, threshold, trigger);
    assert a + [None] + b == a + ([None] + b);
    assert ([None] + b)[1..] == b;
  }

  /** A single reading at or below the threshold breaks any streak, whatever
      came before. */
  lemma RunBreaks(count: int, a: seq<Option<real>>, t: real, threshold: real, trigger: nat)
    requires trigger >= 1 && t <= threshold
    ensures Run(count, a + [Some(t)], threshold, trigger).count == 0
  {
    RunAppend(count, a, [Some(t)], threshold, trigger);
  }

  /** Above-threshold readings that do not reach the trigger count only build
      the streak up. */
  lemma {:induction false} StreakBuilds(count: int, temps: seq<Option<real>>, threshold: real, trigger: nat)
    requires trigger >= 1 && 0 <= count && count + |temps| < trigger
    requires forall i :: 0 <= i < |temps| ==> temps[i].Some? && temps[i].value > threshold
    ensures Run(count, temps, threshold, trigger) == RunResult(count + |temps|, [])
    decreases |temps|
  {
    if temps != [] {
      StreakBuilds(count + 1, temps[1..], threshold, trigger);
    }
  }

  /** From a reset counter, trigger-many consecutive above-threshold readings
      fire exactly one alert, on the last of them, carrying its temperature,
      and leave the counter at 0. */
  lemma StreakFires(temps: seq<Option<real>>, threshold: real, trigger: nat)
    requires trigger >= 1 && |temps| == trigger
    requires forall i :: 0 <= i < |temps| ==> temps[i].Some? && temps[i].value > threshold
    ensures Run(0, temps, threshold, trigger) == RunResult(0, [temps[trigger - 1].value])
  {
    var k := trigger - 1;
    assert temps == temps[..k] + [temps[k]];
    StreakBuilds(0, temps[..k], threshold, trigger);
    RunAppend(0, temps[..k], [temps[k]], threshold, trigger);
  }

  /** With the configured threshold of 35 degrees and two consecutive
      updates: readings 36, 36 fire one alert carrying 36 on the second; for
      34, 36, 36 the counter is 0 after the first, 1 after the second, and
      the third fires an alert carrying 36 and resets it. */
  lemma ConfiguredScenario()
    ensures Run(0, [Some(36.0), Some(36.0)], TEMP_THRESHOLD, ALERT_CONSECUTIVE_UPDATES) == RunResult(0, [36.0])
    ensures Run(0, [Some(34.0)], TEMP_THRESHOLD, ALERT_CONSECUTIVE_UPDATES) == RunResult(0, [])
    ensures Run(0, [Some(34.0), Some(36.0)], TEMP_THRESHOLD, ALERT_CONSECUTIVE_UPDATES) == RunResult(1, [])
    ensures Run(0, [Some(34.0), Some(36.0), Some(36.0)], TEMP_THRESHOLD, ALERT_CONSECUTIVE_UPDATES) == RunResult(0, [36.0])
  {
    StreakFires([Some(36.0), Some(36.0)], TEMP_THRESHOLD, ALERT_CONSECUTIVE_UPDATES);
    RunAppend(0, [Some(34.0)], [Some(36.0), Some(36.0)], TEMP_THRESHOLD, ALERT_CONSECUTIVE_UPDATES);
    assert [Some(34.0)] + [Some(36.0), Some(36.0)] == [Some(34.0), Some(36.0), Some(36.0)];
  }

  /** The cities of some alerts, in order. */
  function AlertCities(alerts: seq<Alert>): (cs: seq<string>)
    ensures |cs| == |alerts|
  {
    if alerts == [] then [] else AlertCities(alerts[..|alerts| - 1]) + [alerts[|alerts| - 1].city]
  }

  /** An alert tick fires at most one alert per visit: as a multiset, the
      cities of its alerts are among the cities it visits. */
  lemma {:induction false} CheckAllOnePerVisit(counts: Counters, cities: seq<string>, readings: seq<Option<Reading>>,
                                               threshold: real, trigger: nat)
    requires trigger >= 1 && |cities| == |readings|
    requires forall c :: c in cities ==> c in counts
    ensures multiset(AlertCities(CheckAll(counts, cities, readings, threshold, trigger).alerts)) <= multiset(cities)
    decreases |cities|
  {
    if cities != [] {
      var k := |cities| - 1;
      Snoc(cities);
      Snoc(readings);
      CheckAllSnoc(counts, cities, readings, cities[..k], readings[..k], cities[k], readings[k], threshold, trigger);
      CheckAllOnePerVisit(counts, cities[..k], readings[..k], threshold, trigger);
      var p := CheckAll(counts, cities[..k], readings[..k], threshold, trigger);
      var s := CheckStep(p.counts, cities[k], readings[k], threshold, trigger);
      if s.alert.Some? {
        PrefixOfSnoc(p.alerts, s.alert.value);
      } else {
        AppendEmpty(p.alerts);
      }
    }
  }

  /** What one city's counter sees of a batch: that city's fetch results in
      order, a temperature for a reading and None for a failed fetch; the
      other cities' readings are skipped. */
  function CityTemps(cities: seq<string>, readings: seq<Option<Reading>>, city: string): (ts: seq<Option<real>>)
    requires |cities| == |readings|
    ensures |ts| <= |cities|
    decreases |cities|
  {
    if cities == [] then []
    else
      var k := |cities| - 1;
      var rest := CityTemps(cities[..k], readings[..k], city);
      if cities[k] != city then rest
      else rest + [if readings[k].Some? then Some(readings[k].value.temp) else None]
  }

  /** The temperatures carried by the alerts of one city, in order. */
  function AlertTemps(alerts: seq<Alert>, city: string): (ts: seq<real>)
    ensures |ts| <= |alerts|
  {
    if alerts == [] then []
    else
      var k := |alerts| - 1;
      AlertTemps(alerts[..k], city) + (if alerts[k].city == city then [alerts[k].temp] else [])
  }

  lemma AlertTempsAppend(alerts: seq<Alert>, o: Option<Alert>, city: string)
    ensures AlertTemps(alerts + Fired(o), city)
         == AlertTemps(alerts, city) + (if o.Some? && o.value.city == city then [o.value.temp] else [])
  {
    if o.Some? {
      PrefixOfSnoc(alerts, o.value);
    } else {
      AppendEmpty(alerts);
    }
  }

  /** A run over one more tick is the run so far, then one more step. */
  lemma RunLast(count: int, temps: seq<Option<real>>, entry: Option<real>, threshold: real, trigger: nat)
    requires trigger >= 1
    ensures var first := Run(count, temps, threshold, trigger);
      Run(count, temps + [entry], threshold, trigger)
        == if entry.None? then first
           else
             var step := Step(first.count, entry.value, threshold, trigger);
             RunResult(step.count, first.alerts + (if step.fired then [entry.value] else []))
  {
    RunAppend(count, temps, [entry], threshold, trigger);
    var first := Run(count, temps, threshold, trigger);
    AppendEmpty(first.alerts);
    if entry.Some? {
      var step := Step(first.count, entry.value, threshold, trigger);
      AppendEmpty(if step.fired then [entry.value] else []);
    }
  }

  /** Whatever other cities are interleaved, an alert tick moves one city's
      counter exactly as Run does over that city's fetch results, and the
      alerts it fires for that city carry exactly the temperatures Run
      reports. */
  lemma {:induction false} CheckAllRun(counts: Counters, cities: seq<string>, readings: seq<Option<Reading>>,
                                       threshold: real, trigger: nat, city: string)
    requires trigger >= 1 && |cities| == |readings|
    requires forall c :: c in cities ==> c in counts
    requires city in counts
    ensures var r := CheckAll(counts, cities, readings, threshold, trigger);
      var run := Run(counts[city], CityTemps(cities, readings, city), threshold, trigger);
      city in r.counts && r.counts[city] == run.count && AlertTemps(r.alerts, city) == run.alerts
    decreases |cities|
  {
    if cities != [] {
      var k := |cities| - 1;
      Snoc(cities);
      Snoc(readings);
      CheckAllSnoc(counts, cities, readings, cities[..k], readings[..k], cities[k], readings[k], threshold, trigger);
      CheckAllRun(counts, cities[..k], readings[..k], threshold, trigger, city);
      var p := CheckAll(counts, cities[..k], readings[..k], threshold, trigger);
      var s := CheckStep(p.counts, cities[k], readings[k], threshold, trigger);
      AlertTempsAppend(p.alerts, s.alert, city);
      if cities[k] == city {
        var entry := if readings[k].Some? then Some(readings[k].value.temp) else None;
        RunLast(counts[city], CityTemps(cities[..k], readings[..k], city), entry, threshold, trigger);
      }
    }
  }

  /** Checking two batches one after the other is checking their
      concatenation. */
  lemma {:induction false} CheckAllAppend(counts: Counters, c1: seq<string>, r1: seq<Option<Reading>>,
                                          c2: seq<string>, r2: seq<Option<Reading>>, threshold: real, trigger: nat)
    requires trigger >= 1 && |c1| == |r1| && |c2| == |r2|
    requires forall c :: c in c1 + c2 ==> c in counts
    ensures forall c :: c in c1 ==> c in counts
    ensures var first := CheckAll(counts, c1, r1, threshold, trigger);
      && (forall c :: c in c2 ==> c in first.counts)
      && var second := CheckAll(first.counts, c2, r2, threshold, trigger);
      && CheckAll(counts, c1 + c2, r1 + r2, threshold, trigger) == TickResult(second.counts, first.alerts + second.alerts)
    decreases |c2|
  {
    assert forall c :: c in c1 ==> c in c1 + c2;
    assert forall c :: c in c2 ==> c in c1 + c2;
    var first := CheckAll(counts, c1, r1, threshold, trigger);
    if c2 == [] {
      AppendEmpty(c1);
      AppendEmpty(r1);
      AppendEmpty(first.alerts);
    } else {
      var k := |c2| - 1;
      var pc, pr := c2[..k], r2[..k];
      Snoc(c2);
      Snoc(r2);
      AppendSnoc(c1, c2);
      AppendSnoc(r1, r2);
      assert forall c :: c in c1 + pc ==> c in c1 + c2;
      CheckAllAppend(counts, c1, r1, pc, pr, threshold, trigger);
      var mid := CheckAll(first.counts, pc, pr, threshold, trigger);
      var s := CheckStep(mid.counts, c2[k], r2[k], threshold, trigger);
      assert CheckAll(counts, c1 + c2, r1 + r2, threshold, trigger) == TickResult(s.counts, first.alerts + mid.alerts + Fired(s.alert)) by {
        CheckAllSnoc(counts, c1 + c2, r1 + r2, c1 + pc, r1 + pr, c2[k], r2[k], threshold, trigger);
      }
      assert CheckAll(first.counts, c2, r2, threshold, trigger) == TickResult(s.counts, mid.alerts + Fired(s.alert)) by {
        CheckAllSnoc(first.counts, c2, r2, pc, pr, c2[k], r2[k], threshold, trigger);
      }
      Assoc(first.alerts, mid.alerts, Fired(s.alert));
    }
  }

  /** Successive alert ticks over the configured cities, each tick one fetch
      result per city, with the alerts of all ticks in order. */
  function CheckTicks(counts: Counters, cities: seq<string>, ticks: seq<seq<Option<Reading>>>,
                      threshold: real, trigger: nat): (r: TickResult)
    requires trigger >= 1 && forall t :: t in ticks ==> |t| == |cities|
    requires forall c :: c in cities ==> c in counts
    ensures r.counts.Keys == counts.Keys
    ensures InRange(counts, trigger) ==> InRange(r.counts, trigger)
    decreases |ticks|
  {
    if ticks == [] then TickResult(counts, [])
    else
      var k := |ticks| - 1;
      assert forall t :: t in ticks[..k] ==> t in ticks;
      assert ticks[k] in ticks;
      var p := CheckTicks(counts, cities, ticks[..k], threshold, trigger);
      var q := CheckAll(p.counts, cities, ticks[k], threshold, trigger);
      TickResult(q.counts, p.alerts + q.alerts)
  }

  /** Successive alert ticks are the ticks but the last, then the last one. */
  lemma CheckTicksLast(counts: Counters, cities: seq<string>, ticks: seq<seq<Option<Reading>>>,
                       threshold: real, trigger: nat)
    requires trigger >= 1 && ticks != [] && forall t :: t in ticks ==> |t| == |cities|
    requires forall c :: c in cities ==> c in counts
    ensures forall t :: t in ticks[..|ticks| - 1] ==> |t| == |cities|
    ensures |ticks[|ticks| - 1]| == |cities|
    ensures var p := CheckTicks(counts, cities, ticks[..|ticks| - 1], threshold, trigger);
      && (forall c :: c in cities ==> c in p.counts)
      && var q := CheckAll(p.counts, cities, ticks[|ticks| - 1], threshold, trigger);
      && CheckTicks(counts, cities, ticks, threshold, trigger) == TickResult(q.counts, p.alerts + q.alerts)
  {
    assert forall t :: t in ticks[..|ticks| - 1] ==> t in ticks;
    assert ticks[|ticks| - 1] in ticks;
  }

  /** Successive alert ticks are one batch over the cities repeated once per
      tick and the ticks' fetch results one after the other. */
  lemma {:induction false} CheckTicksIsCheckAll(counts: Counters, cities: seq<string>, ticks: seq<seq<Option<Reading>>>,
                                                threshold: real, trigger: nat)
    requires trigger >= 1 && forall t :: t in ticks ==> |t| == |cities|
    requires forall c :: c in cities ==> c in counts
    ensures |Repeat(cities, |ticks|)| == |Flatten(ticks)|
    ensures forall c :: c in Repeat(cities, |ticks|) ==> c in counts
    ensures CheckTicks(counts, cities, ticks, threshold, trigger)
         == CheckAll(counts, Repeat(cities, |ticks|), Flatten(ticks), threshold, trigger)
    decreases |ticks|
  {
    FlattenLength(ticks, cities);
    RepeatMembers(cities, |ticks|);
    if ticks != [] {
      var k := |ticks| - 1;
      CheckTicksLast(counts, cities, ticks, threshold, trigger);
      var before, earlier := Repeat(cities, k), Flatten(ticks[..k]);
      CheckTicksIsCheckAll(counts, cities, ticks[..k], threshold, trigger);
      var p := CheckTicks(counts, cities, ticks[..k], threshold, trigger);
      var q := CheckAll(p.counts, cities, ticks[k], threshold, trigger);
      assert Repeat(cities, |ticks|) == before + cities && Flatten(ticks) == earlier + ticks[k] by {
        TicksLayout(cities, ticks);
      }
      assert CheckAll(counts, before + cities, earlier + ticks[k], threshold, trigger) == TickResult(q.counts, p.alerts + q.alerts) by {
        CheckAllAppend(counts, before, earlier, cities, ticks[k], threshold, trigger);
      }
    }
  }

  /** Over any number of alert ticks, one city's counter moves exactly as
      Run does over that city's fetch results of all the ticks, and the
      alerts fired for it carry exactly the temperatures Run reports,
      whatever the other cities report in between. */
  lemma TicksRun(counts: Counters, cities: seq<string>, ticks: seq<seq<Option<Reading>>>,
                 threshold: real, trigger: nat, city: string)
    requires trigger >= 1 && forall t :: t in ticks ==> |t| == |cities|
    requires forall c :: c in cities ==> c in counts
    requires city in counts
    ensures |Repeat(cities, |ticks|)| == |Flatten(ticks)|
    ensures var r := CheckTicks(counts, cities, ticks, threshold, trigger);
      var run := Run(counts[city], CityTemps(Repeat(cities, |ticks|), Flatten(ticks), city), threshold, trigger);
      city in r.counts && r.counts[city] == run.count && AlertTemps(r.alerts, city) == run.alerts
  {
    CheckTicksIsCheckAll(counts, cities, ticks, threshold, trigger);
    CheckAllRun(counts, Repeat(cities, |ticks|), Flatten(ticks), threshold, trigger, city);
  }

  /** From a reset counter, when the fetch results of one city over a run of
      alert ticks are trigger-many readings above the threshold, exactly one
      alert fires for that city, on the last of them, and its counter is
      back at 0, whatever the other cities report in between. */
  lemma TicksStreakFires(counts: Counters, cities: seq<string>, ticks: seq<seq<Option<Reading>>>,
                         threshold: real, trigger: nat, city: string)
    requires trigger >= 1 && forall t :: t in ticks ==> |t| == |cities|
    requires forall c :: c in cities ==> c in counts
    requires city in counts && counts[city] == 0
    requires |Repeat(cities, |ticks|)| == |Flatten(ticks)|
    requires var ts := CityTemps(Repeat(cities, |ticks|), Flatten(ticks), city);
      |ts| == trigger && forall i :: 0 <= i < |ts| ==> ts[i].Some? && ts[i].value > threshold
    ensures var ts := CityTemps(Repeat(cities, |ticks|), Flatten(ticks), city);
      var r := CheckTicks(counts, cities, ticks, threshold, trigger);
      city in r.counts && r.counts[city] == 0 && AlertTemps(r.alerts, city) == [ts[trigger - 1].value]
  {
    TicksRun(counts, cities, ticks, threshold, trigger, city);
    StreakFires(CityTemps(Repeat(cities, |ticks|), Flatten(ticks), city), threshold, trigger);
  }
}
