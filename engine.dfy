/** The monitor's in-memory state and its two periodic steps: the
    aggregation tick feeds one reading per configured city into the daily
    buckets and hands every summary produced to the store; the alert tick
    feeds one reading per city into the breach counters and hands every
    alert fired to the notifier. The readings are the results of the fetches
    of that tick, in the order of the configured cities; a failed fetch is
    None. */
module Monitor {
  import opened Wrappers
  import opened Weather
  import opened Aggregation
  import opened Alerting
  import opened Config

  class Engine {
    /** The configured cities, in the order every tick visits them. */
    const cities: seq<string>
    /** How many samples a day's bucket needs before it is summarised. */
    const samplesPerDay: nat
    /** Readings strictly above this temperature count as a breach. */
    const threshold: real
    /** How many consecutive breaches fire an alert. */
    const trigger: nat

    /** City to day key to that day's bucket. */
    var buckets: Buckets
    /** City to its consecutive-breach counter. */
    var alertCount: Counters

    ghost predicate Valid()
      reads this
    {
      && samplesPerDay >= 1
      && trigger >= 1
      && WellFormed(buckets)
      && alertCount.Keys == set c | c in cities
      && InRange(alertCount, trigger)
    }

    /** No bucket yet, and every configured city's counter at 0. */
    constructor (cities: seq<string>, samplesPerDay: nat, threshold: real, trigger: nat)
      requires samplesPerDay >= 1 && trigger >= 1
      ensures Valid()
      ensures this.cities == cities && this.samplesPerDay == samplesPerDay
      ensures this.threshold == threshold && this.trigger == trigger
      ensures buckets == map[]
      ensures alertCount == map c | c in cities :: 0
    {
      this.cities := cities;
      this.samplesPerDay := samplesPerDay;
      this.threshold := threshold;
      this.trigger := trigger;
      buckets := map[];
      alertCount := map c | c in cities :: 0;
    }

    /** Feeds one city's fetch result into the aggregator. */
    method Record(city: string, reading: Option<Reading>) returns (summary: Option<Summary>)
      requires Valid()
      modifies this`buckets
      ensures Valid()
      ensures StepResult(buckets, summary) == RecordStep(old(buckets), city, reading, samplesPerDay)
    {
      summary := None;
      if reading.Some? {
        var r := reading.value;
        var day := DayKey(r.timestamp);
        ghost var before := BucketOf(buckets, city, day);
        ghost var known := if city in buckets then buckets[city] else map[];
        if city !in buckets {
          buckets := buckets[city := map[]];
        }
        var days := buckets[city];
        if day !in days {
          days := days[day := Bucket([], [])];
        }
        var b := days[day];
        assert b == before;
        b := b.(temps := b.temps + [r.temp]);
        b := b.(conditions := b.conditions + [r.condition]);
        assert days[day := b] == known[day := b];
        buckets := buckets[city := days[day := b]];
        assert buckets == old(buckets)[city := known[day := b]];
        assert buckets == Appended(old(buckets), city, r);
        if |b.temps| >= samplesPerDay {
          summary := Some(Summarize(city, day, b));
        }
      }
    }

    /** Feeds one city's fetch result into the alert engine. */
    method Check(city: string, reading: Option<Reading>) returns (alert: Option<Alert>)
      requires Valid() && city in alertCount
      modifies this`alertCount
      ensures Valid()
      ensures CheckResult(alertCount, alert) == CheckStep(old(alertCount), city, reading, threshold, trigger)
    {
      alert := None;
      if reading.Some? {
        var r := reading.value;
        if r.temp > threshold {
          alertCount := alertCount[city := alertCount[city] + 1];
        } else {
          alertCount := alertCount[city := 0];
        }
        if alertCount[city] >= trigger {
          alert := Some(Alert(city, r.temp));
          alertCount := alertCount[city := 0];
        }
      }
    }

    /** The aggregation tick: every configured city's reading in turn, with
        the summaries handed to the store in that order. */
    method ProcessWeatherData(readings: seq<Option<Reading>>) returns (stored: seq<Summary>)
      requires Valid() && |readings| == |cities|
      modifies this`buckets
      ensures Valid()
      ensures FeedResult(buckets, stored) == Feed(old(buckets), cities, readings, samplesPerDay)
    {
      stored := [];
      var i := 0;
      while i < |cities|
        invariant 0 <= i <= |cities|
        invariant Valid()
        invariant FeedResult(buckets, stored) == Feed(old(buckets), cities[..i], readings[..i], samplesPerDay)
      {
        TakeSnoc(cities, i);
        TakeSnoc(readings, i);
        FeedSnoc(old(buckets), cities[..i + 1], readings[..i + 1], cities[..i], readings[..i],
                 cities[i], readings[i], samplesPerDay);
        var summary := Record(cities[i], readings[i]);
        stored := stored + Emitted(summary);
        i := i + 1;
      }
      assert cities[..i] == cities && readings[..i] == readings;
    }

    /** The alert tick: every configured city's reading in turn, with the
        alerts handed to the notifier in that order. */
    method CheckAlerts(readings: seq<Option<Reading>>) returns (sent: seq<Alert>)
      requires Valid() && |readings| == |cities|
      modifies this`alertCount
      ensures Valid()
      ensures TickResult(alertCount, sent) == CheckAll(old(alertCount), cities, readings, threshold, trigger)
    {
      sent := [];
      var i := 0;
      assert forall c :: c in cities ==> c in alertCount;
      while i < |cities|
        invariant 0 <= i <= |cities|
        invariant Valid()
        invariant forall c :: c in cities ==> c in old(alertCount)
        invariant TickResult(alertCount, sent) == CheckAll(old(alertCount), cities[..i], readings[..i], threshold, trigger)
      {
        TakeSnoc(cities, i);
        TakeSnoc(readings, i);
        CheckAllSnoc(old(alertCount), cities[..i + 1], readings[..i + 1], cities[..i], readings[..i],
                     cities[i], readings[i], threshold, trigger);
        var alert := Check(cities[i], readings[i]);
        sent := sent + Fired(alert);
        i := i + 1;
      }
      assert cities[..i] == cities && readings[..i] == readings;
    }
  }

  /** The monitor as deployed: the configured cities, two samples per day,
      a breach above 35 degrees and an alert after two consecutive
      breaches, with no bucket yet and every counter at 0. */
  method Configured() returns (e: Engine)
    ensures fresh(e) && e.Valid()
    ensures e.cities == CITIES && e.samplesPerDay == SAMPLES_PER_DAY
    ensures e.threshold == TEMP_THRESHOLD && e.trigger == ALERT_CONSECUTIVE_UPDATES
    ensures e.buckets == map[] && e.alertCount == map c | c in CITIES :: 0
  {
    e := new Engine(CITIES, SAMPLES_PER_DAY, TEMP_THRESHOLD, ALERT_CONSECUTIVE_UPDATES);
  }
}
