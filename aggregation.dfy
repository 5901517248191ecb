/** The daily aggregator: readings accumulate per city and per UTC day in
    buckets holding the temperatures and the condition labels in arrival
    order; once a bucket holds the configured number of samples, every
    further reading that day yields a summary over the whole bucket. */
module Aggregation {
  import opened Wrappers
  import opened Weather
  import opened Stats

  /** The samples of one city on one day, in arrival order. */
  datatype Bucket = Bucket(temps: seq<real>, conditions: seq<string>)

  /** All buckets: city name to day key to bucket. */
  type Buckets = map<string, map<int, Bucket>>

  /** The daily rollup handed to the store. */
  datatype Summary = Summary(city: string, day: int, avg: real, max: real, min: real, dominant: string)

  /** One entry pair per accepted reading, and a bucket exists only once a
      reading has gone into it. */
  predicate BucketOk(b: Bucket)
  {
    |b.temps| == |b.conditions| > 0
  }

  ghost predicate WellFormed(bs: Buckets)
  {
    forall city, day :: city in bs && day in bs[city] ==> BucketOk(bs[city][day])
  }

  /** The bucket of a city and day; a bucket not created yet reads as empty. */
  function BucketOf(bs: Buckets, city: string, day: int): Bucket
  {
    if city in bs && day in bs[city] then bs[city][day] else Bucket([], [])
  }

  /** The buckets after one accepted reading: the reading's temperature and
      label are appended to the bucket of its city and UTC day, which is
      created when missing. Every other bucket, of that city or another, is
      unchanged, and the two lists of every bucket keep equal lengths. */
  function Appended(bs: Buckets, city: string, r: Reading): (bs': Buckets)
    ensures bs'.Keys == bs.Keys + {city}
    ensures forall c :: c in bs && c != city ==> bs'[c] == bs[c]
    ensures bs'[city].Keys == (if city in bs then bs[city].Keys else {}) + {DayKey(r.timestamp)}
    ensures forall d :: city in bs && d in bs[city] && d != DayKey(r.timestamp) ==> bs'[city][d] == bs[city][d]
    ensures BucketOf(bs', city, DayKey(r.timestamp)).temps == BucketOf(bs, city, DayKey(r.timestamp)).temps + [r.temp]
    ensures BucketOf(bs', city, DayKey(r.timestamp)).conditions == BucketOf(bs, city, DayKey(r.timestamp)).conditions + [r.condition]
    ensures WellFormed(bs) ==> WellFormed(bs')
  {
    var day := DayKey(r.timestamp);
    var days := if city in bs then bs[city] else map[];
    var b := BucketOf(bs, city, day);
    bs[city := days[day := Bucket(b.temps + [r.temp], b.conditions + [r.condition])]]
  }

  /** The summary of a city's bucket for one day: it names the city and the
      day, its average times the sample count is the sum of the temperatures,
      its extremes are recorded temperatures and its dominant condition is a
      recorded label. */
  function Summarize(city: string, day: int, b: Bucket): (s: Summary)
    requires |b.temps| > 0 && |b.conditions| > 0
    ensures s.city == city && s.day == day
    ensures s.avg * (|b.temps| as real) == Sum(b.temps)
    ensures s.max in b.temps && s.min in b.temps && s.dominant in b.conditions
  {
    Summary(city, day, Average(b.temps), Max(b.temps), Min(b.temps), Dominant(b.conditions))
  }

  /** What else a summary states about its bucket: it names the bucket's city
      and day; the maximum and the minimum are recorded temperatures that
      bound every recorded temperature and the average; the dominant
      condition is a recorded label that occurs at least as often as any
      other. */
  lemma SummaryOfBucket(city: string, day: int, b: Bucket)
    requires |b.temps| > 0 && |b.conditions| > 0
    ensures var s := Summarize(city, day, b);
      && s.city == city && s.day == day
      && s.max in b.temps && s.min in b.temps
      && (forall t :: t in b.temps ==> s.min <= t <= s.max)
      && s.min <= s.avg <= s.max
      && s.dominant in b.conditions
      && forall c :: c in b.conditions ==> Count(b.conditions, c) <= Count(b.conditions, s.dominant)
  {
    AverageBetweenExtremes(b.temps);
  }

  /** Four samples 30, 32, 31, 29 under Clear, Clear, Rain, Clear summarise
      to an average of 30.5, a maximum of 32, a minimum of 29 and the
      dominant condition Clear, which no tie leaves open. */
  lemma FourSampleExample(city: string, day: int)
    ensures Summarize(city, day, Bucket([30.0, 32.0, 31.0, 29.0], ["Clear", "Clear", "Rain", "Clear"]))
         == Summary(city, day, 30.5, 32.0, 29.0, "Clear")
  {
    FourSampleTemperatures();
    FourSampleConditions();
  }

  lemma FourSampleTemperatures()
    ensures Average([30.0, 32.0, 31.0, 29.0]) == 30.5
    ensures Max([30.0, 32.0, 31.0, 29.0]) == 32.0 && Min([30.0, 32.0, 31.0, 29.0]) == 29.0
  {
    var temps := [30.0, 32.0, 31.0, 29.0];
    assert temps[1..] == [32.0, 31.0, 29.0] && temps[2..] == [31.0, 29.0] && temps[3..] == [29.0];
    assert Sum(temps) == 122.0;
    assert Max([31.0, 29.0]) == 31.0 && Min([31.0, 29.0]) == 29.0;
  }

  lemma FourSampleConditions()
    ensures Dominant(["Clear", "Clear", "Rain", "Clear"]) == "Clear"
  {
    var labels := ["Clear", "Clear", "Rain", "Clear"];
    assert |"Rain"| != |"Clear"|;
    assert labels[1..] == ["Clear", "Rain", "Clear"] && labels[2..] == ["Rain", "Clear"] && labels[3..] == ["Clear"];
    assert Count(["Clear"], "Clear") == 1 && Count(["Clear"], "Rain") == 0;
    assert Count(["Rain", "Clear"], "Clear") == 1 && Count(["Rain", "Clear"], "Rain") == 1;
    assert Count(labels[1..], "Clear") == 2 && Count(labels[1..], "Rain") == 1;
    assert Count(labels, "Clear") == 3 && Count(labels, "Rain") == 1;
    forall c | c in labels && c != "Clear"
      ensures Count(labels, c) < Count(labels, "Clear")
    {
      assert c == "Rain";
    }
    DominantOfStrictMaximum(labels, "Clear");
  }

  datatype StepResult = StepResult(buckets: Buckets, summary: Option<Summary>)

  /** One city's share of an aggregation tick. A failed fetch changes nothing
      and yields nothing. An accepted reading is appended to its bucket, and
      a summary of that whole bucket is produced exactly when the bucket then
      holds at least n samples. */
  function RecordStep(bs: Buckets, city: string, reading: Option<Reading>, n: nat): (r: StepResult)
    ensures reading.None? ==> r == StepResult(bs, None)
    ensures reading.Some? ==> r.buckets == Appended(bs, city, reading.value)
    ensures reading.Some? ==>
      (r.summary.Some? <==> |BucketOf(r.buckets, city, DayKey(reading.value.timestamp)).temps| >= n)
    ensures r.summary.Some? ==>
      && reading.Some?
      && var day := DayKey(reading.value.timestamp);
      && var b := BucketOf(r.buckets, city, day);
      && |b.temps| > 0 && |b.conditions| > 0
      && r.summary.value == Summarize(city, day, b)
    ensures r.summary.Some? ==> r.summary.value.city == city && r.summary.value.day == DayKey(reading.value.timestamp)
  {
    match reading
    case None => StepResult(bs, None)
    case Some(rd) =>
      var day := DayKey(rd.timestamp);
      var bs' := Appended(bs, city, rd);
      var b := BucketOf(bs', city, day);
      if |b.temps| >= n then StepResult(bs', Some(Summarize(city, day, b)))
      else StepResult(bs', None)
  }

  /** The summaries an optional one stands for, as a list for the store. */
  function Emitted(o: Option<Summary>): seq<Summary>
  {
    if o.Some? then [o.value] else []
  }

  datatype FeedResult = FeedResult(buckets: Buckets, summaries: seq<Summary>)

  /** The readings fed one after the other, the i-th reading for the i-th
      city, with the summaries produced in order. At most one summary comes
      from each reading, each for the city of its reading. */
  function Feed(bs: Buckets, cities: seq<string>, readings: seq<Option<Reading>>, n: nat): (r: FeedResult)
    requires |cities| == |readings|
    ensures WellFormed(bs) ==> WellFormed(r.buckets)
    ensures |r.summaries| <= |cities|
    ensures forall s :: s in r.summaries ==> s.city in cities
    ensures forall c :: c in bs && c !in cities ==> c in r.buckets && r.buckets[c] == bs[c]
    decreases |cities|
  {
    if cities == [] then FeedResult(bs, [])
    else
      var k := |cities| - 1;
      var p := Feed(bs, cities[..k], readings[..k], n);
      var s := RecordStep(p.buckets, cities[k], readings[k], n);
      assert forall c :: c in cities[..k] ==> c in cities;
      FeedResult(s.buckets, p.summaries + Emitted(s.summary))
  }

  /** One more reading of a city's day extends that day's bucket by its
      temperature and label, and yields a summary of the extended bucket
      exactly when it then holds at least n samples. */
  lemma StepOnDay(bs: Buckets, city: string, day: int, reading: Option<Reading>, b: Bucket, n: nat)
    requires reading.Some? && DayKey(reading.value.timestamp) == day
    requires BucketOf(bs, city, day) == b
    ensures var b' := Bucket(b.temps + [reading.value.temp], b.conditions + [reading.value.condition]);
      && BucketOf(RecordStep(bs, city, reading, n).buckets, city, day) == b'
      && RecordStep(bs, city, reading, n).summary
         == if |b'.temps| >= n then Some(Summarize(city, day, b')) else None
  {
  }

  /** The summaries a day's readings should produce, one per reading from the
      n-th on, each over the readings up to and including it. */
  function DaySummaries(city: string, day: int, temps: seq<real>, conditions: seq<string>, n: nat): seq<Summary>
    requires n >= 1 && |temps| == |conditions|
  {
    if |temps| < n then []
    else
      var k := |temps| - 1;
      DaySummaries(city, day, temps[..k], conditions[..k], n) + [Summarize(city, day, Bucket(temps, conditions))]
  }

  /** There is no summary before the n-th reading, and the j-th summary covers
      exactly the first n + j readings. */
  lemma {:induction false} DaySummariesAt(city: string, day: int, temps: seq<real>, conditions: seq<string>, n: nat)
    requires n >= 1 && |temps| == |conditions|
    ensures |DaySummaries(city, day, temps, conditions, n)| == (if |temps| < n then 0 else |temps| - n + 1)
    ensures forall j :: 0 <= j < |DaySummaries(city, day, temps, conditions, n)| ==>
      DaySummaries(city, day, temps, conditions, n)[j]
        == Summarize(city, day, Bucket(temps[..n + j], conditions[..n + j]))
  {
    if |temps| >= n {
      var k := |temps| - 1;
      DaySummariesAt(city, day, temps[..k], conditions[..k], n);
      var q := DaySummaries(city, day, temps, conditions, n);
      var p := DaySummaries(city, day, temps[..k], conditions[..k], n);
      forall j | 0 <= j < |q|
        ensures q[j] == Summarize(city, day, Bucket(temps[..n + j], conditions[..n + j]))
      {
        if j < |p| {
          assert temps[..k][..n + j] == temps[..n + j];
          assert conditions[..k][..n + j] == conditions[..n + j];
        } else {
          assert temps[..n + j] == temps && conditions[..n + j] == conditions;
        }
      }
    }
  }

  /** Feeding a non-empty batch is feeding all but its last reading, then
      recording the last one. */
  lemma FeedLast(bs: Buckets, cities: seq<string>, readings: seq<Option<Reading>>, n: nat)
    requires |cities| == |readings| > 0
    ensures var k := |cities| - 1;
      var p := Feed(bs, cities[..k], readings[..k], n);
      var step := RecordStep(p.buckets, cities[k], readings[k], n);
      Feed(bs, cities, readings, n) == FeedResult(step.buckets, p.summaries + Emitted(step.summary))
  {
  }

  /** One more reading of the day adds its summary once the n-th reading is in. */
  lemma DayExtend(city: string, day: int, temps: seq<real>, conditions: seq<string>, n: nat, emitted: seq<Summary>)
    requires n >= 1 && |temps| == |conditions| > 0
    requires emitted == if |temps| >= n then [Summarize(city, day, Bucket(temps, conditions))] else []
    ensures var k := |temps| - 1;
      DaySummaries(city, day, temps, conditions, n) == DaySummaries(city, day, temps[..k], conditions[..k], n) + emitted
  {
    var k := |temps| - 1;
    if |temps| < n {
      assert DaySummaries(city, day, temps[..k], conditions[..k], n) == [];
    }
  }

  /** The cities of some summaries, in order. */
  function SummaryCities(ss: seq<Summary>): (cs: seq<string>)
    ensures |cs| == |ss|
  {
    if ss == [] then [] else SummaryCities(ss[..|ss| - 1]) + [ss[|ss| - 1].city]
  }

  /** A tick stores at most one summary per visit: as a multiset, the cities
      of its summaries are among the cities it visits. */
  lemma {:induction false} FeedOnePerVisit(bs: Buckets, cities: seq<string>, readings: seq<Option<Reading>>, n: nat)
    requires |cities| == |readings|
    ensures multiset(SummaryCities(Feed(bs, cities, readings, n).summaries)) <= multiset(cities)
    decreases |cities|
  {
    if cities != [] {
      var k := |cities| - 1;
      FeedOnePerVisit(bs, cities[..k], readings[..k], n);
      FeedLast(bs, cities, readings, n);
      Snoc(cities);
      var p := Feed(bs, cities[..k], readings[..k], n);
      var step := RecordStep(p.buckets, cities[k], readings[k], n);
      if step.summary.Some? {
        PrefixOfSnoc(p.summaries, step.summary.value);
      } else {
        AppendEmpty(p.summaries);
      }
    }
  }

  /** The accepted readings a batch holds for one city on one day, in arrival
      order: the readings of other cities and other days and the failed
      fetches are skipped. */
  function DayReadings(cities: seq<string>, readings: seq<Option<Reading>>, city: string, day: int): (rs: seq<Reading>)
    requires |cities| == |readings|
    ensures |rs| <= |readings|
    ensures forall r :: r in rs ==> DayKey(r.timestamp) == day
    decreases |cities|
  {
    if cities == [] then []
    else
      var k := |cities| - 1;
      var rest := DayReadings(cities[..k], readings[..k], city, day);
      if cities[k] == city && readings[k].Some? && DayKey(readings[k].value.timestamp) == day
      then rest + [readings[k].value] else rest
  }

  /** The temperatures of some readings, in order. */
  function Temps(rs: seq<Reading>): (ts: seq<real>)
    ensures |ts| == |rs| && forall i :: 0 <= i < |rs| ==> ts[i] == rs[i].temp
  {
    if rs == [] then [] else Temps(rs[..|rs| - 1]) + [rs[|rs| - 1].temp]
  }

  /** The condition labels of some readings, in order. */
  function Conditions(rs: seq<Reading>): (cs: seq<string>)
    ensures |cs| == |rs| && forall i :: 0 <= i < |rs| ==> cs[i] == rs[i].condition
  {
    if rs == [] then [] else Conditions(rs[..|rs| - 1]) + [rs[|rs| - 1].condition]
  }

  lemma ReadingsAppend(rs: seq<Reading>, r: Reading)
    ensures Temps(rs + [r]) == Temps(rs) + [r.temp]
    ensures Conditions(rs + [r]) == Conditions(rs) + [r.condition]
  {
    PrefixOfSnoc(rs, r);
  }

  /** The summaries of one city and day among some summaries, in order. */
  function OnDay(ss: seq<Summary>, city: string, day: int): (r: seq<Summary>)
    ensures forall s :: s in r ==> s in ss && s.city == city && s.day == day
  {
    if ss == [] then []
    else
      var k := |ss| - 1;
      OnDay(ss[..k], city, day) + (if ss[k].city == city && ss[k].day == day then [ss[k]] else [])
  }

  lemma OnDayAppend(ss: seq<Summary>, o: Option<Summary>, city: string, day: int)
    ensures OnDay(ss + Emitted(o), city, day)
         == OnDay(ss, city, day) + (if o.Some? && o.value.city == city && o.value.day == day then [o.value] else [])
  {
    if o.Some? {
      PrefixOfSnoc(ss, o.value);
    } else {
      AppendEmpty(ss);
    }
  }

  /** A reading for another city or another day, or a failed fetch, leaves a
      bucket as it was. */
  lemma RecordElsewhere(bs: Buckets, city: string, reading: Option<Reading>, n: nat, c: string, d: int)
    requires reading.None? || city != c || DayKey(reading.value.timestamp) != d
    ensures BucketOf(RecordStep(bs, city, reading, n).buckets, c, d) == BucketOf(bs, c, d)
  {
  }

  /** Whatever other cities and days are interleaved, a batch extends the
      bucket of one city and day by exactly that city's accepted readings of
      that day, temperatures and labels in arrival order. */
  lemma {:induction false} DayBucket(bs: Buckets, cities: seq<string>, readings: seq<Option<Reading>>,
                                     city: string, day: int, n: nat)
    requires |cities| == |readings|
    ensures var b := BucketOf(bs, city, day);
      var rs := DayReadings(cities, readings, city, day);
      BucketOf(Feed(bs, cities, readings, n).buckets, city, day) == Bucket(b.temps + Temps(rs), b.conditions + Conditions(rs))
    decreases |cities|
  {
    var b := BucketOf(bs, city, day);
    if cities == [] {
      AppendEmpty(b.temps);
      AppendEmpty(b.conditions);
    } else {
      var k := |cities| - 1;
      DayBucket(bs, cities[..k], readings[..k], city, day, n);
      var p := Feed(bs, cities[..k], readings[..k], n);
      var rest := DayReadings(cities[..k], readings[..k], city, day);
      FeedLast(bs, cities, readings, n);
      if cities[k] == city && readings[k].Some? && DayKey(readings[k].value.timestamp) == day {
        var r := readings[k].value;
        StepOnDay(p.buckets, city, day, readings[k], Bucket(b.temps + Temps(rest), b.conditions + Conditions(rest)), n);
        ReadingsAppend(rest, r);
        Assoc(b.temps, Temps(rest), [r.temp]);
        Assoc(b.conditions, Conditions(rest), [r.condition]);
      } else {
        RecordElsewhere(p.buckets, cities[k], readings[k], n, city, day);
      }
    }
  }

  /** Whatever other cities and days are interleaved, a batch that starts
      before a city's day has a bucket stores, for that city and day, exactly
      the summaries DaySummaries describes over that city's accepted readings
      of that day: none before the n-th, then one per reading over all of the
      day's readings so far. */
  lemma {:induction false} DaySeries(bs: Buckets, cities: seq<string>, readings: seq<Option<Reading>>,
                                     city: string, day: int, n: nat)
    requires n >= 1 && |cities| == |readings|
    requires BucketOf(bs, city, day) == Bucket([], [])
    ensures var rs := DayReadings(cities, readings, city, day);
      OnDay(Feed(bs, cities, readings, n).summaries, city, day) == DaySummaries(city, day, Temps(rs), Conditions(rs), n)
    decreases |cities|
  {
    if cities != [] {
      var k := |cities| - 1;
      DaySeries(bs, cities[..k], readings[..k], city, day, n);
      DayBucket(bs, cities[..k], readings[..k], city, day, n);
      var p := Feed(bs, cities[..k], readings[..k], n);
      var rest := DayReadings(cities[..k], readings[..k], city, day);
      FeedLast(bs, cities, readings, n);
      var step := RecordStep(p.buckets, cities[k], readings[k], n);
      OnDayAppend(p.summaries, step.summary, city, day);
      if cities[k] == city && readings[k].Some? && DayKey(readings[k].value.timestamp) == day {
        var r := readings[k].value;
        AppendEmpty(Temps(rest));
        AppendEmpty(Conditions(rest));
        StepOnDay(p.buckets, city, day, readings[k], Bucket(Temps(rest), Conditions(rest)), n);
        ReadingsAppend(rest, r);
        PrefixOfSnoc(Temps(rest), r.temp);
        PrefixOfSnoc(Conditions(rest), r.condition);
        DayExtend(city, day, Temps(rest) + [r.temp], Conditions(rest) + [r.condition], n, Emitted(step.summary));
      }
    }
  }

  /** Feeding a batch that ends in one more reading is feeding the rest,
      then recording that reading. */
  lemma FeedSnoc(bs: Buckets, cities: seq<string>, readings: seq<Option<Reading>>,
                 pc: seq<string>, pr: seq<Option<Reading>>, c: string, r: Option<Reading>, n: nat)
    requires |pc| == |pr| && cities == pc + [c] && readings == pr + [r]
    ensures var p := Feed(bs, pc, pr, n);
      var step := RecordStep(p.buckets, c, r, n);
      Feed(bs, cities, readings, n) == FeedResult(step.buckets, p.summaries + Emitted(step.summary))
  {
    assert cities[..|pc|] == pc && readings[..|pr|] == pr;
    FeedLast(bs, cities, readings, n);
  }

  /** Feeding two batches one after the other is feeding their
      concatenation. */
  lemma {:induction false} FeedAppend(bs: Buckets, c1: seq<string>, r1: seq<Option<Reading>>,
                                      c2: seq<string>, r2: seq<Option<Reading>>, n: nat)
    requires |c1| == |r1| && |c2| == |r2|
    ensures var first := Feed(bs, c1, r1, n);
      var second := Feed(first.buckets, c2, r2, n);
      Feed(bs, c1 + c2, r1 + r2, n) == FeedResult(second.buckets, first.summaries + second.summaries)
    decreases |c2|
  {
    var first := Feed(bs, c1, r1, n);
    if c2 == [] {
      AppendEmpty(c1);
      AppendEmpty(r1);
      AppendEmpty(first.summaries);
    } else {
      var k := |c2| - 1;
      var pc, pr := c2[..k], r2[..k];
      FeedAppend(bs, c1, r1, pc, pr, n);
      Snoc(c2);
      Snoc(r2);
      AppendSnoc(c1, c2);
      AppendSnoc(r1, r2);
      FeedSnoc(bs, c1 + c2, r1 + r2, c1 + pc, r1 + pr, c2[k], r2[k], n);
      FeedSnoc(first.buckets, c2, r2, pc, pr, c2[k], r2[k], n);
      var mid := Feed(first.buckets, pc, pr, n);
      var step := RecordStep(mid.buckets, c2[k], r2[k], n);
      Assoc(first.summaries, mid.summaries, Emitted(step.summary));
    }
  }

  /** Successive aggregation ticks over the configured cities, each tick one
      fetch result per city, with the summaries of all ticks in order. */
  function FeedTicks(bs: Buckets, cities: seq<string>, ticks: seq<seq<Option<Reading>>>, n: nat): (r: FeedResult)
    requires forall t :: t in ticks ==> |t| == |cities|
    ensures WellFormed(bs) ==> WellFormed(r.buckets)
    ensures forall s :: s in r.summaries ==> s.city in cities
    decreases |ticks|
  {
    if ticks == [] then FeedResult(bs, [])
    else
      var k := |ticks| - 1;
      assert forall t :: t in ticks[..k] ==> t in ticks;
      var p := FeedTicks(bs, cities, ticks[..k], n);
      var f := Feed(p.buckets, cities, ticks[k], n);
      FeedResult(f.buckets, p.summaries + f.summaries)
  }

  /** Successive ticks are the ticks but the last, then the last tick. */
  lemma FeedTicksLast(bs: Buckets, cities: seq<string>, ticks: seq<seq<Option<Reading>>>, n: nat)
    requires ticks != [] && forall t :: t in ticks ==> |t| == |cities|
    ensures forall t :: t in ticks[..|ticks| - 1] ==> |t| == |cities|
    ensures |ticks[|ticks| - 1]| == |cities|
    ensures var p := FeedTicks(bs, cities, ticks[..|ticks| - 1], n);
      var f := Feed(p.buckets, cities, ticks[|ticks| - 1], n);
      FeedTicks(bs, cities, ticks, n) == FeedResult(f.buckets, p.summaries + f.summaries)
  {
    assert forall t :: t in ticks[..|ticks| - 1] ==> t in ticks;
    assert ticks[|ticks| - 1] in ticks;
  }

  /** Successive ticks are one batch over the cities repeated once per tick
      and the ticks' fetch results one after the other. */
  lemma {:induction false} FeedTicksIsFeed(bs: Buckets, cities: seq<string>, ticks: seq<seq<Option<Reading>>>, n: nat)
    requires forall t :: t in ticks ==> |t| == |cities|
    ensures |Repeat(cities, |ticks|)| == |Flatten(ticks)|
    ensures FeedTicks(bs, cities, ticks, n) == Feed(bs, Repeat(cities, |ticks|), Flatten(ticks), n)
    decreases |ticks|
  {
    FlattenLength(ticks, cities);
    if ticks != [] {
      var k := |ticks| - 1;
      FeedTicksLast(bs, cities, ticks, n);
      var before, earlier := Repeat(cities, k), Flatten(ticks[..k]);
      FeedTicksIsFeed(bs, cities, ticks[..k], n);
      var p := FeedTicks(bs, cities, ticks[..k], n);
      var f := Feed(p.buckets, cities, ticks[k], n);
      assert Feed(bs, before + cities, earlier + ticks[k], n) == FeedResult(f.buckets, p.summaries + f.summaries) by {
        FeedAppend(bs, before, earlier, cities, ticks[k], n);
      }
      assert Repeat(cities, |ticks|) == before + cities && Flatten(ticks) == earlier + ticks[k] by {
        TicksLayout(cities, ticks);
      }
    }
  }

  /** Over any number of aggregation ticks, from a day not yet bucketed, one
      city's day ends up holding exactly that city's accepted readings of the
      day, and the summaries stored for it are exactly those DaySummaries
      describes over them, whatever the other cities report in between. */
  lemma TicksDaySeries(bs: Buckets, cities: seq<string>, ticks: seq<seq<Option<Reading>>>,
                       city: string, day: int, n: nat)
    requires n >= 1 && forall t :: t in ticks ==> |t| == |cities|
    requires BucketOf(bs, city, day) == Bucket([], [])
    ensures |Repeat(cities, |ticks|)| == |Flatten(ticks)|
    ensures var rs := DayReadings(Repeat(cities, |ticks|), Flatten(ticks), city, day);
      && BucketOf(FeedTicks(bs, cities, ticks, n).buckets, city, day) == Bucket(Temps(rs), Conditions(rs))
      && OnDay(FeedTicks(bs, cities, ticks, n).summaries, city, day) == DaySummaries(city, day, Temps(rs), Conditions(rs), n)
  {
    FeedTicksIsFeed(bs, cities, ticks, n);
    var all := Repeat(cities, |ticks|);
    DayBucket(bs, all, Flatten(ticks), city, day, n);
    DaySeries(bs, all, Flatten(ticks), city, day, n);
    var rs := DayReadings(all, Flatten(ticks), city, day);
    AppendEmpty(Temps(rs));
    AppendEmpty(Conditions(rs));
  }
}
