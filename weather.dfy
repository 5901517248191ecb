/** A reading as the weather source hands it to the core, and the UTC day
    key that groups readings into daily buckets. */
module Weather {
  import opened Wrappers

  /** Seconds in one UTC day: a Unix timestamp's calendar date changes every
      this many seconds. */
  const SECONDS_PER_DAY: int := 86400

  /** One successful fetch: temperature and feels-like temperature already
      converted to degrees Celsius, the condition label ("Clear", "Rain", ...)
      and the sample time as a Unix timestamp in seconds. */
  datatype Reading = Reading(temp: real, feelsLike: real, condition: string, timestamp: int)

  /** The UTC day a timestamp falls in, numbered from 1970-01-01. It stands in
      for the calendar date string the source derives from the timestamp: two
      timestamps give the same date string exactly when they give the same
      day number. The division floors, as the conversion of a negative
      timestamp to a date does. */
  function DayKey(timestamp: int): (day: int)
    ensures day * SECONDS_PER_DAY <= timestamp < (day + 1) * SECONDS_PER_DAY
  {
    timestamp / SECONDS_PER_DAY
  }

  /** Every timestamp inside one UTC day has that day as its key, so readings
      taken on the same day land in the same bucket. */
  lemma SameUtcDay(t1: int, t2: int, day: int)
    requires day * SECONDS_PER_DAY <= t1 < (day + 1) * SECONDS_PER_DAY
    requires day * SECONDS_PER_DAY <= t2 < (day + 1) * SECONDS_PER_DAY
    ensures DayKey(t1) == day && DayKey(t2) == day
  {
  }

  /** The fetch results of successive ticks, one after the other. */
  function Flatten(ticks: seq<seq<Option<Reading>>>): seq<Option<Reading>>
  {
    if ticks == [] then [] else Flatten(ticks[..|ticks| - 1]) + ticks[|ticks| - 1]
  }

  /** The configured cities, once per tick. */
  function Repeat(cities: seq<string>, m: nat): seq<string>
  {
    if m == 0 then [] else Repeat(cities, m - 1) + cities
  }

  /** Ticks of one fetch result per city line up with the cities repeated
      once per tick. */
  lemma {:induction false} FlattenLength(ticks: seq<seq<Option<Reading>>>, cities: seq<string>)
    requires forall t :: t in ticks ==> |t| == |cities|
    ensures |Flatten(ticks)| == |Repeat(cities, |ticks|)|
    decreases |ticks|
  {
    if ticks != [] {
      var k := |ticks| - 1;
      assert forall t :: t in ticks[..k] ==> t in ticks;
      FlattenLength(ticks[..k], cities);
      assert ticks[k] in ticks;
    }
  }

  /** The batch of successive ticks is the batch of all ticks but the last,
      followed by the last tick. */
  lemma TicksLayout(cities: seq<string>, ticks: seq<seq<Option<Reading>>>)
    requires ticks != []
    ensures Repeat(cities, |ticks|) == Repeat(cities, |ticks| - 1) + cities
    ensures Flatten(ticks) == Flatten(ticks[..|ticks| - 1]) + ticks[|ticks| - 1]
  {
  }

  /** Every city of the repeated list is a configured city. */
  lemma {:induction false} RepeatMembers(cities: seq<string>, m: nat)
    ensures forall c :: c in Repeat(cities, m) ==> c in cities
  {
    if m > 0 {
      RepeatMembers(cities, m - 1);
    }
  }

  /** A non-empty sequence is its prefix followed by its last element. */
  lemma Snoc<T>(s: seq<T>)
    requires |s| > 0
    ensures s == s[..|s| - 1] + [s[|s| - 1]]
  {
  }

  /** Appending a non-empty sequence is appending its prefix, then its last
      element. */
  lemma AppendSnoc<T>(a: seq<T>, b: seq<T>)
    requires |b| > 0
    ensures a + b == (a + b[..|b| - 1]) + [b[|b| - 1]]
  {
    Snoc(b);
    assert a + (b[..|b| - 1] + [b[|b| - 1]]) == (a + b[..|b| - 1]) + [b[|b| - 1]];
  }

  lemma PrefixOfSnoc<T>(a: seq<T>, x: T)
    ensures (a + [x])[..|a|] == a
  {
  }

  lemma AppendEmpty<T>(a: seq<T>)
    ensures a + [] == a && [] + a == a
  {
  }

  lemma Assoc<T>(a: seq<T>, b: seq<T>, c: seq<T>)
    ensures a + b + c == a + (b + c)
  {
  }

  lemma TakeSnoc<T>(s: seq<T>, i: nat)
    requires i < |s|
    ensures s[..i + 1] == s[..i] + [s[i]]
  {
  }
}
