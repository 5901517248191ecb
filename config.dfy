/** The deployed configuration of the monitor. */
module Config {

  /** The cities every tick visits, in this order. */
  const CITIES: seq<string> := ["Delhi", "Mumbai", "Chennai", "Bangalore", "Kolkata", "Hyderabad"]

  /** Readings strictly above this many degrees Celsius count as a breach. */
  const TEMP_THRESHOLD: real := 35.0

  /** How many consecutive breaches fire an alert. */
  const ALERT_CONSECUTIVE_UPDATES: nat := 2

  /** The minutes between two runs of each tick; the rollup also reads
      1 / CHECK_INTERVAL as the number of samples a day needs. */
  const CHECK_INTERVAL: real := 0.5

  /** The number of samples a day needs before it is summarised. */
  const SAMPLES_PER_DAY: nat := 2

  /** The rollup test compares a sample count with the real 1 / CHECK_INTERVAL;
      on counts it is the same test as comparing with SAMPLES_PER_DAY. */
  lemma SamplesPerDayMatchesInterval(count: nat)
    ensures (count as real) >= 1.0 / CHECK_INTERVAL <==> count >= SAMPLES_PER_DAY
  {
    assert 1.0 / CHECK_INTERVAL == 2.0;
  }
}
