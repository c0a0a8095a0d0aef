/** The impossible-travel detector of `SecurityService`: a time-windowed history
    of location samples, and the three rules that compare the two most recent
    retained samples. Times are seconds on one clock, distances and altitudes
    metres. The clock ("now") is a parameter, and the geodesic distance between
    two locations is a function supplied to the monitor when it is created. */
module Location {

  /** One location fix. A negative `horizontalAccuracy` marks an invalid fix. */
  datatype Sample = Sample(
    latitude: real,
    longitude: real,
    altitude: real,
    horizontalAccuracy: real,
    timestamp: real)

  /** Which rule, if any, flagged the most recent pair of samples; the payload
      is what the corresponding security alert reports. */
  datatype Verdict =
    | Clear
    | SuspiciousSpeed(metersPerSecond: real)
    | SuspiciousJump(meters: real, seconds: real)
    | SuspiciousAltitude(deltaMeters: real)

  const MaxSpeedThreshold: real := 300.0     // m/s, about 1080 km/h
  const MinDistanceThreshold: real := 1000.0 // m
  const AltitudeThreshold: real := 1000.0    // m
  const JumpInterval: real := 60.0           // s
  const TimeWindow: real := 600.0            // s, ten minutes

  function Abs(x: real): real { if x < 0.0 then -x else x }

  /** A fix is admitted into the history only if its accuracy is valid. */
  predicate Admissible(s: Sample) { s.horizontalAccuracy >= 0.0 }

  /** A sample is kept when its timestamp lies within ten minutes of `now`, in
      either direction: samples from the future are evicted as well. */
  predicate InWindow(s: Sample, now: real) { Abs(s.timestamp - now) <= TimeWindow }

  /** The eviction filter: the samples of `h` within the window, in order. */
  function Evict(h: seq<Sample>, now: real): (r: seq<Sample>)
    ensures |r| <= |h|
    ensures forall i :: 0 <= i < |r| ==> InWindow(r[i], now) && r[i] in h
    ensures forall s :: s in h && InWindow(s, now) ==> s in r
  {
    if h == [] then []
    else if InWindow(h[0], now) then [h[0]] + Evict(h[1..], now)
    else Evict(h[1..], now)
  }

  /** Eviction distributes over concatenation: it keeps the order of the
      history and decides for each sample on its own. */
  lemma {:induction false} EvictConcat(a: seq<Sample>, b: seq<Sample>, now: real)
    ensures Evict(a + b, now) == Evict(a, now) + Evict(b, now)
  {
    if a == [] {
      assert a + b == b;
    } else {
      assert (a + b)[0] == a[0];
      assert (a + b)[1..] == a[1..] + b;
      EvictConcat(a[1..], b, now);
    }
  }

  /** Appending one sample and evicting keeps the old retained samples in
      order, followed by the new one when it lies inside the window. */
  lemma EvictAppend(h: seq<Sample>, s: Sample, now: real)
    ensures Evict(h + [s], now) == Evict(h, now) + (if InWindow(s, now) then [s] else [])
  {
    EvictConcat(h, [s], now);
    assert [s][1..] == [];
  }

  /** Evicting twice with the same clock reading changes nothing more. */
  lemma {:induction false} EvictIdempotent(h: seq<Sample>, now: real)
    ensures Evict(Evict(h, now), now) == Evict(h, now)
  {
    if h != [] {
      EvictIdempotent(h[1..], now);
      if InWindow(h[0], now) {
        var r := [h[0]] + Evict(h[1..], now);
        assert r[0] == h[0] && r[1..] == Evict(h[1..], now);
      }
    }
  }

  /** A history whose samples all lie in the window is left as it is. */
  lemma {:induction false} EvictKeepsInWindow(h: seq<Sample>, now: real)
    requires forall i :: 0 <= i < |h| ==> InWindow(h[i], now)
    ensures Evict(h, now) == h
  {
    if h != [] {
      EvictKeepsInWindow(h[1..], now);
      assert [h[0]] + h[1..] == h;
    }
  }

  /** A fix inside the window becomes the current sample, and is compared
      with the latest sample that survived eviction before it. */
  lemma RecordedSampleIsCompared(h: seq<Sample>, s: Sample, now: real)
    requires InWindow(s, now)
    ensures var r := Evict(h + [s], now);
            |r| == |Evict(h, now)| + 1 && r[|r| - 1] == s
            && (|r| >= 2 ==> r[|r| - 2] == Evict(h, now)[|r| - 2])
  {
    EvictAppend(h, s, now);
  }

  /** A fix whose own timestamp lies outside the window is evicted at once,
      and the verdict is then the one for the samples already retained. */
  lemma OutOfWindowSampleIgnored(h: seq<Sample>, s: Sample, now: real,
                                 distance: (Sample, Sample) -> real)
    requires !InWindow(s, now)
    ensures Evict(h + [s], now) == Evict(h, now)
    ensures Assess(Evict(h + [s], now), distance) == Assess(Evict(h, now), distance)
  {
    EvictAppend(h, s, now);
    assert Evict(h, now) + [] == Evict(h, now);
  }

  /** The rule evaluation for a pair of consecutive samples, in its fixed order:
      speed (only for a positive interval), then jump, then altitude; the first
      rule that matches decides. `d` is the distance between the two. */
  function Classify(previous: Sample, current: Sample, d: real): (v: Verdict)
    ensures v.SuspiciousSpeed? ==>
              v.metersPerSecond * (current.timestamp - previous.timestamp) == d
    ensures v.SuspiciousJump? ==> v.meters == d && v.seconds == current.timestamp - previous.timestamp
    ensures v.SuspiciousAltitude? ==> v.deltaMeters == current.altitude - previous.altitude
  {
    var interval := current.timestamp - previous.timestamp;
    if interval > 0.0 && d / interval > MaxSpeedThreshold then
      SuspiciousSpeed(d / interval)
    else if d > MinDistanceThreshold && interval < JumpInterval then
      SuspiciousJump(d, interval)
    else if Abs(current.altitude - previous.altitude) > AltitudeThreshold && interval < JumpInterval then
      SuspiciousAltitude(current.altitude - previous.altitude)
    else
      Clear
  }

  // The three rules stated independently of one another and of their order,
  // the speed rule without division.

  predicate SpeedRule(previous: Sample, current: Sample, d: real)
  {
    var interval := current.timestamp - previous.timestamp;
    interval > 0.0 && d > MaxSpeedThreshold * interval
  }

  predicate JumpRule(previous: Sample, current: Sample, d: real)
  {
    d > MinDistanceThreshold && current.timestamp - previous.timestamp < JumpInterval
  }

  predicate AltitudeRule(previous: Sample, current: Sample)
  {
    Abs(current.altitude - previous.altitude) > AltitudeThreshold
    && current.timestamp - previous.timestamp < JumpInterval
  }

  /** The verdict is the first of speed, jump and altitude whose rule holds. */
  lemma ClassifyFirstMatch(previous: Sample, current: Sample, d: real)
    ensures Classify(previous, current, d).SuspiciousSpeed? <==> SpeedRule(previous, current, d)
    ensures Classify(previous, current, d).SuspiciousJump? <==>
              !SpeedRule(previous, current, d) && JumpRule(previous, current, d)
    ensures Classify(previous, current, d).SuspiciousAltitude? <==>
              !SpeedRule(previous, current, d) && !JumpRule(previous, current, d)
              && AltitudeRule(previous, current)
    ensures Classify(previous, current, d) == Clear <==>
              !SpeedRule(previous, current, d) && !JumpRule(previous, current, d)
              && !AltitudeRule(previous, current)
  {
    var interval := current.timestamp - previous.timestamp;
    if interval > 0.0 {
      SpeedAboveThreshold(d, interval);
    }
  }

  /** Whether a pair is suspicious does not depend on the order of the rules:
      it is suspicious exactly when at least one rule holds. */
  lemma SuspiciousIffSomeRule(previous: Sample, current: Sample, d: real)
    ensures Classify(previous, current, d) != Clear <==>
              SpeedRule(previous, current, d) || JumpRule(previous, current, d)
              || AltitudeRule(previous, current)
  {
    ClassifyFirstMatch(previous, current, d);
  }

  /** With a zero or negative interval (clock skew) the speed rule is skipped,
      and a distance over 1000 m is still flagged, as a jump. */
  lemma NonPositiveIntervalSkipsSpeed(previous: Sample, current: Sample, d: real)
    requires current.timestamp - previous.timestamp <= 0.0
    ensures !Classify(previous, current, d).SuspiciousSpeed?
    ensures d > MinDistanceThreshold ==> Classify(previous, current, d) == SuspiciousJump(d, current.timestamp - previous.timestamp)
  {
  }

  /** Once a minute or more has passed, only the speed rule can fire. */
  lemma LongIntervalOnlySpeed(previous: Sample, current: Sample, d: real)
    requires current.timestamp - previous.timestamp >= JumpInterval
    ensures Classify(previous, current, d) != Clear <==>
              d > MaxSpeedThreshold * (current.timestamp - previous.timestamp)
  {
    ClassifyFirstMatch(previous, current, d);
  }

  /** For a positive interval, comparing the speed with the threshold is the
      same as comparing the distance with threshold times interval. */
  lemma SpeedAboveThreshold(d: real, interval: real)
    requires interval > 0.0
    ensures d / interval > MaxSpeedThreshold <==> d > MaxSpeedThreshold * interval
  {
    var speed := d / interval;
    assert d == speed * interval;
    if speed > MaxSpeedThreshold {
      assert speed * interval > MaxSpeedThreshold * interval;
    } else {
      assert speed * interval <= MaxSpeedThreshold * interval;
    }
  }

  /** The verdict for a whole history: only the last two entries are compared;
      fewer than two entries is never suspicious. */
  function Assess(h: seq<Sample>, distance: (Sample, Sample) -> real): (v: Verdict)
    ensures |h| < 2 ==> v == Clear
  {
    if |h| < 2 then Clear
    else
      var current, previous := h[|h| - 1], h[|h| - 2];
      Classify(previous, current, distance(current, previous))
  }

  /** The verdict depends only on the last two entries of the history. */
  lemma AssessLastTwo(h1: seq<Sample>, h2: seq<Sample>, distance: (Sample, Sample) -> real)
    requires |h1| >= 2 && |h2| >= 2
    requires h1[|h1| - 2..] == h2[|h2| - 2..]
    ensures Assess(h1, distance) == Assess(h2, distance)
  {
    assert h1[|h1| - 1] == h1[|h1| - 2..][1] == h2[|h2| - 1];
    assert h1[|h1| - 2] == h1[|h1| - 2..][0] == h2[|h2| - 2];
  }

  /** The location monitor: the `previousLocations` history of
      `SecurityService` and `checkSuspiciousLocation`, which updates it. */
  class LocationMonitor {
    var previousLocations: seq<Sample>
    const distance: (Sample, Sample) -> real

    /** Only admissible samples are ever stored. */
    ghost predicate Valid()
      reads this
    {
      forall i :: 0 <= i < |previousLocations| ==> Admissible(previousLocations[i])
    }

    constructor (distance: (Sample, Sample) -> real)
      ensures Valid()
      ensures previousLocations == [] && this.distance == distance
    {
      previousLocations := [];
      this.distance := distance;
    }

    /** Records a fix taken at time `now` and reports whether the movement
        between the last two retained fixes is physically implausible. */
    method CheckSuspiciousLocation(location: Sample, now: real) returns (suspicious: bool)
      requires Valid()
      modifies this
      ensures Valid()
      ensures !Admissible(location) ==> !suspicious && previousLocations == old(previousLocations)
      ensures Admissible(location) ==>
                previousLocations == Evict(old(previousLocations) + [location], now)
      ensures Admissible(location) ==>
                forall i :: 0 <= i < |previousLocations| ==> InWindow(previousLocations[i], now)
      ensures suspicious <==> Admissible(location) && Assess(previousLocations, distance) != Clear
    {
      if location.horizontalAccuracy < 0.0 {
        return false;
      }
      previousLocations := previousLocations + [location];
      previousLocations := Evict(previousLocations, now);

      if |previousLocations| < 2 {
        return false;
      }
      var currentLocation := previousLocations[|previousLocations| - 1];
      var previousLocation := previousLocations[|previousLocations| - 2];
      var d := distance(currentLocation, previousLocation);
      var timeInterval := currentLocation.timestamp - previousLocation.timestamp;

      if timeInterval > 0.0 {
        var speed := d / timeInterval;
        if speed > MaxSpeedThreshold {
          return true;
        }
      }
      if d > MinDistanceThreshold && timeInterval < JumpInterval {
        return true;
      }
      if Abs(currentLocation.altitude - previousLocation.altitude) > AltitudeThreshold
         && timeInterval < JumpInterval {
        return true;
      }
      return false;
    }
  }
}
