/**
 * The simulation clock: the time-step selector driven by the left and right
 * arrow keys, the per-frame accumulation of simulated time, and the
 * calendar-like breakdown of the elapsed time shown on the detail panel.
 *
 * All presets are integers, so the elapsed time is an integer and the
 * source's `round` calls are the identity. Python's `//` and `%` with a
 * positive divisor round toward negative infinity, which coincides with
 * Dafny's Euclidean `/` and `%` on `int` for every sign of the dividend.
 */
module Clock {

  /** The fixed, ordered list of selectable time steps, in seconds per frame. */
  const Presets: seq<int> :=
    [-100000, -10000, -100, 1, 2, 3, 5, 10, 25, 50, 100, 250, 500, 1000,
     5000, 10000, 25000, 100000, 200000, 350000, 500000, 1000000]

  /** The preset selected at start-up. */
  const InitialIndex: nat := 3

  /** The time step at start-up, written separately from the index. */
  const InitialTimestep: int := 1

  const SecondsPerMinute: int := 60
  const SecondsPerHour: int := 3600
  const SecondsPerDay: int := 3600 * 24
  /** A year of twelve 30-day months, that is 360 days. */
  const SecondsPerYear: int := 3600 * 24 * 30 * 12

  /** Elapsed time as years, days, hours, minutes and seconds. */
  datatype Calendar = Calendar(years: int, days: int, hours: int, minutes: int, seconds: int)

  /** Every unit below the year is within its natural range. */
  predicate InRange(c: Calendar) {
    && 0 <= c.days < 360
    && 0 <= c.hours < 24
    && 0 <= c.minutes < 60
    && 0 <= c.seconds < 60
  }

  /** The number of seconds a breakdown stands for. */
  function ToSeconds(c: Calendar): int {
    c.years * SecondsPerYear + c.days * SecondsPerDay + c.hours * SecondsPerHour
      + c.minutes * SecondsPerMinute + c.seconds
  }

  predicate StrictlyIncreasing(s: seq<int>) {
    forall i, j :: 0 <= i < j < |s| ==> s[i] < s[j]
  }

  /** A sequence whose neighbours increase is strictly increasing. */
  lemma {:induction false} AdjacentIncreasing(s: seq<int>)
    requires forall i :: 0 <= i < |s| - 1 ==> s[i] < s[i + 1]
    ensures StrictlyIncreasing(s)
  {
    if |s| > 1 {
      AdjacentIncreasing(s[1..]);
      assert StrictlyIncreasing(s[1..]);
      forall i, j | 0 <= i < j < |s| ensures s[i] < s[j] {
        if 0 < i {
          assert s[1..][i - 1] < s[1..][j - 1];
        } else if 1 < j {
          assert s[1..][0] < s[1..][j - 1];
        }
      }
    }
  }

  /** The presets are in strictly increasing order. */
  lemma PresetsStrictlyIncreasing()
    ensures |Presets| == 22
    ensures StrictlyIncreasing(Presets)
  {
    AdjacentIncreasing(Presets);
  }

  /**
   * The elapsed-time breakdown: years by floor division, and each smaller
   * unit from the remainder left by the larger one. The result always
   * adds back up to `t`, for negative `t` too, with only the year count
   * negative.
   */
  function Decompose(t: int): (c: Calendar)
    ensures InRange(c)
    ensures ToSeconds(c) == t
  {
    var years := t / SecondsPerYear;
    var s1 := t % SecondsPerYear;
    var days := s1 / SecondsPerDay;
    var s2 := s1 % SecondsPerDay;
    var hours := s2 / SecondsPerHour;
    var s3 := s2 % SecondsPerHour;
    var minutes := s3 / SecondsPerMinute;
    var seconds := s3 % SecondsPerMinute;
    Calendar(years, days, hours, minutes, seconds)
  }

  /** A positive multiple of a positive number is at least that number. */
  lemma {:induction false} MultipleAtLeast(k: int, d: int)
    requires 1 <= k && 0 < d
    ensures k * d >= d
  {
    if k > 1 {
      MultipleAtLeast(k - 1, d);
      assert k * d == (k - 1) * d + d;
    }
  }

  /** Floor division is the only way to write `t` as `q * d + r` with `0 <= r < d`. */
  lemma DivModUnique(t: int, d: int, q: int, r: int)
    requires 0 < d && 0 <= r < d && t == q * d + r
    ensures t / d == q && t % d == r
  {
    var q', r' := t / d, t % d;
    assert (q' - q) * d == r - r' by {
      assert q' * d - q * d == (q' - q) * d;
    }
    if q' > q {
      MultipleAtLeast(q' - q, d);
    } else if q' < q {
      MultipleAtLeast(q - q', d);
    }
  }

  /** The breakdown is the unique in-range one: decomposing its total gives it back. */
  lemma DecomposeToSeconds(c: Calendar)
    requires InRange(c)
    ensures Decompose(ToSeconds(c)) == c
  {
    var t := ToSeconds(c);
    var below := c.days * SecondsPerDay + c.hours * SecondsPerHour + c.minutes * SecondsPerMinute + c.seconds;
    DivModUnique(t, SecondsPerYear, c.years, below);
    var s2 := c.hours * SecondsPerHour + c.minutes * SecondsPerMinute + c.seconds;
    DivModUnique(below, SecondsPerDay, c.days, s2);
    var s3 := c.minutes * SecondsPerMinute + c.seconds;
    DivModUnique(s2, SecondsPerHour, c.hours, s3);
    DivModUnique(s3, SecondsPerMinute, c.minutes, c.seconds);
  }

  /** 90061 seconds are one day, one hour, one minute and one second. */
  lemma DecomposeExample()
    ensures Decompose(90061) == Calendar(0, 1, 1, 1, 1)
    ensures Decompose(-1) == Calendar(-1, 359, 23, 59, 59)
  {
    DecomposeToSeconds(Calendar(0, 1, 1, 1, 1));
    DecomposeToSeconds(Calendar(-1, 359, 23, 59, 59));
  }

  /**
   * The module-level time state of the simulator: the selected preset
   * index, the current time step, the total simulated time, and the
   * breakdown of that total recomputed on every frame.
   */
  class SimClock {
    var presetIndex: int
    var timestep: int
    var timeElapsed: int
    var yearsElapsed: int
    var daysElapsed: int
    var hoursElapsed: int
    var minutesElapsed: int
    var secondsElapsed: int

    /** The breakdown currently shown. */
    function Shown(): Calendar
      reads this
    {
      Calendar(yearsElapsed, daysElapsed, hoursElapsed, minutesElapsed, secondsElapsed)
    }

    /**
     * The index stays within the preset list, the time step is the preset
     * it selects, and the shown breakdown is that of the elapsed time.
     */
    ghost predicate Valid()
      reads this
    {
      && 0 <= presetIndex < |Presets|
      && timestep == Presets[presetIndex]
      && Shown() == Decompose(timeElapsed)
    }

    /** The start-up state: third-from-left preset, one second per frame, no time elapsed. */
    constructor ()
      ensures Valid()
      ensures presetIndex == InitialIndex && timestep == 1 && timeElapsed == 0
      ensures Shown() == Calendar(0, 0, 0, 0, 0)
    {
      presetIndex := InitialIndex;
      timestep := InitialTimestep;
      timeElapsed := 0;
      yearsElapsed, daysElapsed, hoursElapsed, minutesElapsed, secondsElapsed := 0, 0, 0, 0, 0;
    }

    /** The left arrow key: one preset down, unless already at the first. */
    method KeyLeft()
      requires Valid()
      modifies this`presetIndex, this`timestep
      ensures Valid()
      ensures old(presetIndex) > 0 ==> presetIndex == old(presetIndex) - 1 && timestep < old(timestep)
      ensures old(presetIndex) == 0 ==> presetIndex == 0 && timestep == old(timestep)
      ensures timestep <= old(timestep)
    {
      PresetsStrictlyIncreasing();
      if presetIndex > 0 {
        presetIndex := presetIndex - 1;
        timestep := Presets[presetIndex];
      }
    }

    /** The right arrow key: one preset up, unless already at the last. */
    method KeyRight()
      requires Valid()
      modifies this`presetIndex, this`timestep
      ensures Valid()
      ensures old(presetIndex) + 1 < |Presets| ==> presetIndex == old(presetIndex) + 1 && timestep > old(timestep)
      ensures old(presetIndex) == |Presets| - 1 ==> presetIndex == old(presetIndex) && timestep == old(timestep)
      ensures timestep >= old(timestep)
    {
      PresetsStrictlyIncreasing();
      if presetIndex + 1 < |Presets| {
        presetIndex := presetIndex + 1;
        timestep := Presets[presetIndex];
      }
    }

    /** End of a frame: add one time step and recompute the breakdown from scratch. */
    method Tick()
      requires Valid()
      modifies this`timeElapsed, this`yearsElapsed, this`daysElapsed, this`hoursElapsed,
        this`minutesElapsed, this`secondsElapsed
      ensures Valid()
      ensures timeElapsed == old(timeElapsed) + timestep
      ensures InRange(Shown()) && ToSeconds(Shown()) == timeElapsed
    {
      timeElapsed := timeElapsed + timestep;
      var s := timeElapsed;
      yearsElapsed := s / SecondsPerYear;
      s := s % SecondsPerYear;
      daysElapsed := s / SecondsPerDay;
      s := s % SecondsPerDay;
      hoursElapsed := s / SecondsPerHour;
      s := s % SecondsPerHour;
      minutesElapsed := s / SecondsPerMinute;
      secondsElapsed := s % SecondsPerMinute;
    }
  }
}
