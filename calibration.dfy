/**
 * The magnetometer reading pipeline and hard-iron calibration state
 * machine of `updateCompass`, as a function from one state to the next.
 *
 * A `World` holds everything one call of `updateCompass` reads or writes:
 * the file's own state (`magInit`, the static `tCal`, `magZeroTempMin`,
 * `magZeroTempMax`, the global `magADC`), the trims `magZero` points to,
 * the flight-state flag CALIBRATE_MAG and the number of times
 * `saveConfigAndNotify` has been called. The sensor sample, the clock and
 * the board alignment are parameters.
 */
module Calibration {
  import opened MachineInt

  /** An axis index: X, Y or Z. */
  type Axis = a: int | 0 <= a < 3

  /** A raw sample (`magADCRaw`) or a set of trims (`flightDynamicsTrims_t.raw`). */
  type Vector16 = v: seq<int16> | |v| == 3 witness [0, 0, 0]

  /** A widened, aligned or corrected reading (`magADC`). */
  type Vector32 = v: seq<int32> | |v| == 3 witness [0, 0, 0]

  /** The board alignment `alignSensors(src, dest, magAlign)`, with `magAlign` fixed. */
  type Alignment = Vector32 -> Vector32

  /** Length of the calibration window in clock units (microseconds): 30 s. */
  const CALIBRATION_WINDOW: uint32 := 30000000

  const ZEROS: Vector16 := [0, 0, 0]

  datatype CompassState = CompassState(
    magInit: bool,        // set by compassInit; offsets are applied only once it is set
    tCal: uint32,         // session start time; 0 means no session is running
    tempMin: Vector16,    // magZeroTempMin: running per-axis minimum
    tempMax: Vector16,    // magZeroTempMax: running per-axis maximum
    magADC: Vector32)     // the corrected reading published to the rest of the system

  datatype World = World(
    state: CompassState,
    magZero: Vector16,    // the active profile's hard-iron trims
    calibrateMag: bool,   // STATE(CALIBRATE_MAG): a calibration has been requested
    saves: nat)           // calls made to saveConfigAndNotify

  /** What happens to the compass code from outside. */
  datatype Event =
    | Init                              // compassInit()
    | RequestCalibration                // ENABLE_STATE(CALIBRATE_MAG) by the flight code
    | Tick(raw: Vector16, now: uint32)  // updateCompass() with sample `raw` at `currentTime == now`
    | SetTrims(zero: Vector16)          // a configuration load or profile switch hands updateCompass other trims

  /** The state of the file's statics before anything has run. */
  const INITIAL_STATE: CompassState := CompassState(false, 0, ZEROS, ZEROS, [0, 0, 0])

  /** Every sample reaches the 32-bit reading unchanged. */
  function Widen(raw: Vector16): (v: Vector32)
    ensures forall a: Axis :: v[a] == raw[a]
  {
    [raw[0], raw[1], raw[2]]
  }

  /** Storing a 32-bit reading into the 16-bit trims. */
  function Narrow(v: Vector32): (t: Vector16)
    ensures forall a: Axis :: Fits16(v[a]) ==> t[a] == v[a]
  {
    [Narrow16(v[0]), Narrow16(v[1]), Narrow16(v[2])]
  }

  predicate FitsVector16(v: Vector32) {
    forall a: Axis :: Fits16(v[a])
  }

  /** `magADC[axis] -= magZero->raw[axis]` on each axis, in 32-bit arithmetic. */
  function Subtract(v: Vector32, zero: Vector16): (r: Vector32)
    ensures forall a: Axis :: Fits32(v[a] - zero[a]) ==> r[a] == v[a] - zero[a]
    ensures zero == ZEROS ==> r == v
  {
    [Wrap32(v[0] - zero[0]), Wrap32(v[1] - zero[1]), Wrap32(v[2] - zero[2])]
  }

  /** One step of the running minimum: a smaller reading replaces the stored one. */
  function Lower(m: Vector16, v: Vector32): (r: Vector16)
    ensures forall a: Axis :: Fits16(v[a]) ==> r[a] <= m[a] && r[a] <= v[a] && (r[a] == m[a] || r[a] == v[a])
  {
    seq(3, a requires 0 <= a < 3 => if v[a] < m[a] then Narrow16(v[a]) else m[a])
  }

  /** One step of the running maximum: a larger reading replaces the stored one. */
  function Upper(m: Vector16, v: Vector32): (r: Vector16)
    ensures forall a: Axis :: Fits16(v[a]) ==> r[a] >= m[a] && r[a] >= v[a] && (r[a] == m[a] || r[a] == v[a])
  {
    seq(3, a requires 0 <= a < 3 => if v[a] > m[a] then Narrow16(v[a]) else m[a])
  }

  /** `min + max` on one axis, computed in `int` as C promotes it. */
  function Sum(lo: Vector16, hi: Vector16, a: Axis): int {
    lo[a] as int + hi[a] as int
  }

  /**
   * The published offsets `(min + max) / 2`, with C's truncation toward zero:
   * each one lies between the minimum and the maximum, and twice it is the
   * sum, or the sum moved one step toward zero.
   */
  function Midpoints(lo: Vector16, hi: Vector16): (z: Vector16)
    ensures forall a: Axis :: lo[a] <= hi[a] ==> lo[a] <= z[a] <= hi[a]
    ensures forall a: Axis :: Sum(lo, hi, a) >= 0 ==> 0 <= Sum(lo, hi, a) - 2 * (z[a] as int) <= 1
    ensures forall a: Axis :: Sum(lo, hi, a) < 0 ==> -1 <= Sum(lo, hi, a) - 2 * (z[a] as int) <= 0
  {
    seq(3, a requires 0 <= a < 3 => CDiv(Sum(lo, hi, a), 2))
  }

  /**
   * Whether `now` is still inside the window of a session started at `tCal`:
   * fewer than CALIBRATION_WINDOW microseconds have passed, counting one wrap
   * of the 32-bit clock when `now` is below `tCal`.
   */
  predicate WindowOpen(now: uint32, tCal: uint32): (open: bool)
    ensures tCal <= now ==> (open <==> now < tCal + CALIBRATION_WINDOW)
    ensures now < tCal ==> (open <==> now + TWO_32 < tCal + CALIBRATION_WINDOW)
  {
    Elapsed(now, tCal) < CALIBRATION_WINDOW
  }

  /** compassInit: the sensor is ready and offsets are applied from now on. */
  function InitCompass(c: World): (c': World)
    ensures c'.state.magInit
    ensures c' == c.(state := c'.state) && c'.state == c.state.(magInit := true)
  {
    c.(state := c.state.(magInit := true))
  }

  /**
   * The aligned, widened sample a tick works with: with the identity
   * alignment it is the sample itself.
   */
  function Aligned(align: Alignment, raw: Vector16): (v: Vector32)
    ensures (forall w: Vector32 :: align(w) == w) ==> forall a: Axis :: v[a] == raw[a]
  {
    align(Widen(raw))
  }

  /**
   * The first half of updateCompass: a pending calibration request is
   * consumed. The flag is clear afterwards; if it was raised, the session
   * starts at `now` with zero trims and both extremes seeded from the aligned
   * sample; otherwise nothing changes.
   */
  function ConsumeRequest(c: World, aligned: Vector32, now: uint32): (r: World)
    ensures !r.calibrateMag
    ensures r.saves == c.saves && r.state.magInit == c.state.magInit && r.state.magADC == c.state.magADC
    ensures c.calibrateMag ==> r.state.tCal == now && r.magZero == ZEROS
    ensures c.calibrateMag ==>
      forall a: Axis :: Fits16(aligned[a]) ==> r.state.tempMin[a] == aligned[a] == r.state.tempMax[a]
    ensures !c.calibrateMag ==> r == c
  {
    if c.calibrateMag then
      World(c.state.(tCal := now, tempMin := Narrow(aligned), tempMax := Narrow(aligned)),
             ZEROS, false, c.saves)
    else
      c
  }

  /**
   * The middle of updateCompass: only the published reading changes. Before
   * compassInit, or with zero trims, it is the aligned sample; afterwards it
   * is the sample minus the trims.
   */
  function Correct(c: World, aligned: Vector32): (r: World)
    ensures r == c.(state := r.state) && r.state == c.state.(magADC := r.state.magADC)
    ensures !c.state.magInit || c.magZero == ZEROS ==> r.state.magADC == aligned
    ensures c.state.magInit ==>
      forall a: Axis :: Fits32(aligned[a] - c.magZero[a]) ==> r.state.magADC[a] == aligned[a] - c.magZero[a]
  {
    c.(state := c.state.(magADC := if c.state.magInit then Subtract(aligned, c.magZero) else aligned))
  }

  /** The end of updateCompass: a running session tracks the reading or, once its window has passed, ends. */
  function AdvanceSession(c: World, now: uint32): (r: World)
    ensures r.state.magADC == c.state.magADC && r.state.magInit == c.state.magInit
    ensures r.calibrateMag == c.calibrateMag
  {
    var s := c.state;
    if s.tCal == 0 then
      c
    else if WindowOpen(now, s.tCal) then
      c.(state := s.(tempMin := Lower(s.tempMin, s.magADC), tempMax := Upper(s.tempMax, s.magADC)))
    else
      c.(state := s.(tCal := 0), magZero := Midpoints(s.tempMin, s.tempMax), saves := c.saves + 1)
  }

  /**
   * updateCompass: one tick of the reading pipeline and calibration state
   * machine. The request flag is clear afterwards and initialisation is kept;
   * the session in force is the one just requested, or the old one, unless
   * it ended on this tick; a tick saves at most once, and only when it ends
   * the session, leaving the trims at the midpoints of the extremes.
   */
  function Update(align: Alignment, c: World, raw: Vector16, now: uint32): (r: World)
    ensures !r.calibrateMag && r.state.magInit == c.state.magInit
    ensures r.state.tCal == 0 || r.state.tCal == (if c.calibrateMag then now else c.state.tCal)
    ensures r.saves == c.saves || r.saves == c.saves + 1
    ensures r.saves == c.saves + 1 ==>
      r.state.tCal == 0 && r.magZero == Midpoints(r.state.tempMin, r.state.tempMax)
    ensures r.state.tCal != 0 ==> r.saves == c.saves && WindowOpen(now, r.state.tCal)
  {
    var aligned := Aligned(align, raw);
    AdvanceSession(Correct(ConsumeRequest(c, aligned, now), aligned), now)
  }

  /**
   * The effect of one event. A request only raises the flag; compassInit only
   * sets `magInit`; a tick always leaves the flag clear; a trims write only
   * replaces the trims.
   */
  function Apply(align: Alignment, c: World, e: Event): (r: World)
    ensures e.RequestCalibration? ==> r == c.(calibrateMag := true)
    ensures e.Init? ==> r.state.magInit && r == c.(state := c.state.(magInit := true))
    ensures e.Tick? ==> !r.calibrateMag && r.state.magInit == c.state.magInit
    ensures e.SetTrims? ==> r == c.(magZero := e.zero)
  {
    match e
    case Init => InitCompass(c)
    case RequestCalibration => c.(calibrateMag := true)
    case Tick(raw, now) => Update(align, c, raw, now)
    case SetTrims(zero) => c.(magZero := zero)
  }

  /** The effect of a sequence of events, applied in order. */
  function Run(align: Alignment, c: World, events: seq<Event>): World
    decreases |events|
  {
    if events == [] then c else Run(align, Apply(align, c, events[0]), events[1..])
  }

  // ----- Properties of one tick -----

  /**
   * The reading: before compassInit, magADC is the aligned, widened sample;
   * afterwards it is that sample minus the trims in force on this tick (zero
   * when a request was just consumed), on every axis independently.
   */
  lemma ReadingPipeline(align: Alignment, c: World, raw: Vector16, now: uint32)
    ensures var r := Update(align, c, raw, now);
            var aligned := align(Widen(raw));
            var zero := if c.calibrateMag then ZEROS else c.magZero;
            && (!c.state.magInit ==> r.state.magADC == aligned)
            && (c.state.magInit ==>
                  forall a: Axis :: r.state.magADC[a] == Wrap32(aligned[a] - zero[a])
                                 && (Fits32(aligned[a] - zero[a]) ==> r.state.magADC[a] == aligned[a] - zero[a]))
  {
    var aligned := Aligned(align, raw);
    var started := ConsumeRequest(c, aligned, now);
    assert started.magZero == (if c.calibrateMag then ZEROS else c.magZero);
    assert started.state.magInit == c.state.magInit;
    var corrected := Correct(started, aligned);
    assert Update(align, c, raw, now) == AdvanceSession(corrected, now);
    assert corrected.state.magADC == if c.state.magInit then Subtract(aligned, started.magZero) else aligned;
  }

  /**
   * A pending request is consumed on the tick that sees it: the flag is
   * cleared, the session starts at `now`, the trims are zeroed, both the
   * minimum and the maximum are the tick's aligned sample, and nothing is
   * saved. A request seen at time 0 leaves `tCal` at 0, so no session runs.
   */
  lemma RequestConsumed(align: Alignment, c: World, raw: Vector16, now: uint32)
    requires c.calibrateMag
    ensures var r := Update(align, c, raw, now);
            var aligned := align(Widen(raw));
            && !r.calibrateMag
            && r.state.tCal == now
            && r.magZero == ZEROS
            && r.state.tempMin == Narrow(aligned)
            && r.state.tempMax == Narrow(aligned)
            && r.saves == c.saves
            && r.state.magInit == c.state.magInit
  {
    var aligned := align(Widen(raw));
    var adc := if c.state.magInit then Subtract(aligned, ZEROS) else aligned;
    assert adc == aligned;
    assert Lower(Narrow(aligned), aligned) == Narrow(aligned);
    assert Upper(Narrow(aligned), aligned) == Narrow(aligned);
  }

  /** With the flag clear, the flag stays clear: a request is consumed at most once. */
  lemma FlagNeverRaisedByTick(align: Alignment, c: World, raw: Vector16, now: uint32)
    ensures !Update(align, c, raw, now).calibrateMag
  {
  }

  /**
   * While no session is running and no request is pending, a tick leaves the
   * minimum, the maximum, the trims and `tCal` alone and saves nothing.
   */
  lemma IdleTick(align: Alignment, c: World, raw: Vector16, now: uint32)
    requires c.state.tCal == 0 && !c.calibrateMag
    ensures var r := Update(align, c, raw, now);
            && r.state.tCal == 0
            && r.state.tempMin == c.state.tempMin
            && r.state.tempMax == c.state.tempMax
            && r.magZero == c.magZero
            && r.saves == c.saves
  {
  }

  /**
   * While the window is open, a tick keeps the session running, leaves the
   * trims and the save count alone, and widens [min, max] to take in the
   * tick's reading.
   */
  lemma OpenWindowTick(align: Alignment, c: World, raw: Vector16, now: uint32)
    requires c.state.tCal != 0 && !c.calibrateMag && WindowOpen(now, c.state.tCal)
    requires FitsVector16(Update(align, c, raw, now).state.magADC)
    ensures var r := Update(align, c, raw, now);
            && r.state.tCal == c.state.tCal
            && r.magZero == c.magZero
            && r.saves == c.saves
            && forall a: Axis ::
                 && r.state.tempMin[a] <= c.state.tempMin[a]
                 && r.state.tempMax[a] >= c.state.tempMax[a]
                 && r.state.tempMin[a] <= r.state.magADC[a] <= r.state.tempMax[a]
  {
  }

  /**
   * When the window has closed, the tick ends the session (`tCal` back to 0),
   * publishes the truncated midpoints of [min, max] as the trims, which lie
   * inside [min, max], and calls saveConfigAndNotify once.
   */
  lemma ClosingTick(align: Alignment, c: World, raw: Vector16, now: uint32)
    requires c.state.tCal != 0 && !c.calibrateMag && !WindowOpen(now, c.state.tCal)
    ensures var r := Update(align, c, raw, now);
            && r.state.tCal == 0
            && r.saves == c.saves + 1
            && r.state.tempMin == c.state.tempMin
            && r.state.tempMax == c.state.tempMax
            && r.magZero == Midpoints(c.state.tempMin, c.state.tempMax)
            && forall a: Axis :: c.state.tempMin[a] <= c.state.tempMax[a] ==>
                 c.state.tempMin[a] <= r.magZero[a] <= c.state.tempMax[a]
  {
  }

  /**
   * saveConfigAndNotify is called on a tick exactly when a running session's
   * window has closed, and never more than once per tick.
   */
  lemma SavesExactlyOnClose(align: Alignment, c: World, raw: Vector16, now: uint32)
    ensures var r := Update(align, c, raw, now);
            var tCal := if c.calibrateMag then now else c.state.tCal;
            && r.saves == (if tCal != 0 && !WindowOpen(now, tCal) then c.saves + 1 else c.saves)
            && (r.saves != c.saves ==> r.state.tCal == 0)
  {
  }

  /**
   * Wrap safety at the level of the state machine: a session started at true
   * time `start` (its clock reading nonzero) is closed by a tick at true time
   * `start + elapsed` exactly when `elapsed` has reached the 30 s window, even
   * if the 32-bit clock wrapped in between.
   */
  lemma WindowClosesAfterTrueElapsed(align: Alignment, c: World, raw: Vector16, start: nat, elapsed: nat)
    requires c.state.tCal == Clock(start) && c.state.tCal != 0 && !c.calibrateMag
    requires elapsed < TWO_32
    ensures var r := Update(align, c, raw, Clock(start + elapsed));
            (r.saves == c.saves + 1) <==> elapsed >= CALIBRATION_WINDOW
  {
    ElapsedIsTrueTime(start, elapsed);
  }

  // ----- Properties of a whole session -----

  /**
   * [lo, hi] is exactly the per-axis range of the readings in `seen`: every
   * reading lies within it, and on each axis some reading equals lo and some
   * reading equals hi.
   */
  ghost predicate Extremes(lo: Vector16, hi: Vector16, seen: seq<Vector32>) {
    && (forall a: Axis :: lo[a] <= hi[a])
    && (forall i, a: Axis | 0 <= i < |seen| :: lo[a] <= seen[i][a] <= hi[a])
    && (forall a: Axis :: exists i | 0 <= i < |seen| :: seen[i][a] == lo[a])
    && (forall a: Axis :: exists i | 0 <= i < |seen| :: seen[i][a] == hi[a])
  }

  /** The range of a set of readings is unique. */
  lemma ExtremesUnique(lo: Vector16, hi: Vector16, lo': Vector16, hi': Vector16, seen: seq<Vector32>)
    requires Extremes(lo, hi, seen) && Extremes(lo', hi', seen)
    ensures lo == lo' && hi == hi'
  {
    forall a: Axis
      ensures lo[a] == lo'[a] && hi[a] == hi'[a]
    {
      var i :| 0 <= i < |seen| && seen[i][a] == lo[a];
      var i' :| 0 <= i' < |seen| && seen[i'][a] == lo'[a];
      var j :| 0 <= j < |seen| && seen[j][a] == hi[a];
      var j' :| 0 <= j' < |seen| && seen[j'][a] == hi'[a];
    }
  }

  /**
   * One tracking step: lowering the minimum and raising the maximum with a
   * reading within 16 bits gives the range of the readings with it added.
   */
  lemma TrackExtremes(lo: Vector16, hi: Vector16, seen: seq<Vector32>, v: Vector32)
    requires Extremes(lo, hi, seen)
    requires FitsVector16(v)
    ensures Extremes(Lower(lo, v), Upper(hi, v), seen + [v])
  {
    var lo', hi', seen' := Lower(lo, v), Upper(hi, v), seen + [v];
    forall i, a: Axis | 0 <= i < |seen'|
      ensures lo'[a] <= seen'[i][a] <= hi'[a]
    {
      if i < |seen| {
        assert seen'[i] == seen[i];
      }
    }
    forall a: Axis
      ensures (exists i | 0 <= i < |seen'| :: seen'[i][a] == lo'[a])
           && (exists i | 0 <= i < |seen'| :: seen'[i][a] == hi'[a])
    {
      assert seen'[|seen|] == v;
      if lo'[a] != v[a] {
        var i :| 0 <= i < |seen| && seen[i][a] == lo[a];
        assert seen'[i] == seen[i];
      }
      if hi'[a] != v[a] {
        var i :| 0 <= i < |seen| && seen[i][a] == hi[a];
        assert seen'[i] == seen[i];
      }
    }
  }

  /**
   * The invariant of a calibration session, given the readings it has taken
   * in: [min, max] is exactly their range on every axis (all lie within it and
   * the bounds are readings taken in); while the session runs the trims are
   * zero and nothing has been saved; once it has ended the trims are the
   * midpoints of [min, max] and exactly one save has happened.
   */
  ghost predicate SessionInvariant(c: World, saves0: nat, seen: seq<Vector32>) {
    && Extremes(c.state.tempMin, c.state.tempMax, seen)
    && !c.calibrateMag
    && (c.state.tCal != 0 ==> c.magZero == ZEROS && c.saves == saves0)
    && (c.state.tCal == 0 ==> c.magZero == Midpoints(c.state.tempMin, c.state.tempMax) && c.saves == saves0 + 1)
  }

  /**
   * An event that neither starts a new session, nor writes the trims from
   * outside the compass code, nor carries a sample that leaves 16 bits once
   * aligned.
   */
  predicate Quiet(align: Alignment, e: Event) {
    match e
    case Init => true
    case RequestCalibration => false
    case SetTrims(_) => false
    case Tick(raw, _) => FitsVector16(Aligned(align, raw))
  }

  /** The aligned readings that a run of events adds to the running min/max. */
  ghost function Tracked(align: Alignment, c: World, events: seq<Event>): seq<Vector32>
    decreases |events|
  {
    if events == [] then []
    else
      TrackedBy(align, c, events[0]) + Tracked(align, Apply(align, c, events[0]), events[1..])
  }

  /** The aligned reading one event adds to the running min/max, if any. */
  function TrackedBy(align: Alignment, c: World, e: Event): seq<Vector32> {
    if e.Tick? && c.state.tCal != 0 && !c.calibrateMag && WindowOpen(e.now, c.state.tCal)
    then [Aligned(align, e.raw)] else []
  }

  /** One event keeps the session invariant. */
  lemma SessionStep(align: Alignment, c: World, saves0: nat, seen: seq<Vector32>, e: Event)
    requires SessionInvariant(c, saves0, seen)
    requires Quiet(align, e)
    ensures SessionInvariant(Apply(align, c, e), saves0, seen + TrackedBy(align, c, e))
  {
    var r := Apply(align, c, e);
    match e
    case Init =>
      assert seen + [] == seen;
    case Tick(raw, now) =>
      var aligned := Aligned(align, raw);
      if c.state.tCal == 0 {
        assert seen + [] == seen;
      } else if WindowOpen(now, c.state.tCal) {
        assert c.magZero == ZEROS;
        assert r.state.magADC == aligned;
        TrackExtremes(c.state.tempMin, c.state.tempMax, seen, aligned);
      } else {
        assert seen + [] == seen;
      }
  }

  /**
   * A calibration session from start to any later point: once a request has
   * been consumed at a nonzero time, and until the next request or the next
   * write of the trims from outside the compass code, [min, max] is exactly
   * the range of the readings the session took in; while it runs the trims stay
   * zero and nothing is saved; after it ends, the trims are the midpoints of
   * [min, max] and saveConfigAndNotify has been called exactly once.
   */
  lemma {:induction false} SessionRun(align: Alignment, c: World, saves0: nat, seen: seq<Vector32>, events: seq<Event>)
    requires SessionInvariant(c, saves0, seen)
    requires forall i | 0 <= i < |events| :: Quiet(align, events[i])
    ensures SessionInvariant(Run(align, c, events), saves0, seen + Tracked(align, c, events))
    decreases |events|
  {
    if events == [] {
      assert seen + [] == seen;
    } else {
      var e, rest := events[0], events[1..];
      var c1 := Apply(align, c, e);
      var seen1 := seen + TrackedBy(align, c, e);
      SessionStep(align, c, saves0, seen, e);
      assert forall i | 0 <= i < |rest| :: rest[i] == events[i + 1];
      SessionRun(align, c1, saves0, seen1, rest);
      RunFirst(align, c, seen, events);
    }
  }

  /** A run and the readings it tracks, split after its first event. */
  lemma RunFirst(align: Alignment, c: World, seen: seq<Vector32>, events: seq<Event>)
    requires events != []
    ensures Run(align, c, events) == Run(align, Apply(align, c, events[0]), events[1..])
    ensures seen + Tracked(align, c, events)
         == (seen + TrackedBy(align, c, events[0])) + Tracked(align, Apply(align, c, events[0]), events[1..])
  {
  }

  /**
   * The start of a session: a tick that consumes a request at a nonzero time
   * establishes the session invariant over its own reading.
   */
  lemma SessionStart(align: Alignment, c: World, raw: Vector16, now: uint32)
    requires c.calibrateMag && now != 0
    requires FitsVector16(Aligned(align, raw))
    ensures var r := Update(align, c, raw, now);
            SessionInvariant(r, c.saves, [Aligned(align, raw)]) && r.state.tCal == now
  {
    RequestConsumed(align, c, raw, now);
    var r := Update(align, c, raw, now);
    var seen := [Aligned(align, raw)];
    assert forall a: Axis :: seen[0][a] == r.state.tempMin[a] == r.state.tempMax[a];
  }

  /**
   * What a finished session publishes: once it has ended, the trims are the
   * midpoints of the per-axis extremes of the readings it took in, whatever
   * those readings were.
   */
  lemma SessionPublishesMidpoints(c: World, saves0: nat, seen: seq<Vector32>, lo: Vector16, hi: Vector16)
    requires SessionInvariant(c, saves0, seen) && c.state.tCal == 0
    requires Extremes(lo, hi, seen)
    ensures c.magZero == Midpoints(lo, hi)
    ensures c.saves == saves0 + 1
  {
    ExtremesUnique(c.state.tempMin, c.state.tempMax, lo, hi, seen);
  }

  // ----- Worked examples -----

  /**
   * A finished session whose readings have the per-axis extremes
   * min = [-100, -50, -20] and max = [100, 60, 40] publishes the offsets
   * [0, 5, 10].
   */
  lemma SymmetricSessionOffsets(c: World, saves0: nat, seen: seq<Vector32>)
    requires SessionInvariant(c, saves0, seen) && c.state.tCal == 0
    requires Extremes([-100, -50, -20], [100, 60, 40], seen)
    ensures c.magZero == [0, 5, 10]
  {
    SessionPublishesMidpoints(c, saves0, seen, [-100, -50, -20], [100, 60, 40]);
    assert Midpoints([-100, -50, -20], [100, 60, 40]) == [0, 5, 10];
  }

  /** A negative odd sum is truncated toward zero, not floored: (-3 + 0) / 2 is -1. */
  lemma MidpointTruncatesTowardZero()
    ensures Midpoints([-3, -3, -3], [0, 0, 0]) == [-1, -1, -1]
  {
  }

  /**
   * The 16-bit trims cannot hold every aligned reading: an alignment that
   * negates an axis turns the raw sample -32768 into 32768, which is stored
   * in the minimum and maximum as -32768, so that reading lies outside the
   * [min, max] of the session it started.
   */
  lemma WideReadingEscapesBounds(align: Alignment, c: World, now: uint32)
    requires c.calibrateMag
    requires align([-0x8000, 0, 0]) == [0x8000, 0, 0]
    ensures var r := Update(align, c, [-0x8000, 0, 0], now);
            r.state.tempMax[0] == -0x8000 && Aligned(align, [-0x8000, 0, 0])[0] == 0x8000
  {
    RequestConsumed(align, c, [-0x8000, 0, 0], now);
    assert Widen([-0x8000, 0, 0]) == [-0x8000, 0, 0];
  }
}
