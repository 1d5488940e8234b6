# Magnetometer reading, hard-iron calibration and declination (compass.c)

This project models the magnetometer core of a Cleanflight-derived flight
controller, `src/main/sensors/compass.c`, in Dafny and proves properties of it.

- **Reading pipeline** (`updateCompass`): each tick a raw `int16_t` sample is
  widened to `int32_t`, rotated into the body frame by the board alignment, and,
  once `compassInit` has run, the active profile's hard-iron trims `magZero`
  are subtracted axis by axis.
- **Calibration state machine** (`updateCompass`): when the flight-state flag
  CALIBRATE_MAG is seen, the flag is cleared, the trims are zeroed, the session
  start `tCal` is set to `currentTime` and the per-axis minimum and maximum are
  seeded with the aligned reading. While `(currentTime - tCal)`, computed in
  unsigned 32-bit arithmetic, is below 30,000,000 µs, each reading widens
  [min, max]. When the window has passed, `(min + max) / 2` (C division,
  truncating toward zero) becomes the new trims, `tCal` returns to 0 and
  `saveConfigAndNotify` is called.
- **Declination** (`recalculateMagneticDeclination`): the stored setting
  `degrees * 100 + minutes` is split with C's `/ 100` and `% 100`, and the
  runtime value is `(degrees + minutes / 60) * 10` tenths of a degree, or 0
  when no magnetometer is present.

Files:

- `machine_int.dfy` (module `MachineInt`): `int16`, `int32`, `uint32`;
  two's-complement narrowing and 32-bit wrap; C truncating division and
  remainder; unsigned elapsed time, with the proof that it equals the true
  elapsed time across clock wrap.
- `calibration.dfy` (module `Calibration`): the state of one call of
  `updateCompass` as a value (`World`), the tick as a function `Update`, runs
  of events (`compassInit`, a calibration request, a tick, a write of the
  trims from outside), and the lemmas
  about single ticks and whole sessions.
- `compass.dfy` (module `CompassDriver`): class `Compass`, whose fields are the
  file's statics and globals (`magInit`, `tCal`, `magZeroTempMin`,
  `magZeroTempMax`, `magADC`, the CALIBRATE_MAG flag and a count of
  `saveConfigAndNotify` calls). Its `Update` method runs the same loops over
  the arrays as the firmware and is proved to leave exactly the state
  `Calibration.Update` describes. The trims are an `array<int16>` passed in,
  because `magZero` addresses the active profile's storage.
- `declination.dfy` (module `Declination`): the declination function and its
  decode lemmas.

Modelling choices:

- The element type of `flightDynamicsTrims_t.raw` is declared outside
  compass.c; this model takes it to be `int16_t`. Storing an `int32_t`
  reading into it (lines 91-92, 108, 110) is two's-complement narrowing.
  `Calibration.WideReadingEscapesBounds` shows the consequence: an alignment
  that negates an axis turns the raw sample -32768 into 32768, which is stored
  as -32768, outside the [min, max] it was meant to set.
- The type of `compassConfig_t.mag_declination` is also declared outside
  compass.c; this model takes it to be `int16_t`. The quotient and remainder
  by 100 then always fit the `int16_t` locals `deg` and `min` (line 126), so
  they are never narrowed.
- The subtraction `magADC[X] -= magZero->raw[X]` is modelled as wrapping
  32-bit arithmetic. It cannot overflow for aligned readings within 16 bits.
- The elapsed time is `(now - tCal) mod 2^32`.
- The running min/max take in `magADC` after the offset is subtracted
  (lines 97-111). During a session the trims were zeroed when it started, so
  that is the aligned reading, as long as nothing outside the compass code
  writes the trims while the session runs (`Calibration.SessionRun`).
- The midpoint uses C division, which truncates toward zero
  (`Calibration.MidpointTruncatesTowardZero`).
- `updateCompass` takes the trims through a pointer on every call (line 76),
  so a configuration load or profile switch can hand it other trims at any
  time. That is the event `SetTrims`; it only replaces the trims.
- A request seen when `currentTime == 0` zeroes the trims and seeds min/max,
  but leaves `tCal` at 0, so no session runs and nothing is saved. The model
  keeps this behaviour (`Calibration.RequestConsumed`,
  `Calibration.IdleTick`).
- The compass code calls `saveConfigAndNotify` only when a window closes
  (`Calibration.SavesExactlyOnClose`), so it never itself persists the zeroed
  trims of a running session. Other code that saves the configuration is not
  part of this model.

## Model

| member | source | states |
|---|---|---|
| `MachineInt.Narrow16` | src/main/sensors/compass.c:91-92 | storing an int32 into an int16 keeps every value that fits and otherwise differs by a multiple of 2^16 |
| `MachineInt.Wrap32` | src/main/sensors/compass.c:98-100 | 32-bit signed arithmetic equals the true result when it fits and is congruent to it modulo 2^32 |
| `MachineInt.CDiv` | src/main/sensors/compass.c:115 | C division by a positive divisor: the remainder is smaller than the divisor and has the sign of the dividend (truncation toward zero) |
| `MachineInt.CRem` | src/main/sensors/compass.c:131 | C `%`: divisor times quotient plus remainder is the dividend, the remainder is smaller than the divisor and has the dividend's sign |
| `MachineInt.Elapsed` | src/main/sensors/compass.c:104 | unsigned `currentTime - tCal`: the plain difference when the clock has not wrapped, the difference plus 2^32 when it has |
| `MachineInt.ElapsedIsTrueTime` | src/main/sensors/compass.c:104 | the unsigned difference of two readings of a wrapping 32-bit clock is the true elapsed time whenever that is below 2^32 |
| `Calibration.Widen` | src/main/sensors/compass.c:84 | the int32 copy keeps every axis of the int16 sample |
| `Calibration.Narrow` | src/main/sensors/compass.c:91-92 | seeding the int16 min/max from a reading keeps each axis that fits in 16 bits |
| `Calibration.Subtract` | src/main/sensors/compass.c:97-101 | each axis becomes reading minus trim when that fits in 32 bits; zero trims leave the reading unchanged |
| `Calibration.Lower` | src/main/sensors/compass.c:107-108 | for a reading within 16 bits, the new minimum is at most the old one and at most the reading, and is one of the two |
| `Calibration.Upper` | src/main/sensors/compass.c:109-110 | for a reading within 16 bits, the new maximum is at least the old one and at least the reading, and is one of the two |
| `Calibration.Midpoints` | src/main/sensors/compass.c:114-116 | each new trim lies between min and max, and twice it equals min + max or min + max moved one step toward zero |
| `Calibration.WindowOpen` | src/main/sensors/compass.c:104 | the window is open exactly while fewer than 30,000,000 µs have passed since tCal, counting one wrap of the clock when the current time is below tCal |
| `Calibration.Aligned` | src/main/sensors/compass.c:83-85 | the sample a tick works with is the widened raw sample passed through the alignment; with the identity alignment it is the raw sample |
| `Calibration.ConsumeRequest` | src/main/sensors/compass.c:87-95 | a pending request is cleared and starts a session at the current time with zero trims and min and max seeded from the aligned sample (for axes within 16 bits); without a request nothing changes; the reading, init flag and save count are untouched |
| `Calibration.Correct` | src/main/sensors/compass.c:97-101 | only magADC changes: before init, or with zero trims, it is the aligned sample; after init each axis is the sample minus its trim when that fits in 32 bits |
| `Calibration.AdvanceSession` | src/main/sensors/compass.c:103-120 | the session stage never changes the published reading, the init flag or the request flag |
| `Calibration.Update` | src/main/sensors/compass.c:76-121 | after a tick the request flag is clear and magInit is kept; the session in force is the one just requested or the old one unless it ended, in which case tCal is 0; at most one save happens, only on a tick that ends the session and leaves the trims at the midpoints of min and max; a session still running is inside its window |
| `Calibration.Apply` | src/main/sensors/compass.c:67-121 | a calibration request (the flight code raising CALIBRATE_MAG) only raises the flag; compassInit only sets magInit; a tick always leaves the flag clear and keeps magInit; a trims write from a configuration load or profile switch only replaces the trims |
| `Calibration.InitCompass` | src/main/sensors/compass.c:73 | compassInit sets magInit and changes nothing else |
| `Calibration.ReadingPipeline` | src/main/sensors/compass.c:83-101 | before init magADC is the aligned widened sample; after init each axis is that sample minus the trim in force (zero if a request was just consumed), exactly when no overflow occurs |
| `Calibration.RequestConsumed` | src/main/sensors/compass.c:87-95 | the tick that sees a request clears the flag, sets tCal to the current time, zeroes the trims, makes min and max the aligned sample, and saves nothing |
| `Calibration.FlagNeverRaisedByTick` | src/main/sensors/compass.c:94 | after any tick the request flag is clear, so one request starts at most one session (this restates the first clause of `Calibration.Update`'s contract as a named property) |
| `Calibration.IdleTick` | src/main/sensors/compass.c:103 | with no session and no request, a tick leaves min, max, trims and tCal alone and does not save |
| `Calibration.OpenWindowTick` | src/main/sensors/compass.c:103-111 | inside the window the session continues, trims and save count are unchanged, min only falls, max only rises, and the reading lies within [min, max] |
| `Calibration.ClosingTick` | src/main/sensors/compass.c:112-119 | once the window has passed, tCal returns to 0, the trims become the truncated midpoints, which lie in [min, max], and exactly one save happens |
| `Calibration.SavesExactlyOnClose` | src/main/sensors/compass.c:103-119 | a tick saves exactly when a running session's window has passed, never more than once, and a saving tick ends the session |
| `Calibration.WindowClosesAfterTrueElapsed` | src/main/sensors/compass.c:104 | a session started at any clock value closes exactly when the true elapsed time reaches 30,000,000, even across clock wrap |
| `Calibration.SessionStep` | src/main/sensors/compass.c:103-119 | one compassInit or tick, without a new request or a trims write from outside, keeps the session invariant: [min, max] stays exactly the per-axis range of the readings taken in so far |
| `Calibration.SessionRun` | src/main/sensors/compass.c:87-119 | over any run without a new request or a trims write from outside the compass code, [min, max] is exactly the per-axis range of the readings the session took in (every reading lies within it and each bound is one of them), trims stay zero and nothing is saved while it runs, and after it ends the trims are the midpoints and exactly one save has happened |
| `Calibration.SessionStart` | src/main/sensors/compass.c:87-111 | a request consumed at a nonzero time starts a session whose invariant holds over its first reading, which is both its min and its max |
| `Calibration.ExtremesUnique` | src/main/sensors/compass.c:106-111 | the per-axis minimum and maximum of a set of readings are unique |
| `Calibration.TrackExtremes` | src/main/sensors/compass.c:106-111 | lowering min and raising max with a reading within 16 bits gives exactly the range of the readings with it added |
| `Calibration.SessionPublishesMidpoints` | src/main/sensors/compass.c:112-119 | a finished session's trims are the truncated midpoints of the per-axis extremes of the readings it took in, after exactly one save |
| `Calibration.SymmetricSessionOffsets` | src/main/sensors/compass.c:103-119 | a finished session whose readings have per-axis extremes min [-100, -50, -20] and max [100, 60, 40] publishes the trims [0, 5, 10] |
| `Calibration.MidpointTruncatesTowardZero` | src/main/sensors/compass.c:115 | a negative odd sum is truncated toward zero: (-3 + 0) / 2 gives -1 |
| `Calibration.WideReadingEscapesBounds` | src/main/sensors/compass.c:84-92 | an aligned reading of 32768 is stored in the int16 maximum as -32768 |
| `CompassDriver.Compass.constructor` | src/main/sensors/compass.c:61-80 | at power-up magADC (line 61) and magInit (line 64) are zero, as are the statics tCal, magZeroTempMin and magZeroTempMax (lines 78-80) |
| `CompassDriver.Compass.Init` | src/main/sensors/compass.c:67-74 | compassInit sets magInit and leaves everything else unchanged |
| `CompassDriver.Compass.Update` | src/main/sensors/compass.c:76-121 | the in-place tick leaves the fields, the arrays and the trims exactly as `Calibration.Update` gives them |
| `CompassDriver.Compass.ConsumeRequest` | src/main/sensors/compass.c:87-95 | the request block's loop leaves the state `Calibration.ConsumeRequest` gives |
| `CompassDriver.Compass.ApplyOffset` | src/main/sensors/compass.c:97-101 | the three in-place subtractions leave the state `Calibration.Correct` gives |
| `CompassDriver.Compass.AdvanceSession` | src/main/sensors/compass.c:103-120 | the session block leaves the state `Calibration.AdvanceSession` gives: tracking inside the window, otherwise tCal 0, midpoint trims and one more save |
| `CompassDriver.Compass.Track` | src/main/sensors/compass.c:106-111 | the tracking loop leaves min and max as `Calibration.Lower` and `Calibration.Upper` of the reading |
| `CompassDriver.Compass.PublishOffsets` | src/main/sensors/compass.c:114-116 | the offset loop writes the truncated midpoint of every axis into the trims |
| `Declination.Decode` | src/main/sensors/compass.c:130-131 | degrees * 100 + minutes gives back the setting; minutes are below 100 in size and carry the setting's sign |
| `Declination.MagneticDeclination` | src/main/sensors/compass.c:124-137 | zero without a magnetometer; with one, the result has the sign of the setting |
| `Declination.DecodeEncoded` | src/main/sensors/compass.c:130-131 | a setting packed from degrees and minutes below 100, east or west, decodes to those degrees and minutes whenever it fits in 16 bits |
| `Declination.DeclinationOfEncoded` | src/main/sensors/compass.c:128-133 | a setting packed from degrees and minutes below 100 (the code does not limit minutes to 60) yields (degrees + minutes / 60) * 10 whenever it fits in 16 bits, with the setting's sign |
| `Declination.DeclinationExample` | src/main/sensors/compass.c:133 | 1230 gives 125 tenths of a degree, -1230 gives -125, and 1275 gives 132.5 |
| `Declination.AbsentSensorIgnoresSetting` | src/main/sensors/compass.c:134-136 | without a magnetometer the declination is exactly 0 whatever the setting |
| `Declination.DefaultDeclinationIsZero` | src/main/sensors/compass.c:51-53 | the reset default setting 0 gives declination 0 |

## Left out

- The LED calls `LED1_ON`, `LED1_OFF` and `LED0_TOGGLE` (lines 70-72, 105): hardware side effects with no effect on the state.
- `mag.init()` and `mag.read()` (lines 71, 83): driver I/O. The sample a tick reads is a parameter, and `magADCRaw` is not kept as a separate buffer.
- `alignSensors` (line 85): its body is not part of this model. It is a parameter `Alignment`, an arbitrary total function on 3-vectors with `magAlign` fixed.
- `saveConfigAndNotify` (line 118): persistent storage. Only the number of calls is recorded; other code that saves the configuration, possibly during a session, is not modelled.
- `currentTime` (line 59) is a global clock; the tick takes it as a parameter.
- `STATE(CALIBRATE_MAG)` and `sensors(SENSOR_MAG)` are flight-state flags owned elsewhere. The first is a field and an event; the second is a parameter of the declination function.
- The parameter-group registration macros (lines 49-53): only their effect, the default setting 0, is modelled.
- The single-precision rounding of `magneticDeclination` (line 133): the model computes the ideal real value. The global it is stored in is the function's result.
- The `#ifdef MAG` and `#ifdef NAZE` build conditionals: compile-time configuration. The model is the build with `MAG` defined.
- Calibration.OpenWindowTick: proved for readings within 16 bits only, because a wider reading is narrowed when stored into the int16 min/max (see Calibration.WideReadingEscapesBounds).
- Calibration.SessionRun: proved for runs whose aligned samples fit in 16 bits, for the same reason, and that contain no `SetTrims` event: a trims write from outside the compass code during a session replaces the zero trims, and the invariant does not describe what follows.
- Calibration.SessionStep: proved for samples within 16 bits, for the same reason, and not for a `SetTrims` event.
- Calibration.SessionStart: proved for samples within 16 bits, for the same reason.
- Signed 32-bit overflow, undefined in C, is modelled as wrap-around (`MachineInt.Wrap32`).
