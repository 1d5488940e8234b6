/**
 * compassInit and updateCompass as the firmware runs them: the statics and
 * globals of the compass code are fields of one object, the buffers are
 * arrays updated in place, and the trims are the array `magZero` points to.
 * Each method is proved to have exactly the effect the functions of module
 * Calibration give it.
 */
module CompassDriver {
  import opened MachineInt
  import opened Calibration

  class Compass {
    var magInit: bool              // set once compassInit has run
    var tCal: uint32               // start of the running session, 0 when idle
    const tempMin: array<int16>    // magZeroTempMin.raw
    const tempMax: array<int16>    // magZeroTempMax.raw
    const magADC: array<int32>     // the published corrected reading
    var calibrateMag: bool         // the flight-state flag CALIBRATE_MAG
    var saveCount: nat             // calls made to saveConfigAndNotify

    ghost predicate Valid()
      reads this
    {
      && tempMin.Length == 3 && tempMax.Length == 3 && magADC.Length == 3
      && tempMin != tempMax
      && magADC as object != tempMin && magADC as object != tempMax
    }

    /** The trims `magZero` points to live outside the compass code's own buffers. */
    ghost predicate Separate(magZero: array<int16>)
      reads this
    {
      magZero.Length == 3 && magZero != tempMin && magZero != tempMax && magZero as object != magADC
    }

    /** The compass code's own state, as a value. */
    ghost function State(): CompassState
      reads this, tempMin, tempMax, magADC
      requires Valid()
    {
      CompassState(magInit, tCal, tempMin[..], tempMax[..], magADC[..])
    }

    /** Everything one update reads or writes, given the trims in use. */
    ghost function Snapshot(magZero: array<int16>): World
      reads this, tempMin, tempMax, magADC, magZero
      requires Valid() && magZero.Length == 3
    {
      World(State(), magZero[..], calibrateMag, saveCount)
    }

    /** The zero-initialised statics at power-up. */
    constructor ()
      ensures Valid() && fresh(tempMin) && fresh(tempMax) && fresh(magADC)
      ensures State() == INITIAL_STATE
      ensures !calibrateMag && saveCount == 0
    {
      magInit := false;
      tCal := 0;
      tempMin := new int16[3](_ => 0);
      tempMax := new int16[3](_ => 0);
      magADC := new int32[3](_ => 0);
      calibrateMag := false;
      saveCount := 0;
    }

    /** compassInit: after sensor bring-up, offsets are applied to every later reading. */
    method Init()
      requires Valid()
      modifies this
      ensures Valid()
      ensures State() == old(State()).(magInit := true)
      ensures calibrateMag == old(calibrateMag) && saveCount == old(saveCount)
    {
      magInit := true;
    }

    /**
     * updateCompass(magZero): one tick with sample `raw` at time `now`.
     * The new state is the one Calibration.Update gives.
     */
    method Update(align: Alignment, magZero: array<int16>, raw: Vector16, now: uint32)
      requires Valid() && Separate(magZero)
      modifies this, tempMin, tempMax, magADC, magZero
      ensures Valid()
      ensures Snapshot(magZero) == Calibration.Update(align, old(Snapshot(magZero)), raw, now)
    {
      // mag.read(magADCRaw), then the int32 copy
      for axis := 0 to 3
        modifies magADC
        invariant forall a :: 0 <= a < axis ==> magADC[a] == raw[a]
      {
        magADC[axis] := raw[axis];
      }
      assert magADC[..] == Widen(raw);

      // alignSensors(magADC, magADC, magAlign)
      var aligned := align(magADC[..]);
      assert aligned == Aligned(align, raw);
      magADC[0], magADC[1], magADC[2] := aligned[0], aligned[1], aligned[2];
      assert magADC[..] == aligned;
      ghost var c0 := old(Snapshot(magZero));
      ghost var c1 := Snapshot(magZero);
      assert c1 == c0.(state := c0.state.(magADC := aligned));

      ConsumeRequest(magZero, aligned, now);
      ghost var c2 := Snapshot(magZero);
      assert c2 == Calibration.ConsumeRequest(c1, aligned, now);

      ApplyOffset(magZero, aligned);
      ghost var c3 := Snapshot(magZero);
      assert c3 == Correct(c2, aligned);
      assert c3 == Correct(Calibration.ConsumeRequest(c0, aligned, now), aligned);

      AdvanceSession(magZero, now);
      assert Snapshot(magZero) == Calibration.AdvanceSession(c3, now);
    }

    /** The `if (tCal != 0)` block: track the reading, or end the session and save. */
    method AdvanceSession(magZero: array<int16>, now: uint32)
      requires Valid() && Separate(magZero)
      modifies this, tempMin, tempMax, magZero
      ensures Valid()
      ensures Snapshot(magZero) == Calibration.AdvanceSession(old(Snapshot(magZero)), now)
    {
      if tCal != 0 {
        if Elapsed(now, tCal) < CALIBRATION_WINDOW {
          Track();
        } else {
          tCal := 0;
          PublishOffsets(magZero);
          saveCount := saveCount + 1;
        }
      }
    }

    /** `if (magInit) magADC[X] -= magZero->raw[X]; ...` */
    method ApplyOffset(magZero: array<int16>, aligned: Vector32)
      requires Valid() && Separate(magZero)
      requires magADC[..] == aligned
      modifies magADC
      ensures Snapshot(magZero) == Correct(old(Snapshot(magZero)), aligned)
    {
      if magInit {
        ghost var corrected := Subtract(aligned, magZero[..]);
        magADC[0] := Wrap32(magADC[0] - magZero[0]);
        magADC[1] := Wrap32(magADC[1] - magZero[1]);
        magADC[2] := Wrap32(magADC[2] - magZero[2]);
        assert magADC[..] == corrected;
      }
    }

    /** The calibration-request block: consume the flag and start a session. */
    method ConsumeRequest(magZero: array<int16>, aligned: Vector32, now: uint32)
      requires Valid() && Separate(magZero)
      requires magADC[..] == aligned
      modifies this, tempMin, tempMax, magZero
      ensures Valid() && magADC[..] == aligned
      ensures Snapshot(magZero) == Calibration.ConsumeRequest(old(Snapshot(magZero)), aligned, now)
    {
      if calibrateMag {
        tCal := now;
        for axis := 0 to 3
          modifies magZero, tempMin, tempMax
          invariant forall a :: 0 <= a < axis ==> magZero[a] == 0
          invariant forall a :: 0 <= a < axis ==> tempMin[a] == Narrow16(aligned[a]) && tempMax[a] == Narrow16(aligned[a])
        {
          magZero[axis] := 0;
          tempMin[axis] := Narrow16(magADC[axis]);
          tempMax[axis] := Narrow16(magADC[axis]);
        }
        calibrateMag := false;
        assert tempMin[..] == Narrow(aligned) && tempMax[..] == Narrow(aligned) && magZero[..] == ZEROS;
      }
    }

    /** Inside the window: widen the running min/max to take in magADC. */
    method Track()
      requires Valid()
      modifies tempMin, tempMax
      ensures tempMin[..] == Lower(old(tempMin[..]), magADC[..])
      ensures tempMax[..] == Upper(old(tempMax[..]), magADC[..])
    {
      for axis := 0 to 3
        invariant forall a :: 0 <= a < axis ==> tempMin[a] == Lower(old(tempMin[..]), magADC[..])[a]
        invariant forall a :: axis <= a < 3 ==> tempMin[a] == old(tempMin[a])
        invariant forall a :: 0 <= a < axis ==> tempMax[a] == Upper(old(tempMax[..]), magADC[..])[a]
        invariant forall a :: axis <= a < 3 ==> tempMax[a] == old(tempMax[a])
      {
        if magADC[axis] < tempMin[axis] {
          tempMin[axis] := Narrow16(magADC[axis]);
        }
        if magADC[axis] > tempMax[axis] {
          tempMax[axis] := Narrow16(magADC[axis]);
        }
      }
    }

    /** Window closed: publish (min + max) / 2 as the new trims. */
    method PublishOffsets(magZero: array<int16>)
      requires Valid() && Separate(magZero)
      modifies magZero
      ensures magZero[..] == Midpoints(tempMin[..], tempMax[..])
    {
      for axis := 0 to 3
        invariant forall a :: 0 <= a < axis ==> magZero[a] == Midpoints(tempMin[..], tempMax[..])[a]
      {
        magZero[axis] := CDiv(tempMin[axis] as int + tempMax[axis] as int, 2);
      }
    }
  }
}
