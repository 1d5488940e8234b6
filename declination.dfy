/**
 * recalculateMagneticDeclination: the stored declination setting packs
 * degrees and minutes as `degrees * 100 + minutes`; the runtime value is in
 * tenths of a degree, and zero when no magnetometer is present.
 * The firmware computes it in single-precision float; here it is the ideal
 * real value.
 */
module Declination {
  import opened MachineInt

  /** The value compassConfig.mag_declination has after a configuration reset. */
  const DEFAULT_MAG_DECLINATION: int16 := 0

  datatype DegreesMinutes = DegreesMinutes(degrees: int16, minutes: int16)

  /**
   * `deg = v / 100` and `min = v % 100` with C's truncating division: the
   * parts put back together give the setting, the minutes are below 100 in
   * size and carry the sign of the setting.
   */
  function Decode(setting: int16): (d: DegreesMinutes)
    ensures d.degrees as int * 100 + d.minutes as int == setting as int
    ensures -100 < d.minutes < 100
    ensures setting >= 0 ==> d.minutes >= 0
    ensures setting <= 0 ==> d.minutes <= 0
  {
    DegreesMinutes(CDiv(setting, 100), CRem(setting, 100))
  }

  /**
   * The runtime declination in tenths of a degree. It is zero without a
   * magnetometer; with one, it has the sign of the setting.
   */
  function MagneticDeclination(magPresent: bool, setting: int16): (r: real)
    ensures !magPresent ==> r == 0.0
    ensures magPresent && setting >= 0 ==> r >= 0.0
    ensures magPresent && setting <= 0 ==> r <= 0.0
  {
    if magPresent then
      var d := Decode(setting);
      (d.degrees as real + d.minutes as real * (1.0 / 60.0)) * 10.0
    else
      0.0
  }

  /**
   * Decoding a setting packed from whole degrees and minutes below 100 gives
   * them back, east (positive) or west (negative), whenever the packed value
   * fits the 16-bit setting.
   */
  lemma DecodeEncoded(degrees: int, minutes: int)
    requires 0 <= minutes < 100
    requires degrees >= 0
    ensures Fits16(degrees * 100 + minutes) ==>
      Decode(degrees * 100 + minutes) == DegreesMinutes(degrees, minutes)
    ensures Fits16(-(degrees * 100 + minutes)) ==>
      Decode(-(degrees * 100 + minutes)) == DegreesMinutes(-degrees, -minutes)
  {
  }

  /**
   * Round trip: a declination of `degrees` degrees and `minutes` minutes east
   * (positive setting) or west (negative setting) comes out as
   * `(degrees + minutes / 60) * 10` tenths of a degree, with that sign.
   * The minutes field is not limited to 60: any value below 100 is read as
   * minutes.
   */
  lemma DeclinationOfEncoded(degrees: int, minutes: int)
    requires 0 <= minutes < 100
    requires degrees >= 0
    ensures Fits16(degrees * 100 + minutes) ==>
      MagneticDeclination(true, degrees * 100 + minutes) == (degrees as real + minutes as real / 60.0) * 10.0
    ensures Fits16(-(degrees * 100 + minutes)) ==>
      MagneticDeclination(true, -(degrees * 100 + minutes)) == -(degrees as real + minutes as real / 60.0) * 10.0
  {
    DecodeEncoded(degrees, minutes);
  }

  /**
   * 12 degrees 30 minutes, stored as 1230, is 125 tenths of a degree; a
   * minutes field of 75, stored as 1275, reads as 12 degrees 75 minutes.
   */
  lemma DeclinationExample()
    ensures MagneticDeclination(true, 1230) == 125.0
    ensures MagneticDeclination(true, -1230) == -125.0
    ensures MagneticDeclination(true, 1275) == 132.5
  {
    DeclinationOfEncoded(12, 30);
    DeclinationOfEncoded(12, 75);
  }

  /** Without a magnetometer the declination is zero whatever the setting. */
  lemma AbsentSensorIgnoresSetting(s1: int16, s2: int16)
    ensures MagneticDeclination(false, s1) == MagneticDeclination(false, s2) == 0.0
  {
  }

  /** The reset default gives no correction, with or without a magnetometer. */
  lemma DefaultDeclinationIsZero(magPresent: bool)
    ensures MagneticDeclination(magPresent, DEFAULT_MAG_DECLINATION) == 0.0
  {
  }
}
