/** `decimal_to_dms` in earthdata.py: a coordinate in decimal degrees as
    degrees, minutes and seconds, and the hemisphere letter typed beside
    each coordinate in the coordinate dialog. */
module Coordinates {

  /** Python's `int()` on a float: truncation toward zero. */
  function Trunc(x: real): (d: int)
    ensures x >= 0.0 ==> 0 <= d && d as real <= x < d as real + 1.0
    ensures x < 0.0 ==> d <= 0 && d as real - 1.0 < x <= d as real
  {
    if x >= 0.0 then x.Floor else -((-x).Floor)
  }

  function Abs(x: real): real
  {
    if x < 0.0 then -x else x
  }

  /** Degrees, whole minutes and seconds. */
  datatype Dms = Dms(degrees: int, minutes: int, seconds: real)

  /** `decimal_to_dms(deg)`: the degrees keep the sign, the minutes and
      seconds are those of the distance to the truncated degrees. The
      minutes are whole and below 60, the seconds in [0, 60), and the degrees
      are the coordinate truncated toward zero. */
  function DecimalToDms(deg: real): (r: Dms)
    ensures 0 <= r.minutes <= 59 && 0.0 <= r.seconds < 60.0
    ensures r.degrees == Trunc(deg)
    ensures (deg >= 0.0 ==> r.degrees >= 0) && (deg < 0.0 ==> r.degrees <= 0)
  {
    var d := Trunc(deg);
    var md := Abs(deg - d as real) * 60.0;
    assert 0.0 <= md < 60.0;
    var m := Trunc(md);
    assert 0.0 <= md - m as real < 1.0;
    Dms(d, m, (md - m as real) * 60.0)
  }

  /** The three parts give the coordinate back exactly: added for a
      coordinate at or above 0, subtracted from the degrees below 0. */
  lemma DmsRoundTrip(deg: real)
    ensures var r := DecimalToDms(deg);
            deg >= 0.0 ==> r.degrees as real + r.minutes as real / 60.0 + r.seconds / 3600.0 == deg
    ensures var r := DecimalToDms(deg);
            deg < 0.0 ==> r.degrees as real - r.minutes as real / 60.0 - r.seconds / 3600.0 == deg
  {
    var r := DecimalToDms(deg);
    var d := Trunc(deg);
    var md := Abs(deg - d as real) * 60.0;
    assert r.minutes as real / 60.0 + r.seconds / 3600.0 == md / 60.0;
    if deg >= 0.0 {
      assert md == (deg - d as real) * 60.0;
    } else {
      assert md == (d as real - deg) * 60.0;
    }
  }

  /** Between -1 and 0 the degrees are 0, so the result is that of the
      opposite coordinate and the sign is lost. */
  lemma SignLostNearZero(deg: real)
    requires -1.0 < deg < 0.0
    ensures DecimalToDms(deg).degrees == 0
    ensures DecimalToDms(deg) == DecimalToDms(-deg)
  {
  }

  /** The letter typed in the latitude direction box. */
  function LatitudeDirection(latitude: real): char
  {
    if latitude >= 0.0 then 'N' else 'S'
  }

  /** The letter typed in the longitude direction box. */
  function LongitudeDirection(longitude: real): char
  {
    if longitude >= 0.0 then 'E' else 'W'
  }

  /** The four values typed for one coordinate: degrees, minutes, seconds
      and the hemisphere letter. */
  datatype Entry = Entry(dms: Dms, direction: char)

  /** What the coordinate dialog is filled with for a latitude and a
      longitude. */
  function CoordinateEntry(latitude: real, longitude: real): (Entry, Entry)
  {
    (Entry(DecimalToDms(latitude), LatitudeDirection(latitude)),
     Entry(DecimalToDms(longitude), LongitudeDirection(longitude)))
  }

  /** The coordinate a reader recovers from an entry: the size from the
      unsigned parts, the sign from the letter. */
  function EntryValue(e: Entry, negative: char): real
  {
    var size := Abs(e.dms.degrees as real) + e.dms.minutes as real / 60.0 + e.dms.seconds / 3600.0;
    if e.direction == negative then -size else size
  }

  /** The letters are N and E exactly at or above 0, and reading the entries
      with S and W as the negative letters gives both coordinates back,
      including between -1 and 0, where only the letter carries the sign. */
  lemma EntryRoundTrip(latitude: real, longitude: real)
    ensures var (lat, lon) := CoordinateEntry(latitude, longitude);
            && (lat.direction == 'N' <==> latitude >= 0.0) && (lat.direction == 'S' <==> latitude < 0.0)
            && (lon.direction == 'E' <==> longitude >= 0.0) && (lon.direction == 'W' <==> longitude < 0.0)
            && EntryValue(lat, 'S') == latitude && EntryValue(lon, 'W') == longitude
  {
    DmsRoundTrip(latitude);
    DmsRoundTrip(longitude);
  }
}
