/** The sounding table as the balloon scripts receive it, and the columns
    they build from it. */
module Sounding {

  import opened Common
  import opened Interpolation

  /** The value the retrieved table uses for a missing humidity. */
  const HUMIDITY_SENTINEL: real := -999.0

  /** The six columns the scripts read out of the table rows. A row is indexed
      as [0] pressure (mb), [1] height (m), [2] temperature (K), [3] specific
      humidity (kg/kg), [5] wind speed (m/s), [6] wind direction (degrees);
      entry [4] is never read. */
  datatype Columns = Columns(
    height: seq<real>,
    pressure: seq<real>,
    temperature: seq<real>,
    specificHumidity: seq<real>,
    windSpeed: seq<real>,
    windDirection: seq<real>)

  /** Every column has one entry per row. */
  predicate Aligned(c: Columns)
  {
    var n := |c.height|;
    |c.pressure| == n && |c.temperature| == n && |c.specificHumidity| == n &&
    |c.windSpeed| == n && |c.windDirection| == n
  }

  /** The humidity sentinel is read as zero; every other value is kept. */
  function NormalizeHumidity(q: real): real
  {
    if q != HUMIDITY_SENTINEL then q else 0.0
  }

  predicate RowsReadable(data: seq<seq<real>>)
  {
    forall i :: 0 <= i < |data| ==> |data[i]| >= 7
  }

  /** Building the columns: pressure is converted from millibar to pascal,
      the humidity sentinel becomes 0, the other entries are copied. A row
      with fewer than seven entries makes the indexing fail. */
  function BuildColumns(data: seq<seq<real>>): (c: Option<Columns>)
    ensures c.Some? <==> RowsReadable(data)
    ensures c.Some? ==> Aligned(c.value) && |c.value.height| == |data|
    ensures c.Some? ==> forall i :: 0 <= i < |data| ==>
              && c.value.height[i] == data[i][1]
              && c.value.pressure[i] == data[i][0] * 100.0
              && c.value.temperature[i] == data[i][2]
              && (data[i][3] == HUMIDITY_SENTINEL ==> c.value.specificHumidity[i] == 0.0)
              && (data[i][3] != HUMIDITY_SENTINEL ==> c.value.specificHumidity[i] == data[i][3])
              && c.value.windSpeed[i] == data[i][5]
              && c.value.windDirection[i] == data[i][6]
  {
    if !RowsReadable(data) then None
    else
      Some(Columns(
        seq(|data|, i requires 0 <= i < |data| => data[i][1]),
        seq(|data|, i requires 0 <= i < |data| => data[i][0] * 100.0),
        seq(|data|, i requires 0 <= i < |data| => data[i][2]),
        seq(|data|, i requires 0 <= i < |data| => NormalizeHumidity(data[i][3])),
        seq(|data|, i requires 0 <= i < |data| => data[i][5]),
        seq(|data|, i requires 0 <= i < |data| => data[i][6])))
  }

  /** Normalising the humidity twice changes nothing more than normalising
      it once, and never leaves a sentinel behind. */
  lemma NormalizeHumidityIdempotent(q: real)
    ensures NormalizeHumidity(NormalizeHumidity(q)) == NormalizeHumidity(q)
    ensures NormalizeHumidity(q) != HUMIDITY_SENTINEL
  {
  }

  /** The table written into balloon.py. */
  const BALLOON_TABLE: seq<seq<real>> := [
    [1005.0, 42.0, 288.0, 0.0085517, 82.0, 10.14, 9.6],
    [1000.0, 149.0, 289.2, 0.00932, 82.0, 7.37, 7.8],
    [925.0, 813.0, 291.0, 0.0047, 34.0, 6.48, 38.1],
    [850.0, 1538.0, 291.7, 0.00299, 19.0, 4.88, 61.9],
    [700.0, 3177.0, 283.0, 0.00335, 31.0, 3.41, 185.0],
    [600.0, 4436.0, 273.7, 0.0023, 35.0, 6.08, 189.5],
    [500.0, 5868.0, 262.6, 0.001847, 54.0, 5.71, 176.0],
    [400.0, 7546.0, 250.9, 0.000539, 33.0, 6.55, 187.0],
    [300.0, 9598.0, 235.6, 0.000177, 33.0, 11.11, 200.6],
    [250.0, 10829.0, 226.6, -999.0, -999.0, 14.58, 198.8],
    [200.0, 12293.0, 223.9, -999.0, -999.0, 20.62, 199.0],
    [150.0, 14203.0, 223.6, -999.0, -999.0, 14.91, 209.3],
    [100.0, 16762.0, 211.3, -999.0, -999.0, 4.53, 210.5],
    [70.0, 18973.0, 212.8, -999.0, -999.0, 4.88, 151.9],
    [50.0, 21086.0, 216.2, -999.0, -999.0, 3.98, 107.5],
    [30.0, 24353.0, 220.2, -999.0, -999.0, 9.76, 83.5],
    [20.0, 27000.0, 225.9, -999.0, -999.0, 11.42, 86.5],
    [10.0, 31618.0, 228.0, -999.0, -999.0, 17.42, 87.4]]

  const BALLOON_HEIGHTS: seq<real> := [
    42.0, 149.0, 813.0, 1538.0, 3177.0, 4436.0, 5868.0, 7546.0, 9598.0,
    10829.0, 12293.0, 14203.0, 16762.0, 18973.0, 21086.0, 24353.0, 27000.0, 31618.0]

  lemma {:induction false} IncreasingByNeighbours(s: seq<real>)
    requires forall i :: 0 <= i < |s| - 1 ==> s[i] < s[i + 1]
    ensures StrictlyIncreasing(s)
  {
    forall i, j | 0 <= i < j < |s| ensures s[i] < s[j] {
      var k := i;
      while k < j
        invariant i <= k <= j
        invariant s[i] <= s[k]
        invariant k > i ==> s[i] < s[k]
      {
        k := k + 1;
      }
    }
  }

  lemma BalloonTableShape()
    ensures |BALLOON_TABLE| == 18 && RowsReadable(BALLOON_TABLE)
    ensures forall i :: 0 <= i < 18 ==> BALLOON_TABLE[i][1] == BALLOON_HEIGHTS[i]
    ensures forall i :: 9 <= i < 18 ==> BALLOON_TABLE[i][3] == HUMIDITY_SENTINEL
    ensures forall i :: 0 <= i < 9 ==> BALLOON_TABLE[i][3] > 0.0
  {
  }

  /** The hard-coded table is readable; its heights are the listed ones and
      strictly increase; its nine rows with the sentinel get humidity 0 and the
      nine rows below keep their positive humidity. */
  lemma BalloonTableColumns()
    ensures BuildColumns(BALLOON_TABLE).Some?
    ensures var c := BuildColumns(BALLOON_TABLE).value;
            && c.height == BALLOON_HEIGHTS
            && StrictlyIncreasing(c.height)
            && (forall i :: 9 <= i < 18 ==> c.specificHumidity[i] == 0.0)
            && (forall i :: 0 <= i < 9 ==> c.specificHumidity[i] == BALLOON_TABLE[i][3] > 0.0)
  {
    BalloonTableShape();
    var c := BuildColumns(BALLOON_TABLE).value;
    assert c.height == BALLOON_HEIGHTS;
    IncreasingByNeighbours(BALLOON_HEIGHTS);
  }
}
