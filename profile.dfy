/** The atmospheric profile: continuous predictors of pressure, temperature,
    specific humidity and wind built once from the sounding columns and the
    fitted coefficients. model.py and balloon.py differ in the temperature
    polynomial's degree (4 and 3) and in the humidity cutoff (model.py cuts
    humidity off above the first zero-humidity sample, balloon.py does not). */
module Profile {

  import opened Common
  import opened Interpolation
  import opened Sounding

  /** The coefficients the fitting routines produce, given: the exponential
      pressure fit `p0 * exp(-h / scaleHeight)` and two polynomials with the
      highest power first, as numpy orders polynomial coefficients. */
  datatype Fit = Fit(p0: real, scaleHeight: real, temperature: seq<real>, humidity: seq<real>)

  datatype Profile = Profile(columns: Columns, fit: Fit, humidityCutoff: Option<real>)

  /** Aligned columns with at least one sample; the pressure fit inside the
      fit's bounds (p0 in (0, 120000] Pa, scale height in [200, 32000] m); a
      cubic humidity polynomial and a non-empty temperature polynomial. */
  predicate WellFormed(p: Profile)
  {
    && Aligned(p.columns)
    && |p.columns.height| >= 1
    && 0.0 < p.fit.p0 <= 120000.0
    && 200.0 <= p.fit.scaleHeight <= 32000.0
    && |p.fit.temperature| >= 1
    && |p.fit.humidity| == 4
  }

  function Pow(h: real, n: nat): real
  {
    if n == 0 then 1.0 else h * Pow(h, n - 1)
  }

  /** A polynomial with its coefficients highest power first. */
  function Poly(cs: seq<real>, h: real): real
  {
    if cs == [] then 0.0 else cs[0] * Pow(h, |cs| - 1) + Poly(cs[1..], h)
  }

  /** Four coefficients give the cubic `a h^3 + b h^2 + c h + d` of
      balloon.py's temperature and of both humidity fits. */
  lemma CubicForm(cs: seq<real>, h: real)
    requires |cs| == 4
    ensures Poly(cs, h) == cs[0] * h * h * h + cs[1] * h * h + cs[2] * h + cs[3]
  {
    var c1, c2, c3 := cs[1..], cs[2..], cs[3..];
    assert c1[1..] == c2 && c2[1..] == c3 && c3[1..] == [];
    assert Pow(h, 1) == h && Pow(h, 2) == h * h && Pow(h, 3) == h * h * h;
    assert Poly(c3, h) == cs[3];
    assert Poly(c2, h) == cs[2] * h + cs[3];
    assert Poly(c1, h) == cs[1] * (h * h) + cs[2] * h + cs[3];
  }

  /** Five coefficients give model.py's quartic temperature. */
  lemma QuarticForm(cs: seq<real>, h: real)
    requires |cs| == 5
    ensures Poly(cs, h) == cs[0] * h * h * h * h + cs[1] * h * h * h + cs[2] * h * h + cs[3] * h + cs[4]
  {
    var c1 := cs[1..];
    CubicForm(c1, h);
    assert Poly(c1, h) == cs[1] * h * h * h + cs[2] * h * h + cs[3] * h + cs[4];
    assert Pow(h, 3) == h * h * h by {
      assert Pow(h, 1) == h;
    }
    var h4 := h * h * h * h;
    assert Pow(h, 4) == h4;
    assert Poly(cs, h) == cs[0] * h4 + Poly(c1, h);
  }

  /** `predict_pressure`: positive at every height. */
  function PredictPressure(p: Profile, o: Oracle, h: real): (r: real)
    requires WellFormed(p) && Sound(o)
    ensures r > 0.0
  {
    p.fit.p0 * o.exp(-h / p.fit.scaleHeight)
  }

  /** Pressure strictly decreases with height. */
  lemma PressureDecreasing(p: Profile, o: Oracle, h1: real, h2: real)
    requires WellFormed(p) && Sound(o) && h1 < h2
    ensures PredictPressure(p, o, h1) > PredictPressure(p, o, h2)
  {
    var s := p.fit.scaleHeight;
    assert -h2 / s < -h1 / s by {
      assert (-h1 / s) - (-h2 / s) == (h2 - h1) / s;
    }
    var e1, e2 := o.exp(-h1 / s), o.exp(-h2 / s);
    assert e2 < e1;
    ScaleMonotone(p.fit.p0, e2, e1);
    assert PredictPressure(p, o, h1) == p.fit.p0 * e1;
    assert PredictPressure(p, o, h2) == p.fit.p0 * e2;
  }

  lemma ScaleMonotone(k: real, a: real, b: real)
    requires k > 0.0 && a < b
    ensures k * a < k * b
  {
    assert k * b - k * a == k * (b - a);
  }

  /** `predict_temp`: the fitted polynomial, no clamping; with four
      coefficients the cubic of balloon.py, with five the quartic of model.py. */
  function PredictTemp(p: Profile, h: real): (r: real)
    ensures var cs := p.fit.temperature;
            |cs| == 4 ==> r == cs[0] * h * h * h + cs[1] * h * h + cs[2] * h + cs[3]
    ensures var cs := p.fit.temperature;
            |cs| == 5 ==> r == cs[0] * h * h * h * h + cs[1] * h * h * h + cs[2] * h * h + cs[3] * h + cs[4]
  {
    var cs := p.fit.temperature;
    if |cs| == 4 then CubicForm(cs, h); Poly(cs, h)
    else if |cs| == 5 then QuarticForm(cs, h); Poly(cs, h)
    else Poly(cs, h)
  }

  /** The fitted humidity polynomial before clamping. */
  function HumidityPolynomial(p: Profile, h: real): real
  {
    Poly(p.fit.humidity, h)
  }

  /** `predict_specific_humidity`: the polynomial, except 0 where it is
      negative or (model.py) above the cutoff height. */
  function PredictSpecificHumidity(p: Profile, h: real): (r: real)
    ensures r >= 0.0
    ensures r == 0.0 || r == HumidityPolynomial(p, h)
  {
    var v := HumidityPolynomial(p, h);
    if v < 0.0 || (p.humidityCutoff.Some? && h > p.humidityCutoff.value) then 0.0 else v
  }

  /** The humidity predictor is never negative, vanishes above the cutoff,
      and otherwise returns the polynomial wherever that is not negative. */
  lemma HumidityClamped(p: Profile, h: real)
    ensures PredictSpecificHumidity(p, h) >= 0.0
    ensures p.humidityCutoff.Some? && h > p.humidityCutoff.value ==> PredictSpecificHumidity(p, h) == 0.0
    ensures HumidityPolynomial(p, h) < 0.0 ==> PredictSpecificHumidity(p, h) == 0.0
    ensures HumidityPolynomial(p, h) >= 0.0 && (p.humidityCutoff.None? || h <= p.humidityCutoff.value) ==>
              PredictSpecificHumidity(p, h) == HumidityPolynomial(p, h)
  {
  }

  /** The index of the first zero in a column (`np.where(q == 0)[0][0]`), or
      None when there is none, where that indexing fails. */
  function FirstZero(q: seq<real>): (r: Option<nat>)
    ensures r.Some? ==> r.value < |q| && q[r.value] == 0.0 && forall j :: 0 <= j < r.value ==> q[j] != 0.0
    ensures r.None? ==> forall j :: 0 <= j < |q| ==> q[j] != 0.0
  {
    if q == [] then None
    else if q[0] == 0.0 then Some(0)
    else match FirstZero(q[1..])
      case None => None
      case Some(i) => Some(i + 1)
  }

  /** The samples model.py fits the humidity polynomial to: the rows strictly
      before the first zero humidity (the slice end is exclusive), so none of
      them has zero humidity and the zero row itself is left out. */
  function HumidityFitSamples(c: Columns): (r: Option<(seq<real>, seq<real>)>)
    requires Aligned(c)
    ensures r.Some? <==> FirstZero(c.specificHumidity).Some?
    ensures r.Some? ==>
              var k := FirstZero(c.specificHumidity).value;
              && r.value.0 == c.height[..k] && r.value.1 == c.specificHumidity[..k]
              && c.specificHumidity[k] == 0.0
              && forall j :: 0 <= j < |r.value.1| ==> r.value.1[j] != 0.0
  {
    match FirstZero(c.specificHumidity)
    case None => None
    case Some(k) => Some((c.height[..k], c.specificHumidity[..k]))
  }

  /** model.py's profile: the humidity cutoff is the height of the first
      zero-humidity sample. Without such a sample the script fails at the
      indexing; with it in the first row the humidity fit gets no samples and
      fails too. */
  function ModelProfile(c: Columns, fit: Fit): (p: Option<Profile>)
    requires Aligned(c)
    ensures p.Some? <==> (exists j :: 0 <= j < |c.specificHumidity| && c.specificHumidity[j] == 0.0) &&
                         c.specificHumidity[0] != 0.0
    ensures p.Some? ==> p.value.columns == c && p.value.fit == fit && p.value.humidityCutoff.Some?
    ensures p.Some? ==> exists k :: (0 <= k < |c.height| && c.specificHumidity[k] == 0.0 &&
              p.value.humidityCutoff.value == c.height[k] &&
              forall j :: 0 <= j < k ==> c.specificHumidity[j] != 0.0)
  {
    match FirstZero(c.specificHumidity)
    case None => None
    case Some(k) => if k == 0 then None else Some(Profile(c, fit, Some(c.height[k])))
  }

  /** balloon.py's profile: humidity is fitted over every row and is never cut off. */
  function BalloonProfile(c: Columns, fit: Fit): (p: Profile)
    ensures p.columns == c && p.fit == fit && p.humidityCutoff.None?
  {
    Profile(c, fit, None)
  }

  /** In balloon.py the humidity is 0 exactly where the polynomial is negative. */
  lemma BalloonHumidityNoCutoff(c: Columns, fit: Fit, h: real)
    ensures var p := BalloonProfile(c, fit);
            PredictSpecificHumidity(p, h) == if HumidityPolynomial(p, h) < 0.0 then 0.0 else HumidityPolynomial(p, h)
  {
  }

  /** Where the force formulas give physical values: positive temperature
      and specific humidity below 1 at `h`. */
  predicate DefinedAt(p: Profile, h: real)
  {
    PredictTemp(p, h) > 0.0 && PredictSpecificHumidity(p, h) < 1.0
  }

  /** The wind speed at height `h`. */
  function WindSpeedAt(p: Profile, h: real): real
    requires WellFormed(p)
  {
    Interpolant(p.columns.height, p.columns.windSpeed, h)
  }

  /** The wind direction (degrees) at height `h`. */
  function WindDirectionAt(p: Profile, h: real): real
    requires WellFormed(p)
  {
    Interpolant(p.columns.height, p.columns.windDirection, h)
  }

  /** `predict_wind_speed`. */
  method PredictWindSpeed(p: Profile, h: real) returns (r: real)
    requires WellFormed(p)
    ensures r == Interpolant(p.columns.height, p.columns.windSpeed, h)
  {
    r := Interpolate(p.columns.height, p.columns.windSpeed, h);
  }

  /** `predicted_wind_direction`. */
  method PredictedWindDirection(p: Profile, h: real) returns (r: real)
    requires WellFormed(p)
    ensures r == Interpolant(p.columns.height, p.columns.windDirection, h)
  {
    r := Interpolate(p.columns.height, p.columns.windDirection, h);
  }

  /** The bearing-to-vector convention: `(-cos((d + 90) pi / 180),
      -sin((d - 90) pi / 180), 0)`. */
  function DirectionVector(o: Oracle, d: real): Vec3
  {
    Vec3(-o.cos((d + 90.0) / 180.0 * PI), -o.sin((d - 90.0) / 180.0 * PI), 0.0)
  }

  /** `vectorize_wind_direction`: the direction vector of the predicted
      wind direction at `h`, with no vertical component. */
  method VectorizeWindDirection(p: Profile, o: Oracle, h: real) returns (v: Vec3)
    requires WellFormed(p)
    ensures v.z == 0.0
    ensures v.x == -o.cos((WindDirectionAt(p, h) + 90.0) / 180.0 * PI)
    ensures v.y == -o.sin((WindDirectionAt(p, h) - 90.0) / 180.0 * PI)
  {
    var d := PredictedWindDirection(p, h);
    v := DirectionVector(o, d);
  }

  /** The wind velocity at `h`: speed times direction vector. */
  function WindVelocity(p: Profile, o: Oracle, h: real): Vec3
    requires WellFormed(p)
  {
    DirectionVector(o, WindDirectionAt(p, h)).Times(WindSpeedAt(p, h))
  }

  /** The wind velocity the trajectory loops compute, from the two predictors. */
  method PredictWindVelocity(p: Profile, o: Oracle, h: real) returns (w: Vec3)
    requires WellFormed(p)
    ensures w == WindVelocity(p, o, h)
    ensures w.z == 0.0
  {
    var speed := PredictWindSpeed(p, h);
    var unit := VectorizeWindDirection(p, o, h);
    w := unit.Times(speed);
  }

  /** Both wind predictors of balloon.py, over its hard-coded table, return
      each sample's own value at that sample's height and the boundary values
      outside the sampled range. */
  lemma BalloonTableWindExact(c: Columns, fit: Fit, j: nat, h: real)
    requires BuildColumns(BALLOON_TABLE) == Some(c)
    requires j < 18
    ensures var p := BalloonProfile(c, fit);
            && |c.height| == 18
            && Interpolant(c.height, c.windSpeed, c.height[j]) == BALLOON_TABLE[j][5]
            && Interpolant(c.height, c.windDirection, c.height[j]) == BALLOON_TABLE[j][6]
            && (h <= 42.0 ==> Interpolant(c.height, c.windSpeed, h) == 10.14 &&
                              Interpolant(c.height, c.windDirection, h) == 9.6)
            && (h >= 31618.0 ==> Interpolant(c.height, c.windSpeed, h) == 17.42 &&
                                 Interpolant(c.height, c.windDirection, h) == 87.4)
  {
    BalloonTableColumns();
    BalloonTableShape();
    ExactAtSamples(c.height, c.windSpeed, j);
    ExactAtSamples(c.height, c.windDirection, j);
  }

  /** Any fit within the pressure bounds, with a cubic temperature and a
      cubic humidity polynomial, gives a well-formed balloon.py profile over
      the hard-coded table. */
  lemma BalloonTableWellFormed(c: Columns, fit: Fit)
    requires BuildColumns(BALLOON_TABLE) == Some(c)
    requires 0.0 < fit.p0 <= 120000.0 && 200.0 <= fit.scaleHeight <= 32000.0
    requires |fit.temperature| == 4 && |fit.humidity| == 4
    ensures WellFormed(BalloonProfile(c, fit))
  {
    BalloonTableColumns();
    BalloonTableShape();
  }
}
