/** The balloon and its gas and force model: humid-air molar mass, air
    density, balloon volume, buoyant, gravitational and drag force, and the
    net vertical force whose root is the neutral-buoyancy height. */
module Gas {

  import opened Common
  import opened Profile

  const MOLAR_MASS_HELIUM: real := 4.002602 / 1000.0
  const GAS_CONSTANT: real := 8.314
  const MOLAR_MASS_DRY_AIR: real := 28.96 / 1000.0
  const MOLAR_MASS_WATER_VAPOR: real := 18.02 / 1000.0
  const GRAVITY: real := 9.81
  const DRAG_COEFFICIENT_SPHERE: real := 0.47
  /** The ratio the humid-air formula adds to the mixing ratio. */
  const MOLAR_MASS_RATIO: real := MOLAR_MASS_DRY_AIR / MOLAR_MASS_WATER_VAPOR

  /** The scripts' default balloon. */
  const RADIUS: real := 0.42
  const MASS_HELIUM: real := 15.0 / 1000.0
  const MASS_BALLOON: real := 47.0 / 1000.0
  const MASS_PAYLOAD: real := 0.0 / 1000.0

  /** The tracer: its physical constants are fixed when it is made, its
      position and velocity are updated by the trajectory loops. */
  class Balloon {
    const radius: real
    const massHelium: real
    const massBalloon: real
    const molesHelium: real
    const crossSectionalArea: real
    const massPayload: real
    const dragCoefficient: real
    var x: real
    var y: real
    var z: real
    var vx: real
    var vy: real
    var vz: real

    /** A balloon starts at rest one metre up, above the origin. */
    constructor (radius: real, massHelium: real, massBalloon: real, massPayload: real)
      ensures this.radius == radius && this.massHelium == massHelium
      ensures this.massBalloon == massBalloon && this.massPayload == massPayload
      ensures molesHelium == massHelium / MOLAR_MASS_HELIUM
      ensures crossSectionalArea == PI * radius * radius
      ensures dragCoefficient == DRAG_COEFFICIENT_SPHERE
      ensures x == 0.0 && y == 0.0 && z == 1.0
      ensures vx == 0.0 && vy == 0.0 && vz == 0.0
      ensures Physical() <== radius > 0.0 && massHelium > 0.0 && massBalloon > 0.0 && massPayload >= 0.0
    {
      this.radius := radius;
      this.massHelium := massHelium;
      this.massBalloon := massBalloon;
      this.molesHelium := massHelium / MOLAR_MASS_HELIUM;
      this.crossSectionalArea := PI * radius * radius;
      this.massPayload := massPayload;
      this.dragCoefficient := DRAG_COEFFICIENT_SPHERE;
      x, y, z := 0.0, 0.0, 1.0;
      vx, vy, vz := 0.0, 0.0, 0.0;
    }

    /** Positive size and masses (the payload may weigh nothing), and the
        derived constants as the constructor sets them. */
    predicate Physical()
    {
      && radius > 0.0 && massHelium > 0.0 && massBalloon > 0.0 && massPayload >= 0.0
      && molesHelium == massHelium / MOLAR_MASS_HELIUM
      && crossSectionalArea == PI * radius * radius
      && dragCoefficient == DRAG_COEFFICIENT_SPHERE
    }
  }

  /** The fully inflated volume `4/3 pi r^3`. */
  function FullVolume(b: Balloon): real
  {
    4.0 / 3.0 * PI * (b.radius * b.radius * b.radius)
  }

  lemma FullVolumePositive(b: Balloon)
    requires b.Physical()
    ensures FullVolume(b) > 0.0
  {
    assert b.radius * b.radius > 0.0;
    assert b.radius * b.radius * b.radius > 0.0;
  }

  /** `molar_mass_humid_air`: mixing ratio `r = q / (1 - q)`, vapour fraction
      `X_w = r / (r + M_dry / M_vapour)`, then `(1 - X_w) M_dry + X_w M_vapour`.
      Defined wherever neither division is by zero. */
  function MolarMassHumidAir(q: real): (m: real)
    requires q != 1.0 && q / (1.0 - q) + MOLAR_MASS_RATIO != 0.0
    ensures q == 0.0 ==> m == MOLAR_MASS_DRY_AIR
  {
    var r := q / (1.0 - q);
    var xw := r / (r + MOLAR_MASS_RATIO);
    var xd := 1.0 - xw;
    xd * MOLAR_MASS_DRY_AIR + xw * MOLAR_MASS_WATER_VAPOR
  }

  /** The vapour fraction the formula uses. */
  function VapourFraction(q: real): real
    requires 0.0 <= q < 1.0
  {
    var r := q / (1.0 - q);
    r / (r + MOLAR_MASS_RATIO)
  }

  lemma VapourFractionBounds(q: real)
    requires 0.0 <= q < 1.0
    ensures 0.0 <= VapourFraction(q) < 1.0
    ensures q == 0.0 <==> VapourFraction(q) == 0.0
  {
    var r := q / (1.0 - q);
    QuotientSign(q, 1.0 - q);
    assert r < r + MOLAR_MASS_RATIO;
    QuotientSign(r, r + MOLAR_MASS_RATIO);
  }

  /** A product of two positive numbers, named `p`, is positive. */
  lemma ProductPositive(x: real, y: real, p: real)
    requires x > 0.0 && y > 0.0 && p == x * y
    ensures p > 0.0
  {
  }

  /** A non-negative number over a positive one: non-negative, and positive
      exactly when the numerator is. */
  lemma QuotientSign(a: real, d: real)
    requires a >= 0.0 && d > 0.0
    ensures a / d >= 0.0
    ensures a / d > 0.0 <==> a > 0.0
  {
  }

  /** Dry air has the dry molar mass; for `0 <= q < 1` the result is a convex
      combination of the two molar masses, above the vapour's and at most the
      dry air's, equal to the latter only for dry air. */
  lemma {:induction false} MolarMassBetween(q: real)
    requires 0.0 <= q < 1.0
    ensures q / (1.0 - q) + MOLAR_MASS_RATIO != 0.0
    ensures var xw := VapourFraction(q);
            MolarMassHumidAir(q) == (1.0 - xw) * MOLAR_MASS_DRY_AIR + xw * MOLAR_MASS_WATER_VAPOR
    ensures MOLAR_MASS_WATER_VAPOR < MolarMassHumidAir(q) <= MOLAR_MASS_DRY_AIR
    ensures q == 0.0 <==> MolarMassHumidAir(q) == MOLAR_MASS_DRY_AIR
  {
    var r := q / (1.0 - q);
    QuotientSign(q, 1.0 - q);
    VapourFractionBounds(q);
    var xw := VapourFraction(q);
    var m := MolarMassHumidAir(q);
    assert m == MOLAR_MASS_DRY_AIR - xw * (MOLAR_MASS_DRY_AIR - MOLAR_MASS_WATER_VAPOR);
    assert xw * (MOLAR_MASS_DRY_AIR - MOLAR_MASS_WATER_VAPOR) < MOLAR_MASS_DRY_AIR - MOLAR_MASS_WATER_VAPOR;
    assert xw > 0.0 ==> xw * (MOLAR_MASS_DRY_AIR - MOLAR_MASS_WATER_VAPOR) > 0.0;
  }

  /** More vapour makes the air lighter. */
  lemma {:induction false} MolarMassDecreasing(q1: real, q2: real)
    requires 0.0 <= q1 < q2 < 1.0
    ensures q1 / (1.0 - q1) + MOLAR_MASS_RATIO != 0.0 && q2 / (1.0 - q2) + MOLAR_MASS_RATIO != 0.0
    ensures MolarMassHumidAir(q1) > MolarMassHumidAir(q2)
  {
    MolarMassBetween(q1);
    MolarMassBetween(q2);
    MixingRatioIncreasing(q1, q2);
    QuotientSign(q1, 1.0 - q1);
    FractionIncreasing(q1 / (1.0 - q1), q2 / (1.0 - q2), MOLAR_MASS_RATIO);
    ConvexDecreasing(VapourFraction(q1), VapourFraction(q2), MOLAR_MASS_DRY_AIR, MOLAR_MASS_WATER_VAPOR);
  }

  lemma MixingRatioIncreasing(q1: real, q2: real)
    requires 0.0 <= q1 < q2 < 1.0
    ensures q1 / (1.0 - q1) < q2 / (1.0 - q2)
  {
    assert q1 * (1.0 - q2) == q1 - q1 * q2;
    assert q2 * (1.0 - q1) == q2 - q1 * q2;
    DivideMonotone(q1, 1.0 - q1, q2, 1.0 - q2);
  }

  lemma FractionIncreasing(r1: real, r2: real, k: real)
    requires 0.0 <= r1 < r2 && k > 0.0
    ensures r1 / (r1 + k) < r2 / (r2 + k)
  {
    assert r1 * (r2 + k) == r1 * r2 + r1 * k;
    assert r2 * (r1 + k) == r1 * r2 + r2 * k;
    assert r1 * k < r2 * k;
    DivideMonotone(r1, r1 + k, r2, r2 + k);
  }

  /** Moving weight from the heavier to the lighter component lowers a
      weighted mean. */
  lemma ConvexDecreasing(x1: real, x2: real, heavy: real, light: real)
    requires x1 < x2 && light < heavy
    ensures (1.0 - x1) * heavy + x1 * light > (1.0 - x2) * heavy + x2 * light
  {
    assert (1.0 - x1) * heavy + x1 * light == heavy - x1 * (heavy - light);
    assert (1.0 - x2) * heavy + x2 * light == heavy - x2 * (heavy - light);
    assert x1 * (heavy - light) < x2 * (heavy - light);
  }

  /** Cross-multiplication for positive denominators. */
  lemma DivideMonotone(a: real, b: real, c: real, d: real)
    requires b > 0.0 && d > 0.0 && a * d < c * b
    ensures a / b < c / d
  {
    assert a / b == (a * d) / (b * d);
    assert c / d == (c * b) / (b * d);
  }

  /** Where no formula of the force model divides by zero: the temperature
      is not 0 and the humidity keeps both divisions of the molar-mass formula
      defined. At other heights numpy's arithmetic yields inf or NaN. */
  predicate Computable(p: Profile, h: real)
  {
    var q := PredictSpecificHumidity(p, h);
    PredictTemp(p, h) != 0.0 && q != 1.0 && q / (1.0 - q) + MOLAR_MASS_RATIO != 0.0
  }

  /** Wherever the values are physical, the formulas are computable. */
  lemma DefinedIsComputable(p: Profile, h: real)
    requires DefinedAt(p, h)
    ensures Computable(p, h)
  {
    MolarMassBetween(PredictSpecificHumidity(p, h));
  }

  /** `predict_air_density`: `P M(q) / (R T)`, positive wherever the
      temperature is positive and the humidity below 1. */
  function PredictAirDensity(p: Profile, o: Oracle, h: real): (rho: real)
    requires WellFormed(p) && Sound(o) && Computable(p, h)
    ensures DefinedAt(p, h) ==> rho > 0.0
  {
    var q := PredictSpecificHumidity(p, h);
    MolarMassPositive(q);
    PredictPressure(p, o, h) * MolarMassHumidAir(q) / (GAS_CONSTANT * PredictTemp(p, h))
  }

  lemma MolarMassPositive(q: real)
    requires q != 1.0 && q / (1.0 - q) + MOLAR_MASS_RATIO != 0.0
    ensures 0.0 <= q < 1.0 ==> MolarMassHumidAir(q) > 0.0
  {
    if 0.0 <= q < 1.0 {
      MolarMassBetween(q);
    }
  }

  /** The ideal-gas volume of the helium, `n R T / P`. */
  function IdealGasVolume(b: Balloon, p: Profile, o: Oracle, h: real): real
    requires WellFormed(p) && Sound(o)
  {
    b.molesHelium * GAS_CONSTANT * PredictTemp(p, h) / PredictPressure(p, o, h)
  }

  /** `balloon_volume_at_height`: the ideal-gas volume, capped once computed
      at the fully inflated volume. */
  function BalloonVolumeAtHeight(b: Balloon, p: Profile, o: Oracle, h: real): (v: real)
    requires WellFormed(p) && Sound(o)
    ensures v <= FullVolume(b)
    ensures IdealGasVolume(b, p, o, h) <= FullVolume(b) ==> v == IdealGasVolume(b, p, o, h)
    ensures IdealGasVolume(b, p, o, h) > FullVolume(b) ==> v == FullVolume(b)
  {
    var volume := IdealGasVolume(b, p, o, h);
    if volume > FullVolume(b) then FullVolume(b) else volume
  }

  /** The volume has the sign of the temperature: positive exactly where the
      temperature is, and zero exactly where it is. */
  lemma VolumeSign(b: Balloon, p: Profile, o: Oracle, h: real)
    requires WellFormed(p) && Sound(o) && b.Physical()
    ensures BalloonVolumeAtHeight(b, p, o, h) > 0.0 <==> PredictTemp(p, h) > 0.0
    ensures BalloonVolumeAtHeight(b, p, o, h) == 0.0 <==> PredictTemp(p, h) == 0.0
  {
    FullVolumePositive(b);
    var t := PredictTemp(p, h);
    var pr := PredictPressure(p, o, h);
    var k := b.molesHelium * GAS_CONSTANT;
    assert k > 0.0;
    SignOfScaled(k, t, pr);
  }

  /** `k t / d` has the sign of `t` for positive `k` and `d`. */
  lemma SignOfScaled(k: real, t: real, d: real)
    requires k > 0.0 && d > 0.0
    ensures k * t / d > 0.0 <==> t > 0.0
    ensures k * t / d == 0.0 <==> t == 0.0
  {
    if t > 0.0 {
      ProductPositive(k, t, k * t);
    } else if t < 0.0 {
      ProductPositive(k, -t, -(k * t));
    }
  }

  /** `predict_balloon_density`: helium mass over volume, positive exactly
      where the temperature is. */
  function PredictBalloonDensity(b: Balloon, p: Profile, o: Oracle, h: real): (rho: real)
    requires WellFormed(p) && Sound(o) && b.Physical() && Computable(p, h)
    ensures rho > 0.0 <==> PredictTemp(p, h) > 0.0
  {
    VolumeSign(b, p, o, h);
    QuotientBySign(b.massHelium, BalloonVolumeAtHeight(b, p, o, h));
    b.massHelium / BalloonVolumeAtHeight(b, p, o, h)
  }

  /** A positive number over a non-zero one is positive exactly when the
      divisor is. */
  lemma QuotientBySign(a: real, d: real)
    requires a > 0.0 && d != 0.0
    ensures a / d > 0.0 <==> d > 0.0
  {
    if d < 0.0 {
      assert a / d == -(a / -d);
    }
  }

  /** `bouyant_force`: `g V (rho_air - rho_helium)`; where the values are
      physical it lifts exactly when the air is denser than the helium. */
  function BouyantForce(b: Balloon, p: Profile, o: Oracle, h: real): (f: real)
    requires WellFormed(p) && Sound(o) && b.Physical() && Computable(p, h)
    ensures DefinedAt(p, h) ==> (f > 0.0 <==> PredictAirDensity(p, o, h) > PredictBalloonDensity(b, p, o, h))
  {
    VolumeSign(b, p, o, h);
    var v := BalloonVolumeAtHeight(b, p, o, h);
    var d := PredictAirDensity(p, o, h) - PredictBalloonDensity(b, p, o, h);
    LiftSign(v, d);
    GRAVITY * v * d
  }

  lemma LiftSign(v: real, d: real)
    ensures v > 0.0 ==> (GRAVITY * v * d > 0.0 <==> d > 0.0)
  {
    if v > 0.0 {
      if d > 0.0 {
        ProductPositive(GRAVITY * v, d, GRAVITY * v * d);
      } else {
        assert GRAVITY * v * -d >= 0.0;
      }
    }
  }

  /** The buoyant force already nets out the weight of the helium: it is the
      weight of the displaced air minus the weight of the gas. */
  lemma {:induction false} BouyantIsNetOfGasWeight(b: Balloon, p: Profile, o: Oracle, h: real)
    requires WellFormed(p) && Sound(o) && b.Physical() && Computable(p, h)
    ensures BouyantForce(b, p, o, h) ==
              GRAVITY * BalloonVolumeAtHeight(b, p, o, h) * PredictAirDensity(p, o, h) - GRAVITY * b.massHelium
  {
    var v := BalloonVolumeAtHeight(b, p, o, h);
    VolumeSign(b, p, o, h);
    assert v * (b.massHelium / v) == b.massHelium;
    var ra := PredictAirDensity(p, o, h);
    assert GRAVITY * v * (ra - b.massHelium / v) == GRAVITY * v * ra - GRAVITY * (v * (b.massHelium / v));
  }

  /** `gravitational_force`: the weight of envelope and payload. */
  function GravitationalForce(b: Balloon): (g: real)
    ensures g == GRAVITY * (b.massBalloon + b.massPayload)
    ensures b.Physical() ==> g > 0.0
  {
    GRAVITY * b.massBalloon + GRAVITY * b.massPayload
  }

  /** `drag_force`: `0.5 Cd A rho v^2`, a magnitude; no drag at rest
      relative to the air. */
  function DragForce(b: Balloon, p: Profile, o: Oracle, h: real, relativeVelocitySquared: real): (f: real)
    requires WellFormed(p) && Sound(o) && Computable(p, h)
    ensures relativeVelocitySquared == 0.0 ==> f == 0.0
  {
    0.5 * b.dragCoefficient * b.crossSectionalArea * PredictAirDensity(p, o, h) * relativeVelocitySquared
  }

  /** The drag magnitude is positive for a moving balloon, zero at rest
      relative to the air, and never negative. */
  lemma DragSign(b: Balloon, p: Profile, o: Oracle, h: real, v2: real)
    requires WellFormed(p) && Sound(o) && DefinedAt(p, h) && b.Physical() && v2 >= 0.0
    ensures Computable(p, h) && DragForce(b, p, o, h, v2) >= 0.0
    ensures DragForce(b, p, o, h, v2) == 0.0 <==> v2 == 0.0
  {
    DefinedIsComputable(p, h);
    var rho := PredictAirDensity(p, o, h);
    AreaPositive(b);
    var k := 0.5 * b.dragCoefficient * b.crossSectionalArea * rho;
    var cd := 0.5 * b.dragCoefficient;
    ProductPositive(cd, b.crossSectionalArea, cd * b.crossSectionalArea);
    ProductPositive(cd * b.crossSectionalArea, rho, k);
    assert DragForce(b, p, o, h, v2) == k * v2;
    assert v2 > 0.0 ==> k * v2 > 0.0;
  }

  lemma AreaPositive(b: Balloon)
    requires b.Physical()
    ensures b.crossSectionalArea > 0.0
  {
    ProductPositive(PI, b.radius, PI * b.radius);
    ProductPositive(PI * b.radius, b.radius, b.crossSectionalArea);
  }

  /** `find_true_neutral_buoyancy_height`: the net vertical force, whose root
      is the neutral-buoyancy height. */
  function NetLift(b: Balloon, p: Profile, o: Oracle, h: real): (r: real)
    requires WellFormed(p) && Sound(o) && b.Physical() && Computable(p, h)
    ensures r < BouyantForce(b, p, o, h)
  {
    BouyantForce(b, p, o, h) - GravitationalForce(b)
  }

  /** At a root of the net force the buoyant force carries exactly the weight
      of envelope and payload; below or above it, it falls short or exceeds it. */
  lemma NeutralBuoyancyBalance(b: Balloon, p: Profile, o: Oracle, h: real)
    requires WellFormed(p) && Sound(o) && b.Physical() && Computable(p, h)
    ensures NetLift(b, p, o, h) == 0.0 <==>
              GRAVITY * BalloonVolumeAtHeight(b, p, o, h) * PredictAirDensity(p, o, h) ==
              GRAVITY * (b.massHelium + b.massBalloon + b.massPayload)
  {
    BouyantIsNetOfGasWeight(b, p, o, h);
  }

  /** The diagnostics reported for the root estimate the solver returns
      (given): the height, the volume there and the full volume. */
  datatype NeutralBuoyancyReport = NeutralBuoyancyReport(height: real, volume: real, fullVolume: real)

  function ReportNeutralBuoyancy(b: Balloon, p: Profile, o: Oracle, estimate: real): (r: NeutralBuoyancyReport)
    requires WellFormed(p) && Sound(o)
    ensures r.height == estimate && r.fullVolume == FullVolume(b)
    ensures r.volume <= r.fullVolume
    ensures IdealGasVolume(b, p, o, estimate) <= FullVolume(b) ==> r.volume == IdealGasVolume(b, p, o, estimate)
  {
    NeutralBuoyancyReport(estimate, BalloonVolumeAtHeight(b, p, o, estimate), FullVolume(b))
  }
}
