/** The wind-advection trajectory of model.py: each second the balloon drifts
    with the wind horizontally and rises at a simplified terminal velocity. */
module Advection {

  import opened Common
  import opened Profile
  import opened Gas

  /** model.py runs one-second steps for a day. */
  const TIME_STEP: nat := 1
  const TOTAL_TIME: nat := 86400

  /** What the trajectory formulas need of their inputs: a sound numerical
      library, a balloon with positive size and masses, and a well-formed
      profile. Heights where the formulas are not computable are handled by
      the steps themselves. */
  ghost predicate Flight(b: Balloon, p: Profile, o: Oracle)
  {
    Sound(o) && b.Physical() && WellFormed(p)
  }

  /** The terminal rise velocity: 0 under negative net lift, otherwise
      `sqrt(lift / (Cd A))`. */
  function TerminalRiseVelocity(b: Balloon, p: Profile, o: Oracle, h: real): (v: real)
    requires Flight(b, p, o) && Computable(p, h)
    ensures v >= 0.0
  {
    var lift := NetLift(b, p, o, h);
    if lift < 0.0 then 0.0
    else
      DragArea(b);
      QuotientSign(lift, b.dragCoefficient * b.crossSectionalArea);
      o.sqrt(lift / (b.dragCoefficient * b.crossSectionalArea))
  }

  lemma DragArea(b: Balloon)
    requires b.Physical()
    ensures b.dragCoefficient * b.crossSectionalArea > 0.0
  {
    AreaPositive(b);
    ProductPositive(b.dragCoefficient, b.crossSectionalArea, b.dragCoefficient * b.crossSectionalArea);
  }

  /** The terminal velocity vanishes exactly when the net lift is not
      positive, and wherever the lift is not negative its square times `Cd A`
      is the lift. */
  lemma {:induction false} TerminalVelocityBalance(b: Balloon, p: Profile, o: Oracle, h: real)
    requires Flight(b, p, o) && Computable(p, h)
    ensures TerminalRiseVelocity(b, p, o, h) == 0.0 <==> NetLift(b, p, o, h) <= 0.0
    ensures NetLift(b, p, o, h) >= 0.0 ==>
              var v := TerminalRiseVelocity(b, p, o, h);
              v * v * (b.dragCoefficient * b.crossSectionalArea) == NetLift(b, p, o, h)
  {
    var lift := NetLift(b, p, o, h);
    if lift >= 0.0 {
      DragArea(b);
      SqrtOfQuotient(o, lift, b.dragCoefficient * b.crossSectionalArea);
    }
  }

  /** `sqrt(lift / k)` for a non-negative lift and positive `k`: its square
      times `k` is the lift, and it vanishes exactly with the lift. */
  lemma SqrtOfQuotient(o: Oracle, lift: real, k: real)
    requires Sound(o) && lift >= 0.0 && k > 0.0
    ensures var v := o.sqrt(lift / k);
            v >= 0.0 && v * v * k == lift && (v == 0.0 <==> lift == 0.0)
  {
    QuotientSign(lift, k);
    var v := o.sqrt(lift / k);
    assert v * v == lift / k;
    SquareZero(v);
  }

  /** The simplified velocity leaves out the factor `rho / 2` of the drag
      law: the drag at that speed is `rho / 2` times the net lift, so drag and
      lift balance only where the air density is 2. */
  lemma {:induction false} TerminalDragIsHalfDensityTimesLift(b: Balloon, p: Profile, o: Oracle, h: real)
    requires Flight(b, p, o) && Computable(p, h) && NetLift(b, p, o, h) >= 0.0
    ensures var v := TerminalRiseVelocity(b, p, o, h);
            DragForce(b, p, o, h, v * v) == 0.5 * PredictAirDensity(p, o, h) * NetLift(b, p, o, h)
  {
    TerminalVelocityBalance(b, p, o, h);
    var v := TerminalRiseVelocity(b, p, o, h);
    DragAlgebra(b.dragCoefficient, b.crossSectionalArea, PredictAirDensity(p, o, h), v * v, NetLift(b, p, o, h));
  }

  lemma DragAlgebra(cd: real, area: real, rho: real, v2: real, lift: real)
    requires v2 * (cd * area) == lift
    ensures 0.5 * cd * area * rho * v2 == 0.5 * rho * lift
  {
    assert 0.5 * cd * area * rho * v2 == 0.5 * rho * (v2 * (cd * area));
  }

  /** The velocity a step moves the balloon with at height `z`: the wind
      horizontally, the terminal rise velocity vertically; none where the
      formulas are not computable, where numpy's buoyant force is NaN. */
  function Velocity(b: Balloon, p: Profile, o: Oracle, z: real): (v: Option<Vec3>)
    requires Flight(b, p, o)
    ensures v.Some? <==> Computable(p, z)
  {
    if !Computable(p, z) then None
    else
      var w := WindVelocity(p, o, z);
      Some(Vec3(w.x, w.y, TerminalRiseVelocity(b, p, o, z)))
  }

  /** The velocity field of a flight, as a function of height. */
  ghost function Field(b: Balloon, p: Profile, o: Oracle): real -> Option<Vec3>
    requires Flight(b, p, o)
  {
    z => Velocity(b, p, o, z)
  }

  /** One explicit Euler step of length `dt` from `q`; none where the field
      is undefined, where the height of the source's tracer becomes NaN. */
  function Step(field: real -> Option<Vec3>, q: Vec3, dt: real): (r: Option<Vec3>)
    ensures r.Some? <==> field(q.z).Some?
    ensures r.Some? ==> r.value.Minus(q) == field(q.z).value.Times(dt)
  {
    match field(q.z)
    case None => None
    case Some(v) => Some(q.Plus(v.Times(dt)))
  }

  /** The position after `n` steps through a velocity field that depends on
      height only; none once a step has met an undefined velocity, since
      every later number of the source is NaN. */
  function Drift(field: real -> Option<Vec3>, start: Vec3, dt: real, n: nat): (r: Option<Vec3>)
    ensures n == 0 ==> r == Some(start)
    ensures r.None? ==> n > 0
  {
    if n == 0 then Some(start)
    else
      match Drift(field, start, dt, n - 1)
      case None => None
      case Some(q) => Step(field, q, dt)
  }

  /** The positions after steps 1 to `n`; `None` stands for a line whose
      height is NaN. */
  function Path(field: real -> Option<Vec3>, start: Vec3, dt: real, n: nat): (r: seq<Option<Vec3>>)
    ensures |r| == n
  {
    if n == 0 then [] else Path(field, start, dt, n - 1) + [Drift(field, start, dt, n)]
  }

  /** The path lists each position in step order. */
  lemma {:induction false} PathPositions(field: real -> Option<Vec3>, start: Vec3, dt: real, n: nat, j: nat)
    requires j < n
    ensures Path(field, start, dt, n)[j] == Drift(field, start, dt, j + 1)
  {
    if j < n - 1 {
      PathPositions(field, start, dt, n - 1, j);
    }
  }

  /** Once the height is NaN it stays NaN. */
  lemma {:induction false} LostIsFinal(field: real -> Option<Vec3>, start: Vec3, dt: real, i: nat, j: nat)
    requires i <= j && Drift(field, start, dt, i).None?
    ensures Drift(field, start, dt, j).None?
    decreases j - i
  {
    if i < j {
      LostIsFinal(field, start, dt, i, j - 1);
    }
  }

  /** The body of the loop: the wind velocity and the terminal rise velocity
      at the current height, then the new position; none where the formulas
      are not computable. */
  method Advance(tracer: Balloon, p: Profile, o: Oracle, pos: Vec3, dt: real) returns (next: Option<Vec3>)
    requires Flight(tracer, p, o)
    ensures next == Step(Field(tracer, p, o), pos, dt)
  {
    if !Computable(p, pos.z) {
      return None;
    }
    var wind := PredictWindVelocity(p, o, pos.z);
    var rise := TerminalRiseVelocity(tracer, p, o, pos.z);
    next := Some(pos.Plus(Vec3(wind.x, wind.y, rise).Times(dt)));
  }

  /** One step of the loop of `plot_trajectory` in model.py: the tracer
      moves by the velocity at its height for `dt` seconds; its velocity
      fields are left as they were. Where the step is undefined the source's
      height becomes NaN, which the tracer's fields cannot hold: they are
      left as they were and the step reports none. */
  method Move(tracer: Balloon, p: Profile, o: Oracle, dt: real) returns (next: Option<Vec3>)
    requires Flight(tracer, p, o)
    modifies tracer
    ensures next == Step(Field(tracer, p, o), old(Vec3(tracer.x, tracer.y, tracer.z)), dt)
    ensures next.Some? ==> Vec3(tracer.x, tracer.y, tracer.z) == next.value
    ensures next.None? ==> Vec3(tracer.x, tracer.y, tracer.z) == old(Vec3(tracer.x, tracer.y, tracer.z))
    ensures tracer.vx == old(tracer.vx) && tracer.vy == old(tracer.vy) && tracer.vz == old(tracer.vz)
  {
    next := Advance(tracer, p, o, Vec3(tracer.x, tracer.y, tracer.z), dt);
    if next.Some? {
      tracer.x, tracer.y, tracer.z := next.value.x, next.value.y, next.value.z;
    }
  }

  /** `plot_trajectory` of model.py: `TOTAL_TIME / TIME_STEP` one-second
      steps, recording the height after each step and the elapsed time before
      it; `lines` are the positions written to the trajectory file, one per
      step, `None` once the height is NaN. */
  method PlotTrajectory(tracer: Balloon, p: Profile, o: Oracle)
      returns (heights: seq<Option<real>>, times: seq<nat>, lines: seq<Option<Vec3>>)
    requires Flight(tracer, p, o)
    modifies tracer
    ensures |heights| == TOTAL_TIME / TIME_STEP && |times| == |heights| && |lines| == |heights|
    ensures times == Clock(TOTAL_TIME / TIME_STEP)
    ensures lines == Path(Field(tracer, p, o), old(Vec3(tracer.x, tracer.y, tracer.z)), TIME_STEP as real, TOTAL_TIME / TIME_STEP)
    ensures heights == Heights(lines)
    ensures var last := Drift(Field(tracer, p, o), old(Vec3(tracer.x, tracer.y, tracer.z)), TIME_STEP as real, TOTAL_TIME / TIME_STEP);
            last.Some? ==> Vec3(tracer.x, tracer.y, tracer.z) == last.value
    ensures tracer.vx == old(tracer.vx) && tracer.vy == old(tracer.vy) && tracer.vz == old(tracer.vz)
  {
    var dt := TIME_STEP as real;
    heights := [];
    times := [];
    lines := [];
    ghost var start := Vec3(tracer.x, tracer.y, tracer.z);
    ghost var field := Field(tracer, p, o);
    var lost := false;
    for i := 0 to TOTAL_TIME / TIME_STEP
      invariant lost <==> Drift(field, start, dt, i).None?
      invariant !lost ==> Vec3(tracer.x, tracer.y, tracer.z) == Drift(field, start, dt, i).value
      invariant |lines| == i && |heights| == i && |times| == i
      invariant tracer.vx == old(tracer.vx) && tracer.vy == old(tracer.vy) && tracer.vz == old(tracer.vz)
      invariant lines == Path(field, start, dt, i)
      invariant heights == Heights(lines)
      invariant times == Clock(i)
    {
      var elapsed: nat := i * TIME_STEP;
      var next: Option<Vec3> := None;
      if !lost {
        next := Move(tracer, p, o, dt);
        lost := next.None?;
      }
      assert next == Drift(field, start, dt, i + 1);
      assert (lines + [next])[..i] == lines;
      lines := lines + [next];
      heights := heights + [if next.Some? then Some(tracer.z) else None];
      times := times + [elapsed];
    }
  }

  /** The elapsed times recorded by the first `n` steps. */
  function Clock(n: nat): (r: seq<nat>)
    ensures |r| == n
  {
    if n == 0 then [] else Clock(n - 1) + [(n - 1) * TIME_STEP]
  }

  /** Step `i` is recorded at `i` time steps. */
  lemma {:induction false} ClockEntries(n: nat)
    ensures forall i :: 0 <= i < n ==> Clock(n)[i] == i * TIME_STEP
  {
    if n > 0 {
      ClockEntries(n - 1);
    }
  }

  /** The height of a line: none where it is NaN. */
  function HeightOf(line: Option<Vec3>): Option<real>
  {
    match line
    case None => None
    case Some(v) => Some(v.z)
  }

  /** The height column of a list of positions. */
  function Heights(s: seq<Option<Vec3>>): (r: seq<Option<real>>)
    ensures |r| == |s|
  {
    if |s| == 0 then [] else Heights(s[..|s| - 1]) + [HeightOf(s[|s| - 1])]
  }

  /** Each recorded height is the height of the position on the same line,
      and NaN exactly where that line is. */
  lemma {:induction false} HeightsEntries(s: seq<Option<Vec3>>)
    ensures forall i :: 0 <= i < |s| ==> (Heights(s)[i].Some? <==> s[i].Some?)
    ensures forall i :: 0 <= i < |s| && s[i].Some? ==> Heights(s)[i].value == s[i].value.z
  {
    if |s| > 0 {
      HeightsEntries(s[..|s| - 1]);
    }
  }

  /** With model.py's constants the loop records one entry per second of the day. */
  lemma DayOfSeconds()
    ensures TOTAL_TIME / TIME_STEP == 86400
  {
  }

  /** The flight's field where the formulas are computable: the wind's
      horizontal components, and a vertical component that is never negative
      and vanishes exactly where the net lift is not positive. */
  lemma FieldComponents(b: Balloon, p: Profile, o: Oracle, z: real)
    requires Flight(b, p, o) && Computable(p, z)
    ensures Field(b, p, o)(z).Some?
    ensures Field(b, p, o)(z).value.x == WindVelocity(p, o, z).x && Field(b, p, o)(z).value.y == WindVelocity(p, o, z).y
    ensures Field(b, p, o)(z).value.z >= 0.0
    ensures Field(b, p, o)(z).value.z == 0.0 <==> NetLift(b, p, o, z) <= 0.0
  {
    TerminalVelocityBalance(b, p, o, z);
  }

  /** Under a field that never points down, the height never decreases: a
      position defined after `j` steps was defined after every earlier step,
      no higher. */
  lemma {:induction false} HeightNeverDecreases(field: real -> Option<Vec3>, start: Vec3, dt: real, i: nat, j: nat)
    requires forall z :: field(z).Some? ==> field(z).value.z >= 0.0
    requires dt > 0.0 && i <= j && Drift(field, start, dt, j).Some?
    ensures Drift(field, start, dt, i).Some?
    ensures Drift(field, start, dt, i).value.z <= Drift(field, start, dt, j).value.z
    decreases j - i
  {
    if i < j {
      var q := Drift(field, start, dt, j - 1);
      assert q.Some?;
      HeightNeverDecreases(field, start, dt, i, j - 1);
      MulNonnegative(field(q.value.z).value.z, dt);
    }
  }

  /** The flight's height never decreases. */
  lemma FlightHeightNeverDecreases(b: Balloon, p: Profile, o: Oracle, start: Vec3, dt: real, i: nat, j: nat)
    requires Flight(b, p, o) && dt > 0.0 && i <= j && Drift(Field(b, p, o), start, dt, j).Some?
    ensures Drift(Field(b, p, o), start, dt, i).Some?
    ensures Drift(Field(b, p, o), start, dt, i).value.z <= Drift(Field(b, p, o), start, dt, j).value.z
  {
    UpwardField(b, p, o);
    HeightNeverDecreases(Field(b, p, o), start, dt, i, j);
  }

  lemma UpwardField(b: Balloon, p: Profile, o: Oracle)
    requires Flight(b, p, o)
    ensures forall z :: Field(b, p, o)(z).Some? ==> Field(b, p, o)(z).value.z >= 0.0
  {
    forall z | Field(b, p, o)(z).Some? ensures Field(b, p, o)(z).value.z >= 0.0 {
      FieldComponents(b, p, o, z);
    }
  }

  /** A flight whose formulas are computable at every height from its start
      upwards is never lost: its position is defined after every step. */
  lemma {:induction false} NeverLost(b: Balloon, p: Profile, o: Oracle, start: Vec3, dt: real, n: nat)
    requires Flight(b, p, o) && dt > 0.0
    requires forall h :: h >= start.z ==> Computable(p, h)
    ensures Drift(Field(b, p, o), start, dt, n).Some?
  {
    if n > 0 {
      NeverLost(b, p, o, start, dt, n - 1);
      FlightHeightNeverDecreases(b, p, o, start, dt, 0, n - 1);
      var q := Drift(Field(b, p, o), start, dt, n - 1).value;
      assert Computable(p, q.z);
    }
  }

  lemma SquareZero(v: real)
    ensures v * v == 0.0 ==> v == 0.0
  {
    if v != 0.0 {
      if v > 0.0 { ProductPositive(v, v, v * v); } else { ProductPositive(-v, -v, v * v); }
    }
  }

  lemma MulNonnegative(x: real, y: real)
    requires x >= 0.0 && y >= 0.0
    ensures x * y >= 0.0
  {
  }

  /** One step through a field that is defined at the start height and does
      not point down there: the balloon rises exactly when the field's
      vertical component is positive, and moves horizontally by the field
      times the step length. */
  lemma {:induction false} StepThroughField(field: real -> Option<Vec3>, pos: Vec3, dt: real, wx: real, wy: real)
    requires dt > 0.0 && field(pos.z).Some? && field(pos.z).value.z >= 0.0
    requires field(pos.z).value.x == wx && field(pos.z).value.y == wy
    ensures var next := Drift(field, pos, dt, 1);
            && next.Some?
            && (next.value.z > pos.z <==> field(pos.z).value.z > 0.0)
            && (next.value.z == pos.z <==> field(pos.z).value.z == 0.0)
            && next.value.x == pos.x + dt * wx
            && next.value.y == pos.y + dt * wy
  {
    assert Drift(field, pos, dt, 1) == Some(pos.Plus(field(pos.z).value.Times(dt)));
    var v := field(pos.z).value.z;
    if v > 0.0 {
      ProductPositive(dt, v, dt * v);
    }
  }

  /** A step is lost exactly at a height where the formulas are not
      computable. Otherwise the balloon rises exactly when the net lift at
      its height is positive, and keeps its height otherwise; horizontally it
      moves by the wind velocity times the step length. */
  lemma StepMotion(b: Balloon, p: Profile, o: Oracle, pos: Vec3, dt: real)
    requires Flight(b, p, o) && dt > 0.0
    ensures Drift(Field(b, p, o), pos, dt, 1).None? <==> !Computable(p, pos.z)
    ensures Computable(p, pos.z) ==>
              var next := Drift(Field(b, p, o), pos, dt, 1).value;
              && (next.z > pos.z <==> NetLift(b, p, o, pos.z) > 0.0)
              && (next.z == pos.z <==> NetLift(b, p, o, pos.z) <= 0.0)
              && next.x == pos.x + dt * WindVelocity(p, o, pos.z).x
              && next.y == pos.y + dt * WindVelocity(p, o, pos.z).y
  {
    if Computable(p, pos.z) {
      FieldComponents(b, p, o, pos.z);
      var w := WindVelocity(p, o, pos.z);
      StepThroughField(Field(b, p, o), pos, dt, w.x, w.y);
    }
  }

  /** A balloon starting where the field is defined with no vertical
      component never leaves its starting height. */
  lemma {:induction false} GroundedStaysAtHeight(field: real -> Option<Vec3>, start: Vec3, dt: real, n: nat)
    requires field(start.z).Some? && field(start.z).value.z == 0.0
    ensures Drift(field, start, dt, n).Some? && Drift(field, start, dt, n).value.z == start.z
  {
    if n > 0 {
      GroundedStaysAtHeight(field, start, dt, n - 1);
    }
  }

  /** A flight starting at a computable height where the net lift is not
      positive stays at that height. */
  lemma FlightGroundedStaysAtHeight(b: Balloon, p: Profile, o: Oracle, start: Vec3, dt: real, n: nat)
    requires Flight(b, p, o) && Computable(p, start.z) && NetLift(b, p, o, start.z) <= 0.0
    ensures Drift(Field(b, p, o), start, dt, n).Some? && Drift(Field(b, p, o), start, dt, n).value.z == start.z
  {
    FieldComponents(b, p, o, start.z);
    GroundedStaysAtHeight(Field(b, p, o), start, dt, n);
  }

  /** A field with no horizontal component never moves the balloon sideways. */
  lemma {:induction false} NoWindNoDrift(field: real -> Option<Vec3>, start: Vec3, dt: real, n: nat)
    requires forall z :: field(z).Some? ==> field(z).value.x == 0.0 && field(z).value.y == 0.0
    ensures var r := Drift(field, start, dt, n); r.Some? ==> r.value.x == start.x && r.value.y == start.y
  {
    if n > 0 {
      NoWindNoDrift(field, start, dt, n - 1);
    }
  }

  /** In still air (a zero wind-speed column) the balloon never drifts. */
  lemma StillAirNoDrift(b: Balloon, p: Profile, o: Oracle, start: Vec3, dt: real, n: nat)
    requires Flight(b, p, o)
    requires forall k :: 0 <= k < |p.columns.windSpeed| ==> p.columns.windSpeed[k] == 0.0
    ensures var r := Drift(Field(b, p, o), start, dt, n); r.Some? ==> r.value.x == start.x && r.value.y == start.y
  {
    forall z | Field(b, p, o)(z).Some? ensures Field(b, p, o)(z).value.x == 0.0 && Field(b, p, o)(z).value.y == 0.0 {
      FieldComponents(b, p, o, z);
      ZeroColumnZeroSpeed(p, z);
    }
    NoWindNoDrift(Field(b, p, o), start, dt, n);
  }

  lemma ZeroColumnZeroSpeed(p: Profile, h: real)
    requires WellFormed(p)
    requires forall k :: 0 <= k < |p.columns.windSpeed| ==> p.columns.windSpeed[k] == 0.0
    ensures WindSpeedAt(p, h) == 0.0
  {
    var hs, ws := p.columns.height, p.columns.windSpeed;
    if hs[0] < h < hs[|hs| - 1] {
      Interpolation.BracketFound(hs, h);
    }
  }
}
