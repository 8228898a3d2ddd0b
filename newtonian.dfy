/** The force-based trajectory of balloon.py: twenty one-second steps in
    which drag, buoyancy and weight are summed into an acceleration that
    moves the balloon. */
module Newtonian {

  import opened Common
  import opened Profile
  import opened Gas
  import opened Advection

  /** balloon.py runs twenty iterations of one second. */
  const ITERATIONS: nat := 20
  const STEP: real := 1.0

  /** Position and velocity of the balloon. */
  datatype Motion = Motion(position: Vec3, velocity: Vec3)

  /** What one iteration does: it moves the balloon; or, at a height where
      the formulas are not computable or when the balloon is at rest relative
      to the air, it meets a division by zero and every later number is NaN;
      or, under negative net lift, the square root of the terminal-velocity
      formula raises a math domain error. */
  datatype StepOutcome = Moved(next: Motion) | NotANumber | DomainError

  /** The state of a run: a finite motion, NaN everywhere, or stopped by the
      exception, which leaves the balloon at the last motion it tracked. */
  datatype Phase = Tracking(motion: Motion) | Undefined | Halted(at: Motion)

  /** A line of the trajectory file: the `x y z` header, a position, or a
      position whose coordinates are not finite (NaN, or infinite at the
      step that divided by a zero temperature). */
  datatype Line = Header | Point(position: Vec3) | NaNPoint

  function MotionOf(b: Balloon): Motion
    reads b
  {
    Motion(Vec3(b.x, b.y, b.z), Vec3(b.vx, b.vy, b.vz))
  }

  /** The total mass the net force accelerates. */
  function TotalMass(b: Balloon): (m: real)
    ensures b.Physical() ==> m > 0.0
  {
    b.massHelium + b.massBalloon + b.massPayload
  }

  /** The balloon's velocity relative to the wind at its height: added to
      the wind it gives back the balloon's velocity, and it keeps the
      vertical component, since the wind is horizontal. */
  function RelativeVelocity(p: Profile, o: Oracle, m: Motion): (r: Vec3)
    requires WellFormed(p)
    ensures r.Plus(WindVelocity(p, o, m.position.z)) == m.velocity
    ensures r.z == m.velocity.z
  {
    m.velocity.Minus(WindVelocity(p, o, m.position.z))
  }

  /** The drag vector: the drag magnitude times the relative velocity,
      divided by the relative speed (over the reals the order of the product
      and the division does not matter). Its length is the drag magnitude. */
  function DragVector(b: Balloon, p: Profile, o: Oracle, h: real, rel: Vec3): (d: Vec3)
    requires Flight(b, p, o) && Computable(p, h) && rel.SumOfSquares() > 0.0
    ensures d.SumOfSquares() == DragForce(b, p, o, h, rel.SumOfSquares()) * DragForce(b, p, o, h, rel.SumOfSquares())
  {
    var v2 := rel.SumOfSquares();
    SqrtPositive(o, v2);
    assert o.sqrt(v2) * o.sqrt(v2) == v2;
    UnitLength(rel, DragForce(b, p, o, h, v2), o.sqrt(v2));
    rel.Times(DragForce(b, p, o, h, v2) / o.sqrt(v2))
  }

  /** Drag plus the buoyant force upwards plus the weight downwards:
      horizontally only drag acts, vertically drag plus the net lift. */
  function NetForce(b: Balloon, p: Profile, o: Oracle, m: Motion): (f: Vec3)
    requires Flight(b, p, o) && Computable(p, m.position.z) && RelativeVelocity(p, o, m).SumOfSquares() > 0.0
    ensures var d := DragVector(b, p, o, m.position.z, RelativeVelocity(p, o, m));
            f.x == d.x && f.y == d.y && f.z == d.z + NetLift(b, p, o, m.position.z)
  {
    var h := m.position.z;
    DragVector(b, p, o, h, RelativeVelocity(p, o, m))
      .Plus(Vec3(0.0, 0.0, 1.0).Times(BouyantForce(b, p, o, h)))
      .Plus(Vec3(0.0, 0.0, -1.0).Times(GravitationalForce(b)))
  }

  /** One iteration of `plot_trajectory` in balloon.py. At a height where
      the formulas are not computable the buoyant force is NaN, and
      `math.sqrt` of NaN does not raise. Elsewhere the exception is raised at
      the square root whatever the drag computed before it; the position
      advances by `v dt + a dt^2 / 2` and the velocity is replaced by `a dt`.
      The iteration raises exactly under negative net lift, and turns to NaN
      exactly at a height that is not computable or, with the lift not
      negative, when the balloon moves with the air. */
  function NewtonStep(b: Balloon, p: Profile, o: Oracle, m: Motion): (r: StepOutcome)
    requires Flight(b, p, o)
    ensures r.DomainError? <==> Computable(p, m.position.z) && NetLift(b, p, o, m.position.z) < 0.0
    ensures r.NotANumber? <==>
              !Computable(p, m.position.z) ||
              (NetLift(b, p, o, m.position.z) >= 0.0 && RelativeVelocity(p, o, m).SumOfSquares() == 0.0)
  {
    if !Computable(p, m.position.z) then NotANumber
    else if NetLift(b, p, o, m.position.z) < 0.0 then DomainError
    else if RelativeVelocity(p, o, m).SumOfSquares() == 0.0 then NotANumber
    else
      var a := NetForce(b, p, o, m).Over(TotalMass(b));
      Moved(Motion(m.position.Plus(m.velocity.Times(STEP)).Plus(a.Times(0.5 * (STEP * STEP))), a.Times(STEP)))
  }

  /** The step of a flight, as a function of the motion. */
  ghost function Dynamics(b: Balloon, p: Profile, o: Oracle): Motion -> StepOutcome
    requires Flight(b, p, o)
  {
    m => NewtonStep(b, p, o, m)
  }

  function Next(step: Motion -> StepOutcome, ph: Phase): Phase
  {
    match ph
    case Tracking(m) =>
      (match step(m)
       case Moved(m') => Tracking(m')
       case NotANumber => Undefined
       case DomainError => Halted(m))
    case Undefined => Undefined
    case Halted(m) => Halted(m)
  }

  /** The phase after `n` iterations. */
  function Evolve(step: Motion -> StepOutcome, start: Motion, n: nat): Phase
  {
    if n == 0 then Tracking(start) else Next(step, Evolve(step, start, n - 1))
  }

  /** The line an iteration ending in phase `ph` writes. */
  function LineFor(ph: Phase): seq<Line>
  {
    match ph
    case Tracking(m) => [Point(m.position)]
    case Undefined => [NaNPoint]
    case Halted(_) => []
  }

  /** The trajectory file after `n` iterations: header, start position, then a
      line per iteration that completed. */
  function Record(step: Motion -> StepOutcome, start: Motion, n: nat): seq<Line>
  {
    if n == 0 then [Header, Point(start.position)]
    else Record(step, start, n - 1) + LineFor(Evolve(step, start, n))
  }

  /** Once the exception is raised nothing more happens: the phase stays
      the same halt and the file does not grow. */
  lemma {:induction false} HaltedIsFinal(step: Motion -> StepOutcome, start: Motion, i: nat, j: nat)
    requires i <= j && Evolve(step, start, i).Halted?
    ensures Evolve(step, start, j) == Evolve(step, start, i) && Record(step, start, j) == Record(step, start, i)
    decreases j - i
  {
    if i < j {
      HaltedIsFinal(step, start, i, j - 1);
    }
  }

  /** Once NaN, always NaN. */
  lemma {:induction false} UndefinedIsFinal(step: Motion -> StepOutcome, start: Motion, i: nat, j: nat)
    requires i <= j && Evolve(step, start, i).Undefined?
    ensures Evolve(step, start, j).Undefined?
    decreases j - i
  {
    if i < j {
      UndefinedIsFinal(step, start, i, j - 1);
    }
  }

  /** A run that has not raised has written the header, the start and one
      line per iteration. */
  lemma {:induction false} RecordLength(step: Motion -> StepOutcome, start: Motion, n: nat)
    requires !Evolve(step, start, n).Halted?
    ensures |Record(step, start, n)| == n + 2
    ensures Record(step, start, n)[0] == Header && Record(step, start, n)[1] == Point(start.position)
  {
    if n > 0 {
      RecordLength(step, start, n - 1);
    }
  }

  /** The file only grows. */
  lemma {:induction false} RecordGrows(step: Motion -> StepOutcome, start: Motion, i: nat, j: nat)
    requires i <= j
    ensures Record(step, start, i) <= Record(step, start, j)
    decreases j - i
  {
    if i < j {
      RecordGrows(step, start, i, j - 1);
    }
  }

  /** NaN propagates: after the first NaN iteration every iteration writes a
      NaN line. */
  lemma {:induction false} UndefinedLines(step: Motion -> StepOutcome, start: Motion, i: nat, j: nat)
    requires i <= j && Evolve(step, start, i).Undefined?
    ensures Record(step, start, j) == Record(step, start, i) + seq(j - i, _ => NaNPoint)
    decreases j - i
  {
    if i < j {
      UndefinedLines(step, start, i, j - 1);
      UndefinedIsFinal(step, start, i, j);
      assert seq(j - i, _ => NaNPoint) == seq(j - 1 - i, _ => NaNPoint) + [NaNPoint];
    }
  }

  /** The body of the loop in balloon.py, in its order: wind, relative
      velocity, drag (NaN at zero relative speed), buoyancy, weight, the
      terminal-velocity square root that raises under negative lift, then the
      net force, the acceleration and the new position and velocity. At a
      height that is not computable every force is NaN from the air density
      on, so the iteration's outcome is known before any of them. */
  method Iterate(tracer: Balloon, p: Profile, o: Oracle) returns (outcome: StepOutcome)
    requires Flight(tracer, p, o)
    ensures outcome == NewtonStep(tracer, p, o, MotionOf(tracer))
  {
    var m := MotionOf(tracer);
    if !Computable(p, tracer.z) {
      return NotANumber;
    }
    var wind := PredictWindVelocity(p, o, tracer.z);
    var rel := Vec3(tracer.vx, tracer.vy, tracer.vz).Minus(wind);
    var velocitySquared := rel.SumOfSquares();
    var drag := DragForce(tracer, p, o, tracer.z, velocitySquared);
    var nan := velocitySquared == 0.0;
    var dragVector := Vec3(0.0, 0.0, 0.0);
    if !nan {
      SqrtPositive(o, velocitySquared);
      dragVector := rel.Times(drag / o.sqrt(velocitySquared));
    }
    var bouyant := BouyantForce(tracer, p, o, tracer.z);
    var gravitational := GravitationalForce(tracer);
    DragArea(tracer);
    var ratio := (bouyant - gravitational) / (tracer.dragCoefficient * tracer.crossSectionalArea);
    QuotientNegative(bouyant - gravitational, tracer.dragCoefficient * tracer.crossSectionalArea);
    if ratio < 0.0 {
      return DomainError;
    }
    if nan {
      return NotANumber;
    }
    var netForce := dragVector.Plus(Vec3(0.0, 0.0, 1.0).Times(bouyant)).Plus(Vec3(0.0, 0.0, -1.0).Times(gravitational));
    var acceleration := netForce.Over(tracer.massHelium + tracer.massBalloon + tracer.massPayload);
    var position := m.position.Plus(m.velocity.Times(STEP)).Plus(acceleration.Times(0.5 * (STEP * STEP)));
    outcome := Moved(Motion(position, acceleration.Times(STEP)));
  }

  lemma QuotientNegative(a: real, d: real)
    requires d > 0.0
    ensures a / d < 0.0 <==> a < 0.0
  {
  }

  /** One iteration of the loop of `plot_trajectory` in balloon.py: after a
      NaN only a NaN line is written; otherwise the step is computed, and a
      finite result becomes the tracer's new position and velocity and is
      written. */
  method Advance(tracer: Balloon, p: Profile, o: Oracle, phase: Phase, ghost step: Motion -> StepOutcome)
    returns (next: Phase, written: seq<Line>)
    requires Flight(tracer, p, o) && step == Dynamics(tracer, p, o)
    requires phase.Tracking? ==> MotionOf(tracer) == phase.motion
    modifies tracer
    ensures next == Next(step, phase) && written == LineFor(next)
    ensures next.Tracking? ==> MotionOf(tracer) == next.motion
    ensures next.Halted? && phase.Tracking? ==> MotionOf(tracer) == next.at
  {
    if !phase.Tracking? {
      next := phase;
      written := LineFor(phase);
    } else {
      var outcome := Iterate(tracer, p, o);
      assert outcome == step(phase.motion);
      match outcome
      case DomainError =>
        next := Halted(phase.motion);
        written := [];
      case NotANumber =>
        next := Undefined;
        written := [NaNPoint];
      case Moved(m) =>
        tracer.x, tracer.y, tracer.z := m.position.x, m.position.y, m.position.z;
        tracer.vx, tracer.vy, tracer.vz := m.velocity.x, m.velocity.y, m.velocity.z;
        next := Tracking(m);
        written := [Point(Vec3(tracer.x, tracer.y, tracer.z))];
    }
  }

  /** `plot_trajectory` of balloon.py: the header and the start position,
      then up to twenty iterations, each writing the new position. A domain
      error ends the run; after a NaN every line is NaN. */
  method PlotNewtonianTrajectory(tracer: Balloon, p: Profile, o: Oracle) returns (lines: seq<Line>, raised: bool)
    requires Flight(tracer, p, o)
    modifies tracer
    ensures lines == Record(Dynamics(tracer, p, o), old(MotionOf(tracer)), ITERATIONS)
    ensures raised <==> Evolve(Dynamics(tracer, p, o), old(MotionOf(tracer)), ITERATIONS).Halted?
    ensures Evolve(Dynamics(tracer, p, o), old(MotionOf(tracer)), ITERATIONS).Tracking? ==>
              MotionOf(tracer) == Evolve(Dynamics(tracer, p, o), old(MotionOf(tracer)), ITERATIONS).motion
    ensures Evolve(Dynamics(tracer, p, o), old(MotionOf(tracer)), ITERATIONS).Halted? ==>
              MotionOf(tracer) == Evolve(Dynamics(tracer, p, o), old(MotionOf(tracer)), ITERATIONS).at
  {
    ghost var start := MotionOf(tracer);
    ghost var step := Dynamics(tracer, p, o);
    lines := [Header, Point(Vec3(tracer.x, tracer.y, tracer.z))];
    var phase := Tracking(MotionOf(tracer));
    var i := 0;
    while i < ITERATIONS && !phase.Halted?
      invariant i <= ITERATIONS
      invariant phase == Evolve(step, start, i)
      invariant phase.Tracking? ==> MotionOf(tracer) == phase.motion
      invariant phase.Halted? ==> MotionOf(tracer) == phase.at
      invariant lines == Record(step, start, i)
    {
      var next, written := Advance(tracer, p, o, phase, step);
      assert Evolve(step, start, i + 1) == next;
      phase := next;
      lines := lines + written;
      i := i + 1;
    }
    if phase.Halted? {
      HaltedIsFinal(step, start, i, ITERATIONS);
    }
    raised := phase.Halted?;
  }

  /** A completed run writes the header, the start and twenty positions. */
  lemma CompletedRunLineCount(step: Motion -> StepOutcome, start: Motion)
    requires !Evolve(step, start, ITERATIONS).Halted?
    ensures |Record(step, start, ITERATIONS)| == 22
  {
    RecordLength(step, start, ITERATIONS);
  }

  /** The drag vector has the drag as its magnitude and points along the
      velocity relative to the air, component by component: as written it
      pushes the balloon further away from the air's motion rather than
      towards it. */
  lemma DragAlongRelativeVelocity(b: Balloon, p: Profile, o: Oracle, h: real, rel: Vec3)
    requires Flight(b, p, o) && DefinedAt(p, h) && rel.SumOfSquares() > 0.0
    ensures Computable(p, h)
    ensures var d := DragVector(b, p, o, h, rel);
            var drag := DragForce(b, p, o, h, rel.SumOfSquares());
            && d.x * rel.x >= 0.0 && d.y * rel.y >= 0.0 && d.z * rel.z >= 0.0
            && d.x * rel.x + d.y * rel.y + d.z * rel.z == drag * o.sqrt(rel.SumOfSquares())
  {
    DefinedIsComputable(p, h);
    var v2 := rel.SumOfSquares();
    var drag := DragForce(b, p, o, h, v2);
    var s := o.sqrt(v2);
    assert drag >= 0.0 by { DragSign(b, p, o, h, v2); }
    assert s > 0.0 && s * s == v2 by { SqrtPositive(o, v2); }
    UnitDot(rel, drag, s);
    UnitAlong(rel, drag, s);
  }

  /** `(c / s) v`, where `s` is the length of `v`, has length `c`. */
  lemma UnitLength(v: Vec3, c: real, s: real)
    requires s > 0.0 && s * s == v.SumOfSquares()
    ensures v.Times(c / s).SumOfSquares() == c * c
  {
    var k := c / s;
    var q := v.SumOfSquares();
    assert k * k * q == c * c by { RatioTimes(c, s, q, k); }
    assert v.Times(k).SumOfSquares() == k * k * q by { ScaledSquares(v, k); }
  }

  /** The product of `(c / s) v` with `v` is `c s`. */
  lemma UnitDot(v: Vec3, c: real, s: real)
    requires s > 0.0 && s * s == v.SumOfSquares()
    ensures var d := v.Times(c / s); d.x * v.x + d.y * v.y + d.z * v.z == c * s
  {
    var k := c / s;
    var q := v.SumOfSquares();
    assert k * q == c * s by { RatioTimes(c, s, q, k); }
    assert var d := v.Times(k); d.x * v.x + d.y * v.y + d.z * v.z == k * q by { ScaledSquares(v, k); }
  }

  /** For `c >= 0` and `s > 0`, `(c / s) v` points along `v` component by
      component. */
  lemma UnitAlong(v: Vec3, c: real, s: real)
    requires c >= 0.0 && s > 0.0
    ensures var d := v.Times(c / s); d.x * v.x >= 0.0 && d.y * v.y >= 0.0 && d.z * v.z >= 0.0
  {
    var k := c / s;
    ScaledSquares(v, k);
    MulNonnegative(k, v.x * v.x);
    MulNonnegative(k, v.y * v.y);
    MulNonnegative(k, v.z * v.z);
  }

  /** Scaling by `k`: the squares scale by `k^2`, the products with the
      original components by `k`. */
  lemma ScaledSquares(v: Vec3, k: real)
    ensures var d := v.Times(k);
            && d.SumOfSquares() == k * k * v.SumOfSquares()
            && d.x * v.x == k * (v.x * v.x) && d.y * v.y == k * (v.y * v.y) && d.z * v.z == k * (v.z * v.z)
            && d.x * v.x + d.y * v.y + d.z * v.z == k * v.SumOfSquares()
  {
  }

  lemma RatioTimes(c: real, s: real, q: real, k: real)
    requires s > 0.0 && q == s * s && k == c / s
    ensures k * k * q == c * c && k * q == c * s
    ensures c >= 0.0 ==> k >= 0.0
  {
    assert k * s == c;
    assert k * k * q == (k * s) * (k * s);
  }

  /** Newton's second law per iteration: the new velocity (one second of the
      acceleration) times the total mass is the net force; and the position
      advances by the old velocity plus half the new one. */
  lemma {:induction false} SecondLaw(b: Balloon, p: Profile, o: Oracle, m: Motion)
    requires Flight(b, p, o) && NewtonStep(b, p, o, m).Moved?
    ensures var n := NewtonStep(b, p, o, m).next;
            && n.velocity.Times(TotalMass(b)) == NetForce(b, p, o, m)
            && n.position == m.position.Plus(m.velocity).Plus(n.velocity.Times(0.5))
  {
    var f := NetForce(b, p, o, m);
    var a := f.Over(TotalMass(b));
    assert a.Times(STEP) == a;
    OverTimes(f, TotalMass(b));
  }

  lemma OverTimes(v: Vec3, d: real)
    requires d != 0.0
    ensures v.Over(d).Times(d) == v
  {
    assert d * (v.x / d) == v.x && d * (v.y / d) == v.y && d * (v.z / d) == v.z;
  }

  /** A run whose first iteration raises writes the header and the start
      position only. */
  lemma HaltsAtFirstStep(step: Motion -> StepOutcome, start: Motion, n: nat)
    requires step(start).DomainError? && n >= 1
    ensures Evolve(step, start, n).Halted?
    ensures Record(step, start, n) == [Header, Point(start.position)]
  {
    assert Evolve(step, start, 1).Halted?;
    HaltedIsFinal(step, start, 1, n);
  }

  /** A run whose first iteration is NaN writes NaN lines from then on. */
  lemma NaNAtFirstStep(step: Motion -> StepOutcome, start: Motion, n: nat)
    requires step(start).NotANumber? && n >= 1
    ensures Evolve(step, start, n).Undefined?
    ensures Record(step, start, n) == [Header, Point(start.position)] + seq(n, _ => NaNPoint)
  {
    assert Evolve(step, start, 1).Undefined?;
    UndefinedIsFinal(step, start, 1, n);
    UndefinedLines(step, start, 1, n);
    assert seq(n, _ => NaNPoint) == [NaNPoint] + seq(n - 1, _ => NaNPoint);
  }

  /** A balloon launched under negative net lift raises at the first
      iteration: the file holds the header and the start position only. */
  lemma NegativeLiftAtLaunch(b: Balloon, p: Profile, o: Oracle, start: Motion, n: nat)
    requires Flight(b, p, o) && Computable(p, start.position.z) && NetLift(b, p, o, start.position.z) < 0.0 && n >= 1
    ensures Evolve(Dynamics(b, p, o), start, n).Halted?
    ensures Record(Dynamics(b, p, o), start, n) == [Header, Point(start.position)]
  {
    HaltsAtFirstStep(Dynamics(b, p, o), start, n);
  }

  /** A balloon launched at a height where the formulas are not computable
      turns to NaN at the first iteration, and every later line is NaN. */
  lemma SingularLaunch(b: Balloon, p: Profile, o: Oracle, start: Motion, n: nat)
    requires Flight(b, p, o) && !Computable(p, start.position.z) && n >= 1
    ensures Evolve(Dynamics(b, p, o), start, n).Undefined?
    ensures Record(Dynamics(b, p, o), start, n) == [Header, Point(start.position)] + seq(n, _ => NaNPoint)
  {
    NaNAtFirstStep(Dynamics(b, p, o), start, n);
  }

  /** In still air a balloon at rest that does not raise at its start turns
      to NaN at the first iteration, and every later line is NaN. */
  lemma StillAirAtRest(b: Balloon, p: Profile, o: Oracle, start: Motion, n: nat)
    requires Flight(b, p, o)
    requires forall k :: 0 <= k < |p.columns.windSpeed| ==> p.columns.windSpeed[k] == 0.0
    requires start.velocity == Vec3(0.0, 0.0, 0.0) && n >= 1
    requires Computable(p, start.position.z) ==> NetLift(b, p, o, start.position.z) >= 0.0
    ensures Evolve(Dynamics(b, p, o), start, n).Undefined?
    ensures Record(Dynamics(b, p, o), start, n) == [Header, Point(start.position)] + seq(n, _ => NaNPoint)
  {
    AtRestInStillAir(p, o, start);
    NaNAtFirstStep(Dynamics(b, p, o), start, n);
  }

  lemma AtRestInStillAir(p: Profile, o: Oracle, m: Motion)
    requires WellFormed(p)
    requires forall k :: 0 <= k < |p.columns.windSpeed| ==> p.columns.windSpeed[k] == 0.0
    requires m.velocity == Vec3(0.0, 0.0, 0.0)
    ensures RelativeVelocity(p, o, m).SumOfSquares() == 0.0
  {
    ZeroColumnZeroSpeed(p, m.position.z);
    var w := WindVelocity(p, o, m.position.z);
    assert w == Vec3(0.0, 0.0, 0.0);
    assert RelativeVelocity(p, o, m) == Vec3(0.0, 0.0, 0.0);
  }
}
