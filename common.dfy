/** Shared vocabulary: optional values, results, and the transcendental
    functions the physics relies on, given as parameters. */
module Common {

  datatype Option<+T> = None | Some(value: T)

  datatype Result<+T, +E> = Ok(value: T) | Err(error: E)

  /** The numerical library the scripts call (numpy/math): exp, sin, cos and
      sqrt are not modelled; a model run is parameterised by them. */
  datatype Oracle = Oracle(exp: real -> real, sin: real -> real, cos: real -> real, sqrt: real -> real)

  /** The only facts about the library that the model relies on: exp is
      positive and strictly increasing, and sqrt of a non-negative number is
      its non-negative root. */
  ghost predicate Sound(o: Oracle)
  {
    && (forall x :: o.exp(x) > 0.0)
    && (forall x, y :: x < y ==> o.exp(x) < o.exp(y))
    && (forall x :: x >= 0.0 ==> o.sqrt(x) >= 0.0 && o.sqrt(x) * o.sqrt(x) == x)
  }

  /** np.pi and math.pi, the double closest to pi. */
  const PI: real := 3.141592653589793

  /** A three-component vector, as the scripts build with numpy arrays. */
  datatype Vec3 = Vec3(x: real, y: real, z: real)
  {
    function Plus(v: Vec3): Vec3 { Vec3(x + v.x, y + v.y, z + v.z) }
    function Minus(v: Vec3): Vec3 { Vec3(x - v.x, y - v.y, z - v.z) }
    function Times(c: real): Vec3 { Vec3(c * x, c * y, c * z) }
    /** Component-wise division, as numpy divides an array by a number. */
    function Over(d: real): Vec3
      requires d != 0.0
    {
      Vec3(x / d, y / d, z / d)
    }
    /** The sum of the squared components. */
    function SumOfSquares(): real { x * x + y * y + z * z }
  }

  function Min(a: real, b: real): real { if a <= b then a else b }
  function Max(a: real, b: real): real { if a <= b then b else a }

  lemma SqrtPositive(o: Oracle, x: real)
    requires Sound(o) && x > 0.0
    ensures o.sqrt(x) > 0.0
  {
    assert o.sqrt(x) >= 0.0 && o.sqrt(x) * o.sqrt(x) == x;
  }
}
