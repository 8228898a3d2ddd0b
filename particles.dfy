/** `parse` in parse.py: reading a particle file line by line, keeping the
    coordinates and diameters, the coordinate extrema, the totals of
    diameter and density and the particle count, then the averages and the
    name of the summary file. `float()` and `int()` on a token are the
    parameters `toFloat` and `toInt`, `None` where they raise. */
module Particles {

  import opened Common
  import opened Text

  /** A float bound that may be infinite, as the extrema start at `math.inf`
      and `-math.inf`. */
  datatype ExtReal = NegInf | Finite(r: real) | PosInf

  /** `v > e`. */
  predicate Exceeds(v: real, e: ExtReal)
  {
    match e
    case NegInf => true
    case Finite(r) => v > r
    case PosInf => false
  }

  /** `v < e`. */
  predicate Undercuts(v: real, e: ExtReal)
  {
    match e
    case NegInf => false
    case Finite(r) => v < r
    case PosInf => true
  }

  /** The `extrema` dictionary. */
  datatype Extrema = Extrema(xMin: ExtReal, xMax: ExtReal, yMin: ExtReal, yMax: ExtReal, zMin: ExtReal, zMax: ExtReal)

  const INITIAL_EXTREMA := Extrema(PosInf, NegInf, PosInf, NegInf, PosInf, NegInf)

  /** The values of a line that parsed completely. */
  datatype Sample = Sample(x: real, y: real, z: real, diameter: real, density: real)

  /** How far a line got before a conversion (or an index) failed: nothing
      kept; the position kept (the phase or the diameter failed); the
      position and diameter kept (the density failed); or all of it. */
  datatype Reading =
    | Unreadable
    | Position(x: real, y: real, z: real)
    | Sized(x: real, y: real, z: real, diameter: real)
    | Complete(sample: Sample)

  /** The conversions of one line's tokens, in the order the `try` block
      makes them. A line is complete exactly when it has six tokens, the
      first three and the last two floats and the fourth an integer. */
  function Read(toFloat: string -> Option<real>, toInt: string -> Option<int>, t: seq<string>): (r: Reading)
    ensures r.Complete? <==>
              && |t| >= 6 && toFloat(t[0]).Some? && toFloat(t[1]).Some? && toFloat(t[2]).Some?
              && toInt(t[3]).Some? && toFloat(t[4]).Some? && toFloat(t[5]).Some?
    ensures r.Complete? ==>
              r.sample == Sample(toFloat(t[0]).value, toFloat(t[1]).value, toFloat(t[2]).value,
                                 toFloat(t[4]).value, toFloat(t[5]).value)
    ensures !r.Unreadable? <==>
              |t| >= 3 && toFloat(t[0]).Some? && toFloat(t[1]).Some? && toFloat(t[2]).Some?
    ensures (r.Sized? || r.Complete?) <==>
              && |t| >= 5 && toFloat(t[0]).Some? && toFloat(t[1]).Some? && toFloat(t[2]).Some?
              && toInt(t[3]).Some? && toFloat(t[4]).Some?
    ensures r.Position? ==>
              (r.x, r.y, r.z) == (toFloat(t[0]).value, toFloat(t[1]).value, toFloat(t[2]).value)
    ensures r.Sized? ==>
              (r.x, r.y, r.z, r.diameter) ==
              (toFloat(t[0]).value, toFloat(t[1]).value, toFloat(t[2]).value, toFloat(t[4]).value)
  {
    if |t| < 3 || toFloat(t[0]).None? || toFloat(t[1]).None? || toFloat(t[2]).None? then Unreadable
    else
      var x, y, z := toFloat(t[0]).value, toFloat(t[1]).value, toFloat(t[2]).value;
      if |t| < 4 || toInt(t[3]).None? then Position(x, y, z)
      else if |t| < 5 || toFloat(t[4]).None? then Position(x, y, z)
      else if |t| < 6 || toFloat(t[5]).None? then Sized(x, y, z, toFloat(t[4]).value)
      else Complete(Sample(x, y, z, toFloat(t[4]).value, toFloat(t[5]).value))
  }

  function Readings(toFloat: string -> Option<real>, toInt: string -> Option<int>, lines: seq<string>): (rs: seq<Reading>)
    ensures |rs| == |lines|
    ensures forall i :: 0 <= i < |lines| ==> rs[i] == Read(toFloat, toInt, Tokens(lines[i]))
  {
    if |lines| == 0 then []
    else Readings(toFloat, toInt, lines[..|lines| - 1]) + [Read(toFloat, toInt, Tokens(lines[|lines| - 1]))]
  }

  /** The six independent extremum updates of a complete line, in the
      code's order. The z maximum is set to the line's y, as the code does. */
  function Updated(e: Extrema, s: Sample): Extrema
  {
    ZMinUpdated(ZMaxUpdated(YMinUpdated(YMaxUpdated(XMinUpdated(XMaxUpdated(e, s), s), s), s), s), s)
  }

  function XMaxUpdated(e: Extrema, s: Sample): Extrema
  {
    if Exceeds(s.x, e.xMax) then e.(xMax := Finite(s.x)) else e
  }

  function XMinUpdated(e: Extrema, s: Sample): Extrema
  {
    if Undercuts(s.x, e.xMin) then e.(xMin := Finite(s.x)) else e
  }

  function YMaxUpdated(e: Extrema, s: Sample): Extrema
  {
    if Exceeds(s.y, e.yMax) then e.(yMax := Finite(s.y)) else e
  }

  function YMinUpdated(e: Extrema, s: Sample): Extrema
  {
    if Undercuts(s.y, e.yMin) then e.(yMin := Finite(s.y)) else e
  }

  function ZMaxUpdated(e: Extrema, s: Sample): Extrema
  {
    if Exceeds(s.z, e.zMax) then e.(zMax := Finite(s.y)) else e
  }

  function ZMinUpdated(e: Extrema, s: Sample): Extrema
  {
    if Undercuts(s.z, e.zMin) then e.(zMin := Finite(s.z)) else e
  }

  /** Everything the loop accumulates. */
  datatype Totals = Totals(
    xs: seq<real>, ys: seq<real>, zs: seq<real>, diameters: seq<real>,
    extrema: Extrema, totalDiameter: real, totalDensity: real, count: nat)

  const EMPTY := Totals([], [], [], [], INITIAL_EXTREMA, 0.0, 0.0, 0)

  /** One line's effect on the accumulators. */
  function Step(acc: Totals, r: Reading): Totals
  {
    match r
    case Unreadable => acc
    case Position(x, y, z) => acc.(xs := acc.xs + [x], ys := acc.ys + [y], zs := acc.zs + [z])
    case Sized(x, y, z, d) =>
      acc.(xs := acc.xs + [x], ys := acc.ys + [y], zs := acc.zs + [z], diameters := acc.diameters + [d])
    case Complete(s) =>
      Totals(acc.xs + [s.x], acc.ys + [s.y], acc.zs + [s.z], acc.diameters + [s.diameter],
             Updated(acc.extrema, s), acc.totalDiameter + s.diameter, acc.totalDensity + s.density,
             acc.count + 1)
  }

  /** The accumulators after the lines read as `rs`. */
  function Accumulated(rs: seq<Reading>): Totals
  {
    if |rs| == 0 then EMPTY else Step(Accumulated(rs[..|rs| - 1]), rs[|rs| - 1])
  }

  /** The six extremum updates of a complete line, on the `extrema`
      dictionary. */
  method UpdateExtrema(extrema: Extrema, x: real, y: real, z: real, ghost sample: Sample) returns (e: Extrema)
    requires sample.x == x && sample.y == y && sample.z == z
    ensures e == Updated(extrema, sample)
  {
    e := extrema;
    if Exceeds(x, e.xMax) {
      e := e.(xMax := Finite(x));
    }
    assert e == XMaxUpdated(extrema, sample);
    if Undercuts(x, e.xMin) {
      e := e.(xMin := Finite(x));
    }
    assert e == XMinUpdated(XMaxUpdated(extrema, sample), sample);
    if Exceeds(y, e.yMax) {
      e := e.(yMax := Finite(y));
    }
    assert e == YMaxUpdated(XMinUpdated(XMaxUpdated(extrema, sample), sample), sample);
    if Undercuts(y, e.yMin) {
      e := e.(yMin := Finite(y));
    }
    assert e == YMinUpdated(YMaxUpdated(XMinUpdated(XMaxUpdated(extrema, sample), sample), sample), sample);
    if Exceeds(z, e.zMax) {
      e := e.(zMax := Finite(y));
    }
    assert e == ZMaxUpdated(YMinUpdated(YMaxUpdated(XMinUpdated(XMaxUpdated(extrema, sample), sample), sample), sample), sample);
    if Undercuts(z, e.zMin) {
      e := e.(zMin := Finite(z));
    }
  }

  /** The body of the loop of `parse`: the `try` block on one line's
      tokens, updating the accumulators as far as its conversions get. */
  method AccumulateLine(toFloat: string -> Option<real>, toInt: string -> Option<int>, acc: Totals, line: seq<string>)
    returns (next: Totals)
    ensures next == Step(acc, Read(toFloat, toInt, line))
  {
    next := acc;
    if |line| >= 3 && toFloat(line[0]).Some? && toFloat(line[1]).Some? && toFloat(line[2]).Some? {
      var x, y, z := toFloat(line[0]).value, toFloat(line[1]).value, toFloat(line[2]).value;
      next := next.(xs := next.xs + [x], ys := next.ys + [y], zs := next.zs + [z]);
      if |line| >= 4 && toInt(line[3]).Some? && |line| >= 5 && toFloat(line[4]).Some? {
        var diameter := toFloat(line[4]).value;
        next := next.(diameters := next.diameters + [diameter]);
        if |line| >= 6 && toFloat(line[5]).Some? {
          var density := toFloat(line[5]).value;
          ghost var sample := Sample(x, y, z, diameter, density);
          var extrema := UpdateExtrema(next.extrema, x, y, z, sample);
          next := next.(extrema := extrema,
                        totalDiameter := next.totalDiameter + diameter,
                        totalDensity := next.totalDensity + density,
                        count := next.count + 1);
        }
      }
    }
  }

  /** One more reading extends the accumulation by one step. */
  lemma AccumulatedPrefix(rs: seq<Reading>, i: nat)
    requires i < |rs|
    ensures Accumulated(rs[..i + 1]) == Step(Accumulated(rs[..i]), rs[i])
  {
    assert rs[..i + 1][..i] == rs[..i];
  }

  /** The loop of `parse` over the file's lines, then the two averages
      (`None` for the ZeroDivisionError of a file without a complete line). */
  method Parse(toFloat: string -> Option<real>, toInt: string -> Option<int>, allLines: seq<string>)
    returns (acc: Totals, averages: Option<(real, real)>)
    ensures acc == Accumulated(Readings(toFloat, toInt, allLines))
    ensures averages ==
              if acc.count == 0 then None
              else Some((Average(acc.totalDensity, acc.count), Average(acc.totalDiameter, acc.count)))
  {
    ghost var rs := Readings(toFloat, toInt, allLines);
    acc := EMPTY;
    for i := 0 to |allLines|
      invariant acc == Accumulated(rs[..i])
    {
      AccumulatedPrefix(rs, i);
      var line := Tokens(allLines[i]);
      acc := AccumulateLine(toFloat, toInt, acc, line);
    }
    assert rs[..|allLines|] == rs;
    if acc.count == 0 {
      averages := None;
    } else {
      var avgDensity := Average(acc.totalDensity, acc.count);
      var avgDiameter := Average(acc.totalDiameter, acc.count);
      averages := Some((avgDensity, avgDiameter));
    }
  }

  /** A total divided by a positive count: the value that, counted that
      many times, makes the total. */
  function Average(total: real, count: nat): (a: real)
    requires count > 0
    ensures a * count as real == total
  {
    total / count as real
  }

  /** The complete lines, in file order. */
  function Samples(rs: seq<Reading>): (ss: seq<Sample>)
    ensures |ss| <= |rs|
  {
    if |rs| == 0 then []
    else Samples(rs[..|rs| - 1]) + (if rs[|rs| - 1].Complete? then [rs[|rs| - 1].sample] else [])
  }

  function SumDiameter(ss: seq<Sample>): real
  {
    if |ss| == 0 then 0.0 else SumDiameter(ss[..|ss| - 1]) + ss[|ss| - 1].diameter
  }

  function SumDensity(ss: seq<Sample>): real
  {
    if |ss| == 0 then 0.0 else SumDensity(ss[..|ss| - 1]) + ss[|ss| - 1].density
  }

  /** The coordinate lists stay parallel, no longer diameter list, and the
      count, the totals and the extrema are those of the complete lines. */
  lemma {:induction false} AccumulatedFacts(rs: seq<Reading>)
    ensures var acc := Accumulated(rs);
            && |acc.xs| == |acc.ys| == |acc.zs|
            && |acc.zs| >= |acc.diameters| >= acc.count
            && acc.count == |Samples(rs)|
            && acc.totalDiameter == SumDiameter(Samples(rs))
            && acc.totalDensity == SumDensity(Samples(rs))
            && acc.extrema == ExtremaOf(Samples(rs))
  {
    if |rs| > 0 {
      AccumulatedFacts(rs[..|rs| - 1]);
      var ss := Samples(rs[..|rs| - 1]);
      if rs[|rs| - 1].Complete? {
        var s := rs[|rs| - 1].sample;
        assert Samples(rs) == ss + [s];
        assert (ss + [s])[..|ss|] == ss;
      } else {
        assert Samples(rs) == ss;
      }
    }
  }

  function X(s: Sample): real { s.x }
  function Y(s: Sample): real { s.y }
  function Z(s: Sample): real { s.z }

  /** A running maximum that compares `key` and records `value`. */
  function RunMax(ss: seq<Sample>, key: Sample -> real, value: Sample -> real): ExtReal
  {
    if |ss| == 0 then NegInf
    else
      var m := RunMax(ss[..|ss| - 1], key, value);
      var s := ss[|ss| - 1];
      if Exceeds(key(s), m) then Finite(value(s)) else m
  }

  /** A running minimum that compares `key` and records `value`. */
  function RunMin(ss: seq<Sample>, key: Sample -> real, value: Sample -> real): ExtReal
  {
    if |ss| == 0 then PosInf
    else
      var m := RunMin(ss[..|ss| - 1], key, value);
      var s := ss[|ss| - 1];
      if Undercuts(key(s), m) then Finite(value(s)) else m
  }

  /** The extrema of a sequence of complete lines, field by field; the z
      maximum compares z and records y. */
  function ExtremaOf(ss: seq<Sample>): Extrema
  {
    Extrema(RunMin(ss, X, X), RunMax(ss, X, X), RunMin(ss, Y, Y), RunMax(ss, Y, Y),
            RunMin(ss, Z, Z), RunMax(ss, Z, Y))
  }

  /** A running maximum of one coordinate bounds every element from above
      and is one of them. */
  lemma {:induction false} MaximumMeaning(ss: seq<Sample>, f: Sample -> real)
    ensures |ss| == 0 <==> RunMax(ss, f, f) == NegInf
    ensures forall k :: 0 <= k < |ss| ==> !Exceeds(f(ss[k]), RunMax(ss, f, f))
    ensures |ss| > 0 ==> exists k :: 0 <= k < |ss| && RunMax(ss, f, f) == Finite(f(ss[k]))
  {
    if |ss| > 0 {
      var p := ss[..|ss| - 1];
      MaximumMeaning(p, f);
      assert forall k :: 0 <= k < |p| ==> ss[k] == p[k];
      if |p| > 0 {
        var k :| 0 <= k < |p| && RunMax(p, f, f) == Finite(f(p[k]));
        assert ss[k] == p[k];
      }
    }
  }

  /** A running minimum of one coordinate bounds every element from below
      and is one of them. */
  lemma {:induction false} MinimumMeaning(ss: seq<Sample>, f: Sample -> real)
    ensures |ss| == 0 <==> RunMin(ss, f, f) == PosInf
    ensures forall k :: 0 <= k < |ss| ==> !Undercuts(f(ss[k]), RunMin(ss, f, f))
    ensures |ss| > 0 ==> exists k :: 0 <= k < |ss| && RunMin(ss, f, f) == Finite(f(ss[k]))
  {
    if |ss| > 0 {
      var p := ss[..|ss| - 1];
      MinimumMeaning(p, f);
      assert forall k :: 0 <= k < |p| ==> ss[k] == p[k];
      if |p| > 0 {
        var k :| 0 <= k < |p| && RunMin(p, f, f) == Finite(f(p[k]));
        assert ss[k] == p[k];
      }
    }
  }

  /** Whatever it compares, a running maximum is -inf exactly when there is
      no element, and otherwise the recorded value of one of them. */
  lemma {:induction false} RecordedValue(ss: seq<Sample>, key: Sample -> real, value: Sample -> real)
    ensures |ss| == 0 <==> RunMax(ss, key, value) == NegInf
    ensures |ss| > 0 ==> exists k :: 0 <= k < |ss| && RunMax(ss, key, value) == Finite(value(ss[k]))
  {
    if |ss| > 0 {
      var p := ss[..|ss| - 1];
      RecordedValue(p, key, value);
      if |p| > 0 {
        var k :| 0 <= k < |p| && RunMax(p, key, value) == Finite(value(p[k]));
        assert ss[k] == p[k];
      }
    }
  }

  /** The x, y and z minima and the x and y maxima are the extrema of the
      complete lines; the z maximum is the y of one of them. */
  lemma ExtremaMeaning(rs: seq<Reading>)
    ensures var e, ss := Accumulated(rs).extrema, Samples(rs);
            && (forall k :: 0 <= k < |ss| ==>
                  && !Undercuts(ss[k].x, e.xMin) && !Exceeds(ss[k].x, e.xMax)
                  && !Undercuts(ss[k].y, e.yMin) && !Exceeds(ss[k].y, e.yMax)
                  && !Undercuts(ss[k].z, e.zMin))
            && (|ss| == 0 ==> e == INITIAL_EXTREMA)
            && (|ss| > 0 ==> exists k :: 0 <= k < |ss| && e.xMax == Finite(ss[k].x))
            && (|ss| > 0 ==> exists k :: 0 <= k < |ss| && e.zMax == Finite(ss[k].y))
  {
    var ss := Samples(rs);
    AccumulatedFacts(rs);
    MaximumMeaning(ss, X);
    MinimumMeaning(ss, X);
    MaximumMeaning(ss, Y);
    MinimumMeaning(ss, Y);
    MinimumMeaning(ss, Z);
    RecordedValue(ss, Z, Y);
  }

  /** One complete line with z above y leaves a z maximum that is not its z. */
  lemma ZMaximumIsAY()
    ensures var s := Sample(0.0, 1.0, 2.0, 1.0, 1.0);
            Updated(INITIAL_EXTREMA, s).zMax == Finite(1.0) && Finite(s.z) != Finite(1.0)
  {
  }

  /** The name of the summary file: `'system_properties_' +
      filepath.split('_')[1].split('.')[0] + '.txt'`, `None` for the
      IndexError of a path without '_'. A path has a summary name exactly
      when it contains '_'; the name's middle part has neither '_' nor '.'. */
  function OutputName(filepath: string): (r: Option<string>)
    ensures r.Some? <==> '_' in filepath
    ensures r.Some? ==>
              |Split(filepath, '_')| >= 2 &&
              var middle := Split(Split(filepath, '_')[1], '.')[0];
              && r.value == "system_properties_" + middle + ".txt"
              && '_' !in middle && '.' !in middle
  {
    var parts := Split(filepath, '_');
    SplitCount(filepath, '_');
    if |parts| < 2 then None
    else
      var piece := parts[1];
      SplitPiecesOf(piece, '.');
      assert '_' !in piece;
      var middle := Split(piece, '.')[0];
      assert forall j :: 0 <= j < |middle| ==> middle[j] in piece;
      Some("system_properties_" + middle + ".txt")
  }

  /** Splitting gives more than one piece exactly when `sep` occurs. */
  lemma {:induction false} SplitCount(s: string, sep: char)
    ensures |Split(s, sep)| >= 2 <==> sep in s
    decreases |s|
  {
    if |s| > 0 {
      SplitCount(s[1..], sep);
      assert sep in s <==> s[0] == sep || sep in s[1..];
    }
  }

  /** A string without `sep` is one piece. */
  lemma {:induction false} SplitNoSeparator(s: string, sep: char)
    requires sep !in s
    ensures Split(s, sep) == [s]
    decreases |s|
  {
    if |s| > 0 {
      SplitNoSeparator(s[1..], sep);
      assert [s[0]] + s[1..] == s;
    }
  }

  /** A first occurrence of `sep` ends the first piece. */
  lemma {:induction false} SplitAt(a: string, b: string, sep: char)
    requires sep !in a
    ensures Split(a + [sep] + b, sep) == [a] + Split(b, sep)
    decreases |a|
  {
    var s := a + [sep] + b;
    if |a| == 0 {
      assert s == [sep] + b && s[1..] == b;
    } else {
      assert s[1..] == a[1..] + [sep] + b;
      SplitAt(a[1..], b, sep);
      assert [a[0]] + a[1..] == a;
    }
  }

  /** A path `<prefix>_<middle>.<ext>` whose parts have no '_' (and whose
      middle has no '.') is summarised as `system_properties_<middle>.txt`. */
  lemma OutputNameOfParts(prefix: string, middle: string, ext: string)
    requires '_' !in prefix && '_' !in middle && '.' !in middle && '_' !in ext
    ensures OutputName(prefix + ['_'] + middle + ['.'] + ext) == Some("system_properties_" + middle + ".txt")
  {
    var rest := middle + ['.'] + ext;
    assert prefix + ['_'] + middle + ['.'] + ext == prefix + ['_'] + rest;
    assert '_' !in rest by {
      assert forall i :: 0 <= i < |rest| ==> rest[i] in middle || rest[i] == '.' || rest[i] in ext;
    }
    SplitAt(prefix, rest, '_');
    SplitNoSeparator(rest, '_');
    SplitAt(middle, ext, '.');
  }

  /** The summary file of './particle_input.dat'. */
  lemma InputSummaryName()
    ensures OutputName("./particle_input.dat") == Some("system_properties_input.txt")
  {
    OutputNameOfParts("./particle", "input", "dat");
    assert "./particle" + ['_'] + "input" + ['.'] + "dat" == "./particle_input.dat";
    assert "system_properties_" + "input" + ".txt" == "system_properties_input.txt";
  }
}
