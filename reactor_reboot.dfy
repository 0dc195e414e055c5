/**
 * The reactor reboot steps of 22.py: cuboids of cubes switched on or off, their
 * sizes and overlaps, the `x=L..R` ranges they are read from, and the count that
 * adds up the sizes of the distinct "on" steps and subtracts those of the "off"
 * steps.
 */
module ReactorReboot {
  import opened Wrappers
  import opened Numbers
  import PyText
  import Counters

  /** The Python exceptions reading a range can raise. */
  datatype Failure = IndexError | ValueError

  /** One reboot step: switch the cubes of the cuboid on or off. */
  datatype Cuboid = Cuboid(on: bool, minX: int, maxX: int, minY: int, maxY: int, minZ: int, maxZ: int)

  type Point = (int, int, int)

  /** Each minimum is at most its maximum. */
  predicate WellFormed(c: Cuboid)
  {
    c.minX <= c.maxX && c.minY <= c.maxY && c.minZ <= c.maxZ
  }

  /** The cubes of a cuboid. */
  ghost function Points(c: Cuboid): set<Point>
  {
    set x, y, z | c.minX <= x <= c.maxX && c.minY <= y <= c.maxY && c.minZ <= z <= c.maxZ :: (x, y, z)
  }

  // ---------------------------------------------------------------------------
  // cube_count
  // ---------------------------------------------------------------------------

  /** `Cuboid.cube_count`: the product of the three edge lengths, counting both ends. */
  function CubeCount(c: Cuboid): (n: int)
    ensures WellFormed(c) ==> n > 0
  {
    (c.maxX - c.minX + 1) * (c.maxY - c.minY + 1) * (c.maxZ - c.minZ + 1)
  }

  /** The cubes `(x, y, z)` for `z` from `lo` to `hi`. */
  ghost function Line(x: int, y: int, lo: int, hi: int): set<Point>
  {
    set z | lo <= z <= hi :: (x, y, z)
  }

  /** The cubes `(x, y, z)` for `y` from `ylo` to `yhi` and `z` from `zlo` to `zhi`. */
  ghost function Rect(x: int, ylo: int, yhi: int, zlo: int, zhi: int): set<Point>
  {
    set y, z | ylo <= y <= yhi && zlo <= z <= zhi :: (x, y, z)
  }

  lemma {:induction false} LineSize(x: int, y: int, lo: int, hi: int)
    requires lo <= hi + 1
    ensures |Line(x, y, lo, hi)| == hi - lo + 1
    decreases hi - lo
  {
    if lo <= hi {
      LineSize(x, y, lo, hi - 1);
      assert Line(x, y, lo, hi) == Line(x, y, lo, hi - 1) + {(x, y, hi)};
    } else {
      assert Line(x, y, lo, hi) == {};
    }
  }

  lemma {:induction false} RectSize(x: int, ylo: int, yhi: int, zlo: int, zhi: int)
    requires ylo <= yhi + 1 && zlo <= zhi + 1
    ensures |Rect(x, ylo, yhi, zlo, zhi)| == (yhi - ylo + 1) * (zhi - zlo + 1)
    decreases yhi - ylo
  {
    if ylo <= yhi {
      var before := Rect(x, ylo, yhi - 1, zlo, zhi);
      var line := Line(x, yhi, zlo, zhi);
      RectSize(x, ylo, yhi - 1, zlo, zhi);
      LineSize(x, yhi, zlo, zhi);
      assert Rect(x, ylo, yhi, zlo, zhi) == before + line;
      assert before * line == {};
      assert (yhi - ylo + 1) * (zhi - zlo + 1) == (yhi - 1 - ylo + 1) * (zhi - zlo + 1) + (zhi - zlo + 1);
    } else {
      assert Rect(x, ylo, yhi, zlo, zhi) == {};
    }
  }

  /** The cubes of `c` whose `x` is at most `xhi`. */
  ghost function Slab(c: Cuboid, xhi: int): set<Point>
  {
    set x, y, z | c.minX <= x <= xhi && c.minY <= y <= c.maxY && c.minZ <= z <= c.maxZ :: (x, y, z)
  }

  lemma {:induction false} SlabSize(c: Cuboid, xhi: int)
    requires c.minX <= xhi + 1 && c.minY <= c.maxY + 1 && c.minZ <= c.maxZ + 1
    ensures |Slab(c, xhi)| == (xhi - c.minX + 1) * ((c.maxY - c.minY + 1) * (c.maxZ - c.minZ + 1))
    decreases xhi - c.minX
  {
    if c.minX <= xhi {
      var before := Slab(c, xhi - 1);
      var rect := Rect(xhi, c.minY, c.maxY, c.minZ, c.maxZ);
      SlabSize(c, xhi - 1);
      RectSize(xhi, c.minY, c.maxY, c.minZ, c.maxZ);
      assert Slab(c, xhi) == before + rect;
      assert before * rect == {};
      var area := (c.maxY - c.minY + 1) * (c.maxZ - c.minZ + 1);
      assert (xhi - c.minX + 1) * area == (xhi - 1 - c.minX + 1) * area + area;
    } else {
      assert Slab(c, xhi) == {};
    }
  }

  /** A well-formed cuboid has exactly `cube_count` cubes. */
  lemma CubeCountPoints(c: Cuboid)
    requires WellFormed(c)
    ensures CubeCount(c) == |Points(c)|
  {
    SlabSize(c, c.maxX);
    assert Slab(c, c.maxX) == Points(c);
  }

  // ---------------------------------------------------------------------------
  // Overlaps
  // ---------------------------------------------------------------------------

  /**
   * `points_overlap`: an end of either interval lies within the other. On intervals
   * whose minimum is at most their maximum, that is each starting no later than the
   * other ends.
   */
  predicate PointsOverlap(firstMin: int, firstMax: int, secondMin: int, secondMax: int): (r: bool)
    ensures firstMin <= firstMax && secondMin <= secondMax ==> (r <==> firstMin <= secondMax && secondMin <= firstMax)
  {
    || firstMin <= secondMin <= firstMax
    || firstMin <= secondMax <= firstMax
    || secondMin <= firstMin <= secondMax
    || secondMin <= firstMax <= secondMax
  }

  lemma PointsOverlapSymmetric(firstMin: int, firstMax: int, secondMin: int, secondMax: int)
    ensures PointsOverlap(firstMin, firstMax, secondMin, secondMax) == PointsOverlap(secondMin, secondMax, firstMin, firstMax)
  {
  }

  /**
   * On intervals whose minimum is at most their maximum, overlapping is
   * `first_min <= second_max` and `second_min <= first_max`, which is having a
   * point in common.
   */
  lemma PointsOverlapIntervals(firstMin: int, firstMax: int, secondMin: int, secondMax: int)
    requires firstMin <= firstMax && secondMin <= secondMax
    ensures PointsOverlap(firstMin, firstMax, secondMin, secondMax) <==> firstMin <= secondMax && secondMin <= firstMax
    ensures PointsOverlap(firstMin, firstMax, secondMin, secondMax)
        <==> exists v :: Within(v, firstMin, firstMax) && Within(v, secondMin, secondMax)
  {
    if firstMin <= secondMax && secondMin <= firstMax {
      var v := if firstMin <= secondMin then secondMin else firstMin;
      assert Within(v, firstMin, firstMax) && Within(v, secondMin, secondMax);
    }
  }

  predicate Within(v: int, lo: int, hi: int)
  {
    lo <= v <= hi
  }

  /**
   * `Cuboid.overlaps` as written: the intervals overlap on at least one axis. Cuboids
   * that intersect overlap; well-formed ones overlap exactly when their extents meet on
   * some axis.
   */
  predicate Overlaps(a: Cuboid, b: Cuboid): (r: bool)
    ensures Intersects(a, b) ==> r
    ensures WellFormed(a) && WellFormed(b) ==>
      (r <==> || (a.minX <= b.maxX && b.minX <= a.maxX)
              || (a.minY <= b.maxY && b.minY <= a.maxY)
              || (a.minZ <= b.maxZ && b.minZ <= a.maxZ))
  {
    || PointsOverlap(a.minX, a.maxX, b.minX, b.maxX)
    || PointsOverlap(a.minY, a.maxY, b.minY, b.maxY)
    || PointsOverlap(a.minZ, a.maxZ, b.minZ, b.maxZ)
  }

  lemma OverlapsSymmetric(a: Cuboid, b: Cuboid)
    ensures Overlaps(a, b) == Overlaps(b, a)
  {
    PointsOverlapSymmetric(a.minX, a.maxX, b.minX, b.maxX);
    PointsOverlapSymmetric(a.minY, a.maxY, b.minY, b.maxY);
    PointsOverlapSymmetric(a.minZ, a.maxZ, b.minZ, b.maxZ);
  }

  /** Two single cubes that share their x coordinate but nothing else "overlap" as written. */
  lemma OverlapsWithoutCommonCube()
    ensures var a, b := Cuboid(true, 0, 0, 0, 0, 0, 0), Cuboid(true, 0, 0, 5, 5, 5, 5);
            Overlaps(a, b) && Points(a) * Points(b) == {}
  {
    var a, b := Cuboid(true, 0, 0, 0, 0, 0, 0), Cuboid(true, 0, 0, 5, 5, 5, 5);
    forall p | p in Points(a)
      ensures p !in Points(b)
    {
    }
  }

  /** The overlap the name promises: the intervals overlap on every axis. */
  predicate Intersects(a: Cuboid, b: Cuboid)
  {
    && PointsOverlap(a.minX, a.maxX, b.minX, b.maxX)
    && PointsOverlap(a.minY, a.maxY, b.minY, b.maxY)
    && PointsOverlap(a.minZ, a.maxZ, b.minZ, b.maxZ)
  }

  /** Two well-formed cuboids intersect exactly when they have a cube in common. */
  lemma IntersectsIffCommonCube(a: Cuboid, b: Cuboid)
    requires WellFormed(a) && WellFormed(b)
    ensures Intersects(a, b) <==> Points(a) * Points(b) != {}
    ensures Intersects(a, b) == Intersects(b, a)
  {
    PointsOverlapIntervals(a.minX, a.maxX, b.minX, b.maxX);
    PointsOverlapIntervals(a.minY, a.maxY, b.minY, b.maxY);
    PointsOverlapIntervals(a.minZ, a.maxZ, b.minZ, b.maxZ);
    if Intersects(a, b) {
      var x := if a.minX <= b.minX then b.minX else a.minX;
      var y := if a.minY <= b.minY then b.minY else a.minY;
      var z := if a.minZ <= b.minZ then b.minZ else a.minZ;
      assert (x, y, z) in Points(a) * Points(b);
    }
    if Points(a) * Points(b) != {} {
      var p :| p in Points(a) * Points(b);
    }
    PointsOverlapSymmetric(a.minX, a.maxX, b.minX, b.maxX);
    PointsOverlapSymmetric(a.minY, a.maxY, b.minY, b.maxY);
    PointsOverlapSymmetric(a.minZ, a.maxZ, b.minZ, b.maxZ);
  }

  // ---------------------------------------------------------------------------
  // The initialization procedure
  // ---------------------------------------------------------------------------

  /** The six bounds of a step, in the order `in_initialization_procedure` lists them. */
  function Bounds(step: Cuboid): seq<int>
  {
    [step.minX, step.maxX, step.minY, step.maxY, step.minZ, step.maxZ]
  }

  /** `in_initialization_procedure`: all six bounds within 50 of the origin. */
  predicate InInitializationProcedure(step: Cuboid): (r: bool)
    ensures r <==> && -50 <= step.minX <= 50 && -50 <= step.maxX <= 50
                   && -50 <= step.minY <= 50 && -50 <= step.maxY <= 50
                   && -50 <= step.minZ <= 50 && -50 <= step.maxZ <= 50
  {
    var bounds := Bounds(step);
    assert bounds[0] == step.minX && bounds[1] == step.maxX && bounds[2] == step.minY;
    assert bounds[3] == step.maxY && bounds[4] == step.minZ && bounds[5] == step.maxZ;
    forall i :: 0 <= i < |Bounds(step)| ==> Abs(Bounds(step)[i]) <= 50
  }

  /** The cubes within 50 of the origin on every axis. */
  predicate InRegion(p: Point)
  {
    -50 <= p.0 <= 50 && -50 <= p.1 <= 50 && -50 <= p.2 <= 50
  }

  /**
   * A step passes exactly when its bounds lie in [-50, 50]; then all its cubes
   * lie in the initialization region, and a well-formed step whose cubes all lie
   * there passes.
   */
  lemma InitializationBounds(step: Cuboid)
    ensures InInitializationProcedure(step)
        <==> && -50 <= step.minX <= 50 && -50 <= step.maxX <= 50
             && -50 <= step.minY <= 50 && -50 <= step.maxY <= 50
             && -50 <= step.minZ <= 50 && -50 <= step.maxZ <= 50
    ensures InInitializationProcedure(step) ==> forall p :: p in Points(step) ==> InRegion(p)
    ensures WellFormed(step) && (forall p :: p in Points(step) ==> InRegion(p)) ==> InInitializationProcedure(step)
  {
    var bounds := Bounds(step);
    assert bounds[0] == step.minX && bounds[1] == step.maxX && bounds[2] == step.minY;
    assert bounds[3] == step.maxY && bounds[4] == step.minZ && bounds[5] == step.maxZ;
    if WellFormed(step) && forall p :: p in Points(step) ==> InRegion(p) {
      assert (step.minX, step.minY, step.minZ) in Points(step);
      assert (step.maxX, step.maxY, step.maxZ) in Points(step);
    }
  }

  // ---------------------------------------------------------------------------
  // read_range
  // ---------------------------------------------------------------------------

  /**
   * `read_range(line, coordinate)`: the text after the first `coordinate=`, up to
   * the next comma, split at `..` into exactly two integers. A missing
   * `coordinate=` raises `IndexError`; anything else malformed `ValueError`.
   */
  function ReadRange(line: string, coordinate: string): (r: Result<(int, int), Failure>)
    ensures r != Err(IndexError) <==> |PyText.Split(line, coordinate + "=")| >= 2
  {
    var afterName := PyText.Split(line, coordinate + "=");
    if |afterName| < 2 then Err(IndexError)
    else
      var range := PyText.Split(afterName[1], ",")[0];
      var ends := PyText.Split(range, "..");
      if |ends| != 2 then Err(ValueError)
      else match (PyText.ParseInt(ends[0]), PyText.ParseInt(ends[1]))
        case (Some(left), Some(right)) => Ok((left, right))
        case _ => Err(ValueError)
  }

  /**
   * `read_range` reads back `coordinate=L..R,` written into a line, when that is
   * the first `coordinate=` of the line and the coordinate does not start with a
   * character of a number or a range.
   */
  lemma ReadRangeReads(prefix: string, coordinate: string, left: int, right: int, suffix: string)
    requires PyText.Find(prefix + coordinate + "=", coordinate + "=") == Some(|prefix|)
    requires var c := (coordinate + "=")[0]; !PyText.IsDigit(c) && c != '-' && c != '.' && c != ','
    ensures ReadRange(prefix + coordinate + "=" + PyText.Show(left) + ".." + PyText.Show(right) + "," + suffix, coordinate)
         == Ok((left, right))
  {
    var sep := coordinate + "=";
    var l, r := PyText.Show(left), PyText.Show(right);
    RangePiece(l, r, sep, suffix, left, right);
    var rest := l + ".." + r + "," + suffix;
    var head := prefix + coordinate + "=";
    Associative(prefix, coordinate, "=");
    Associative(head, l, "..");
    Associative(head, l + "..", r);
    Associative(head, l + ".." + r, ",");
    Associative(head, l + ".." + r + ",", suffix);
    var line := prefix + coordinate + "=" + l + ".." + r + "," + suffix;
    assert line == (prefix + sep) + rest;
    PyText.SplitSecond(prefix, sep, rest);
    var afterName := PyText.Split(line, sep);
    assert |afterName| >= 2 && afterName[1] == PyText.Split(rest, sep)[0];
    var range := PyText.Split(afterName[1], ",")[0];
    assert PyText.Split(range, "..") == [l, r];
    PyText.ParseShow(left);
    PyText.ParseShow(right);
  }

  lemma Associative(a: string, b: string, c: string)
    ensures a + b + c == a + (b + c)
  {
  }

  /** After `coordinate=`, the text up to the comma is the range, and it splits into the two numbers. */
  lemma RangePiece(l: string, r: string, sep: string, suffix: string, left: int, right: int)
    requires l == PyText.Show(left) && r == PyText.Show(right)
    requires sep != [] && !PyText.IsDigit(sep[0]) && sep[0] != '-' && sep[0] != '.' && sep[0] != ','
    ensures var piece := PyText.Split(PyText.Split(l + ".." + r + "," + suffix, sep)[0], ",")[0];
            piece == l + ".." + r && PyText.Split(piece, "..") == [l, r]
  {
    PyText.ShowChars(left);
    PyText.ShowChars(right);
    var range := l + ".." + r;
    assert PyText.Lacks(range + ",", sep[0]);
    assert l + ".." + r + "," + suffix == (range + ",") + suffix;
    PyText.SplitHeadPast(range + ",", suffix, sep);
    var piece := PyText.Split(l + ".." + r + "," + suffix, sep)[0];
    assert PyText.Lacks(range, ',');
    PyText.SplitHeadAt(piece, range, ",");
    assert PyText.Lacks(l, '.') && PyText.Lacks(r, '.');
    PyText.SplitOnce(l, "..", r);
  }

  // ---------------------------------------------------------------------------
  // cubes_on_count
  // ---------------------------------------------------------------------------

  /** A step `filter(step_filter, steps)` keeps: all of them without a filter. */
  predicate Kept(stepFilter: Option<Cuboid -> bool>, step: Cuboid)
  {
    stepFilter.None? || stepFilter.value(step)
  }

  /** The distinct kept steps that switch cubes on (`on` is true) or off. */
  function StepSet(steps: seq<Cuboid>, stepFilter: Option<Cuboid -> bool>, on: bool): set<Cuboid>
  {
    set i | 0 <= i < |steps| && Kept(stepFilter, steps[i]) && steps[i].on == on :: steps[i]
  }

  /** Every step the filter keeps is well-formed. */
  predicate KeptWellFormed(steps: seq<Cuboid>, stepFilter: Option<Cuboid -> bool>)
  {
    forall i :: 0 <= i < |steps| && Kept(stepFilter, steps[i]) ==> WellFormed(steps[i])
  }

  /** Kept steps that are well-formed have a non-negative size sum. */
  lemma KeptSizesNonNegative(steps: seq<Cuboid>, stepFilter: Option<Cuboid -> bool>, on: bool)
    ensures KeptWellFormed(steps, stepFilter) ==> SizeSum(StepSet(steps, stepFilter, on)) >= 0
  {
    if KeptWellFormed(steps, stepFilter) {
      Counters.SumSetNonNegative(StepSet(steps, stepFilter, on), CubeCount);
    }
  }

  /** The sum of the sizes of a set of steps. */
  ghost function SizeSum(cuboids: set<Cuboid>): int
  {
    Counters.SumSet(cuboids, CubeCount)
  }

  /**
   * What `cubes_on_count` returns: sizes of the distinct "on" steps minus those of the
   * "off" steps. With well-formed steps it is never negative when no "off" step is kept,
   * and never positive when no "on" step is.
   */
  ghost function OnCount(steps: seq<Cuboid>, stepFilter: Option<Cuboid -> bool>): (r: int)
    ensures KeptWellFormed(steps, stepFilter) && StepSet(steps, stepFilter, false) == {} ==> r >= 0
    ensures KeptWellFormed(steps, stepFilter) && StepSet(steps, stepFilter, true) == {} ==> r <= 0
  {
    KeptSizesNonNegative(steps, stepFilter, true);
    KeptSizesNonNegative(steps, stepFilter, false);
    SizeSum(StepSet(steps, stepFilter, true)) - SizeSum(StepSet(steps, stepFilter, false))
  }

  /** `sum([x.cube_count() for x in cuboids])`, in whatever order the set gives. */
  method SumCubeCounts(cuboids: set<Cuboid>) returns (total: int)
    ensures total == SizeSum(cuboids)
  {
    total := 0;
    var rest := cuboids;
    while rest != {}
      invariant total + SizeSum(rest) == SizeSum(cuboids)
      decreases |rest|
    {
      var c :| c in rest;
      Counters.SumSetRemove(rest, CubeCount, c);
      total := total + CubeCount(c);
      rest := rest - {c};
    }
  }

  /** `cubes_on_count(steps, step_filter)`. */
  method CubesOnCount(steps: seq<Cuboid>, stepFilter: Option<Cuboid -> bool>) returns (result: int)
    ensures result == OnCount(steps, stepFilter)
  {
    var on: set<Cuboid> := {};
    var off: set<Cuboid> := {};
    for i := 0 to |steps|
      invariant on == StepSet(steps[..i], stepFilter, true)
      invariant off == StepSet(steps[..i], stepFilter, false)
    {
      StepSetExtend(steps, stepFilter, i);
      var step := steps[i];
      if stepFilter.None? || stepFilter.value(step) {
        if step.on {
          on := on + {step};
        } else {
          off := off + {step};
        }
      }
    }
    assert steps[..|steps|] == steps;
    var onTotal := SumCubeCounts(on);
    var offTotal := SumCubeCounts(off);
    result := onTotal - offTotal;
  }

  lemma StepSetExtend(steps: seq<Cuboid>, stepFilter: Option<Cuboid -> bool>, i: nat)
    requires i < |steps|
    ensures forall on: bool ::
              StepSet(steps[..i + 1], stepFilter, on)
              == StepSet(steps[..i], stepFilter, on) + (if Kept(stepFilter, steps[i]) && steps[i].on == on then {steps[i]} else {})
  {
    forall on: bool
      ensures StepSet(steps[..i + 1], stepFilter, on)
           == StepSet(steps[..i], stepFilter, on) + (if Kept(stepFilter, steps[i]) && steps[i].on == on then {steps[i]} else {})
    {
      var prefix := steps[..i + 1];
      assert prefix[i] == steps[i];
      assert forall j :: 0 <= j < i ==> prefix[j] == steps[..i][j];
    }
  }

  /** Only which steps occur matters: not their order, nor how often they repeat. */
  lemma OnCountOrderFree(steps: seq<Cuboid>, others: seq<Cuboid>, stepFilter: Option<Cuboid -> bool>)
    requires forall c :: c in steps <==> c in others
    ensures OnCount(steps, stepFilter) == OnCount(others, stepFilter)
  {
    forall on: bool
      ensures StepSet(steps, stepFilter, on) == StepSet(others, stepFilter, on)
    {
      forall c | c in StepSet(steps, stepFilter, on)
        ensures c in StepSet(others, stepFilter, on)
      {
        assert c in others;
        var j :| 0 <= j < |others| && others[j] == c;
      }
      forall c | c in StepSet(others, stepFilter, on)
        ensures c in StepSet(steps, stepFilter, on)
      {
        assert c in steps;
        var j :| 0 <= j < |steps| && steps[j] == c;
      }
    }
  }

  /** Without a filter every step counts, as with a filter that keeps everything. */
  lemma NoFilterKeepsAll(steps: seq<Cuboid>)
    ensures OnCount(steps, None) == OnCount(steps, Some(c => true))
    ensures forall on: bool :: StepSet(steps, None, on) == set i | 0 <= i < |steps| && steps[i].on == on :: steps[i]
  {
    assert StepSet(steps, None, true) == StepSet(steps, Some(c => true), true);
    assert StepSet(steps, None, false) == StepSet(steps, Some(c => true), false);
  }

  // ---------------------------------------------------------------------------
  // The cubes that are on after the steps
  // ---------------------------------------------------------------------------

  /** The cubes on after the steps in order, starting from all off. */
  ghost function Lit(steps: seq<Cuboid>): set<Point>
    decreases |steps|
  {
    if steps == [] then {}
    else
      var before := Lit(steps[..|steps| - 1]);
      var last := steps[|steps| - 1];
      if last.on then before + Points(last) else before - Points(last)
  }

  /** The last step whose cuboid holds `p`, if any. */
  function LastCover(steps: seq<Cuboid>, p: Point): (r: Option<nat>)
    ensures r.Some? ==> r.value < |steps| && Covers(steps[r.value], p)
    ensures r.Some? ==> forall j :: r.value < j < |steps| ==> !Covers(steps[j], p)
    ensures r.None? ==> forall j :: 0 <= j < |steps| ==> !Covers(steps[j], p)
    decreases |steps|
  {
    if steps == [] then None
    else if Covers(steps[|steps| - 1], p) then Some(|steps| - 1)
    else
      var r := LastCover(steps[..|steps| - 1], p);
      assert forall j :: 0 <= j < |steps| - 1 ==> steps[..|steps| - 1][j] == steps[j];
      r
  }

  /** The cube `p` lies in the cuboid. */
  predicate Covers(c: Cuboid, p: Point)
  {
    c.minX <= p.0 <= c.maxX && c.minY <= p.1 <= c.maxY && c.minZ <= p.2 <= c.maxZ
  }

  /** A cube is on exactly when the last step that touches it switches it on. */
  lemma {:induction false} LitLastCover(steps: seq<Cuboid>, p: Point)
    ensures p in Lit(steps) <==> LastCover(steps, p).Some? && steps[LastCover(steps, p).value].on
    decreases |steps|
  {
    if steps != [] {
      var last := steps[|steps| - 1];
      assert p in Points(last) <==> Covers(last, p);
      if !Covers(last, p) {
        var init := steps[..|steps| - 1];
        LitLastCover(init, p);
        if LastCover(init, p).Some? {
          assert init[LastCover(init, p).value] == steps[LastCover(init, p).value];
        }
      }
    }
  }

  /** The number of cubes on after the kept steps: what `cubes_on_count` is named for. */
  ghost function LitCount(steps: seq<Cuboid>, stepFilter: Option<Cuboid -> bool>): nat
  {
    |Lit(KeptSteps(steps, stepFilter))|
  }

  /** `filter(step_filter, steps)`, in order. */
  function KeptSteps(steps: seq<Cuboid>, stepFilter: Option<Cuboid -> bool>): (r: seq<Cuboid>)
    ensures forall c :: c in r <==> c in steps && Kept(stepFilter, c)
    decreases |steps|
  {
    if steps == [] then []
    else
      var rest := KeptSteps(steps[1..], stepFilter);
      assert forall c :: c in steps <==> c == steps[0] || c in steps[1..];
      if Kept(stepFilter, steps[0]) then [steps[0]] + rest else rest
  }

  /**
   * Two overlapping "on" steps: the sizes add up to 4 where 3 cubes are on, so
   * `cubes_on_count` is not the number of cubes on.
   */
  lemma OnCountCountsOverlapTwice()
    ensures var steps := [Cuboid(true, 0, 1, 0, 0, 0, 0), Cuboid(true, 1, 2, 0, 0, 0, 0)];
            OnCount(steps, None) == 4 && LitCount(steps, None) == 3
  {
    OverlapExampleSizes();
    OverlapExampleLit();
  }

  lemma OverlapExampleSizes()
    ensures OnCount([Cuboid(true, 0, 1, 0, 0, 0, 0), Cuboid(true, 1, 2, 0, 0, 0, 0)], None) == 4
  {
    var a, b := Cuboid(true, 0, 1, 0, 0, 0, 0), Cuboid(true, 1, 2, 0, 0, 0, 0);
    var steps := [a, b];
    assert StepSet(steps, None, true) == {a, b} by {
      assert steps[0] == a && steps[1] == b;
    }
    assert StepSet(steps, None, false) == {};
    Counters.SumSetInsert({a}, CubeCount, b);
    Counters.SumSetInsert({}, CubeCount, a);
    assert {a} + {b} == {a, b} && {} + {a} == {a};
  }

  lemma OverlapExampleLit()
    ensures LitCount([Cuboid(true, 0, 1, 0, 0, 0, 0), Cuboid(true, 1, 2, 0, 0, 0, 0)], None) == 3
  {
    var a, b := Cuboid(true, 0, 1, 0, 0, 0, 0), Cuboid(true, 1, 2, 0, 0, 0, 0);
    var steps := [a, b];
    KeptAll(steps);
    assert steps[..1] == [a] && [a][..0] == [];
    assert Lit([a]) == Points(a);
    assert Lit(steps) == Points(a) + Points(b);
    var lit: set<Point> := {(0, 0, 0), (1, 0, 0), (2, 0, 0)};
    forall p | p in Points(a) + Points(b)
      ensures p in lit
    {
    }
    assert (0, 0, 0) in Points(a) && (1, 0, 0) in Points(a) && (2, 0, 0) in Points(b);
    assert Lit(steps) == lit;
  }

  /**
   * Where no two kept steps share a cube and every kept step switches cubes on,
   * the sizes do add up to the cubes on.
   */
  lemma OnCountOfDisjointOnSteps(steps: seq<Cuboid>)
    requires forall i :: 0 <= i < |steps| ==> steps[i].on && WellFormed(steps[i])
    requires forall i, j :: 0 <= i < j < |steps| ==> Points(steps[i]) * Points(steps[j]) == {}
    ensures OnCount(steps, None) == LitCount(steps, None)
  {
    KeptAll(steps);
    assert StepSet(steps, None, false) == {};
    DisjointLit(steps);
  }

  lemma {:induction false} DisjointLit(steps: seq<Cuboid>)
    requires forall i :: 0 <= i < |steps| ==> steps[i].on && WellFormed(steps[i])
    requires forall i, j :: 0 <= i < j < |steps| ==> Points(steps[i]) * Points(steps[j]) == {}
    ensures |Lit(steps)| == SizeSum(StepSet(steps, None, true))
    decreases |steps|
  {
    if steps == [] {
      assert StepSet(steps, None, true) == {};
    } else {
      var init := steps[..|steps| - 1];
      assert forall i :: 0 <= i < |init| ==> init[i] == steps[i];
      DisjointLit(init);
      DisjointLitGrows(steps);
      DisjointSizeGrows(steps);
    }
  }

  /** A last "on" step apart from the others adds all its cubes to those lit. */
  lemma DisjointLitGrows(steps: seq<Cuboid>)
    requires steps != []
    requires forall i :: 0 <= i < |steps| ==> steps[i].on && WellFormed(steps[i])
    requires forall i, j :: 0 <= i < j < |steps| ==> Points(steps[i]) * Points(steps[j]) == {}
    ensures |Lit(steps)| == |Lit(steps[..|steps| - 1])| + CubeCount(steps[|steps| - 1])
  {
    var init := steps[..|steps| - 1];
    var last := steps[|steps| - 1];
    assert forall i :: 0 <= i < |init| ==> init[i] == steps[i];
    CubeCountPoints(last);
    assert Lit(steps) == Lit(init) + Points(last);
    LitApart(init, last);
    DisjointUnionSize(Lit(init), Points(last));
  }

  /** A last "on" step apart from the others adds its size to the sum over the distinct steps. */
  lemma DisjointSizeGrows(steps: seq<Cuboid>)
    requires steps != []
    requires forall i :: 0 <= i < |steps| ==> steps[i].on && WellFormed(steps[i])
    requires forall i, j :: 0 <= i < j < |steps| ==> Points(steps[i]) * Points(steps[j]) == {}
    ensures SizeSum(StepSet(steps, None, true)) ==
            SizeSum(StepSet(steps[..|steps| - 1], None, true)) + CubeCount(steps[|steps| - 1])
  {
    var init := steps[..|steps| - 1];
    var last := steps[|steps| - 1];
    assert forall i :: 0 <= i < |init| ==> init[i] == steps[i];
    var before := StepSet(init, None, true);
    StepSetExtend(steps, None, |steps| - 1);
    assert steps[..|steps|] == steps;
    assert StepSet(steps, None, true) == before + {last};
    NotRepeated(init, last);
    Counters.SumSetInsert(before, CubeCount, last);
  }

  /** Two sets with nothing in common have as many elements together as apart. */
  lemma DisjointUnionSize<T>(a: set<T>, b: set<T>)
    requires a * b == {}
    ensures |a + b| == |a| + |b|
  {
  }

  lemma PointsCovers(c: Cuboid, p: Point)
    ensures p in Points(c) <==> Covers(c, p)
  {
    if Covers(c, p) {
      assert (p.0, p.1, p.2) in Points(c);
    }
  }

  /** Cubes switched on by steps that share no cube with `last` are not cubes of `last`. */
  lemma LitApart(init: seq<Cuboid>, last: Cuboid)
    requires forall i :: 0 <= i < |init| ==> Points(init[i]) * Points(last) == {}
    ensures Lit(init) * Points(last) == {}
  {
    forall p | p in Lit(init)
      ensures p !in Points(last)
    {
      LitLastCover(init, p);
      var i := LastCover(init, p).value;
      PointsCovers(init[i], p);
      assert p in Points(init[i]);
      assert p !in Points(init[i]) * Points(last);
    }
  }

  /** A well-formed step that shares no cube with the earlier steps is none of them. */
  lemma NotRepeated(init: seq<Cuboid>, last: Cuboid)
    requires WellFormed(last)
    requires forall i :: 0 <= i < |init| ==> Points(init[i]) * Points(last) == {}
    ensures last !in StepSet(init, None, true)
  {
    MinCorner(last);
    var corner := (last.minX, last.minY, last.minZ);
    forall j | 0 <= j < |init|
      ensures init[j] != last
    {
      assert corner !in Points(init[j]) * Points(last);
    }
  }

  /** A well-formed cuboid holds its lowest corner. */
  lemma MinCorner(c: Cuboid)
    requires WellFormed(c)
    ensures (c.minX, c.minY, c.minZ) in Points(c)
  {
  }

  lemma KeptAll(steps: seq<Cuboid>)
    ensures KeptSteps(steps, None) == steps
  {
    if steps != [] {
      KeptAll(steps[1..]);
      assert [steps[0]] + steps[1..] == steps;
    }
  }
}
