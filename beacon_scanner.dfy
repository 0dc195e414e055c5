/**
 * Beacon scanner registration (19.py): the 24 axis rotations, vector sum and
 * difference, the vote-counting pairwise aligner, the worklist that places every
 * scanner in the frame of scanner 0, the count of distinct beacons and the largest
 * Manhattan distance between two scanners.
 */
module BeaconScanner {
  import opened Wrappers
  import opened Numbers

  /** An integer triple (`Coordinates`); the loader guarantees three components. */
  datatype Point = Point(x: int, y: int, z: int)

  const ORIGIN := Point(0, 0, 0)

  /** Number of entries of `ORIENTATIONS`. */
  const ORIENTATION_COUNT := 24

  /** A candidate offset is accepted when at least this many beacon pairs vote for it. */
  const OVERLAP_THRESHOLD := 12

  type OrientationIndex = i: int | 0 <= i < 24

  // ---------------------------------------------------------------------------
  // The orientation table

  /** One coordinate of an entry's image: a source coordinate, copied or negated. */
  datatype SignedAxis = Plus(axis: nat) | Minus(axis: nat)

  /**
   * `ORIENTATIONS`, in the order of the source table: entry `i` lists, for each
   * coordinate of the image, which coordinate of the input it takes and with which sign.
   */
  function Entry(i: OrientationIndex): (SignedAxis, SignedAxis, SignedAxis)
  {
    match i
    case 0 => (Plus(0), Plus(1), Plus(2))
    case 1 => (Plus(0), Plus(2), Minus(1))
    case 2 => (Plus(0), Minus(1), Minus(2))
    case 3 => (Plus(0), Minus(2), Plus(1))
    case 4 => (Minus(0), Minus(1), Plus(2))
    case 5 => (Minus(0), Plus(2), Plus(1))
    case 6 => (Minus(0), Plus(1), Minus(2))
    case 7 => (Minus(0), Minus(2), Minus(1))
    case 8 => (Plus(1), Plus(2), Plus(0))
    case 9 => (Plus(1), Plus(0), Minus(2))
    case 10 => (Plus(1), Minus(2), Minus(0))
    case 11 => (Plus(1), Minus(0), Plus(2))
    case 12 => (Minus(1), Minus(2), Plus(0))
    case 13 => (Minus(1), Plus(0), Plus(2))
    case 14 => (Minus(1), Plus(2), Minus(0))
    case 15 => (Minus(1), Minus(0), Minus(2))
    case 16 => (Plus(2), Plus(0), Plus(1))
    case 17 => (Plus(2), Plus(1), Minus(0))
    case 18 => (Plus(2), Minus(0), Minus(1))
    case 19 => (Plus(2), Minus(1), Plus(0))
    case 20 => (Minus(2), Minus(0), Plus(1))
    case 21 => (Minus(2), Plus(1), Plus(0))
    case 22 => (Minus(2), Plus(0), Minus(1))
    case _ => (Minus(2), Minus(1), Minus(0))
  }

  /** The coordinate `axis` (0, 1 or 2) of `p`. */
  function Coordinate(p: Point, axis: nat): int
  {
    if axis == 0 then p.x else if axis == 1 then p.y else p.z
  }

  function Component(a: SignedAxis, p: Point): int
  {
    match a
    case Plus(k) => Coordinate(p, k)
    case Minus(k) => -Coordinate(p, k)
  }

  /** `ORIENTATIONS[i](p)`. */
  function Orient(i: OrientationIndex, p: Point): Point
  {
    var (a, b, c) := Entry(i);
    Point(Component(a, p), Component(b, p), Component(c, p))
  }

  /** The index of the entry that undoes entry `i`. */
  function Inverse(i: OrientationIndex): OrientationIndex
  {
    match i
    case 1 => 3
    case 3 => 1
    case 8 => 16
    case 16 => 8
    case 10 => 22
    case 22 => 10
    case 11 => 13
    case 13 => 11
    case 12 => 18
    case 18 => 12
    case 14 => 20
    case 20 => 14
    case 17 => 21
    case 21 => 17
    case _ => i
  }

  /** Entry 0 of the table is the identity. */
  lemma OrientationZeroIsIdentity(p: Point)
    ensures Orient(0, p) == p
  {
  }

  /** Every entry is a bijection on triples: `Inverse(i)` undoes it on both sides. */
  lemma OrientInverse(i: OrientationIndex, p: Point)
    ensures Orient(Inverse(i), Orient(i, p)) == p
    ensures Orient(i, Orient(Inverse(i), p)) == p
  {
    UndoOrient(i, p);
    UndoOrient(Inverse(i), p);
  }

  lemma UndoOrient(i: OrientationIndex, p: Point)
    ensures Inverse(Inverse(i)) == i
    ensures Orient(Inverse(i), Orient(i, p)) == p
  {
  }

  /** Hence no two triples are sent to the same one. */
  lemma OrientInjective(i: OrientationIndex, p: Point, q: Point)
    requires Orient(i, p) == Orient(i, q)
    ensures p == q
  {
    OrientInverse(i, p);
    OrientInverse(i, q);
  }

  function Sign(a: SignedAxis): int
  {
    if a.Plus? then 1 else -1
  }

  /** The sign of the permutation that sends axes 0, 1, 2 to `a`, `b`, `c`. */
  function Parity(a: nat, b: nat, c: nat): int
  {
    if (a, b, c) in {(0, 1, 2), (1, 2, 0), (2, 0, 1)} then 1 else -1
  }

  /**
   * Every entry is a proper rotation: a signed permutation of the three axes (each
   * input coordinate is used exactly once) whose matrix has determinant 1 (for a
   * signed permutation matrix, the permutation's sign times the three signs), so no
   * entry is a reflection.
   */
  lemma OrientIsProperRotation(i: OrientationIndex)
    ensures var (a, b, c) := Entry(i);
      && {a.axis, b.axis, c.axis} == {0, 1, 2}
      && Parity(a.axis, b.axis, c.axis) * Sign(a) * Sign(b) * Sign(c) == 1
  {
  }

  /** Reads back which entry produced an image of (1, 2, 3), or -1 for any other triple. */
  function IndexOfImage(q: Point): int
  {
    if q == Point(1, 2, 3) then 0
    else if q == Point(1, 3, -2) then 1
    else if q == Point(1, -2, -3) then 2
    else if q == Point(1, -3, 2) then 3
    else if q == Point(-1, -2, 3) then 4
    else if q == Point(-1, 3, 2) then 5
    else if q == Point(-1, 2, -3) then 6
    else if q == Point(-1, -3, -2) then 7
    else if q == Point(2, 3, 1) then 8
    else if q == Point(2, 1, -3) then 9
    else if q == Point(2, -3, -1) then 10
    else if q == Point(2, -1, 3) then 11
    else if q == Point(-2, -3, 1) then 12
    else if q == Point(-2, 1, 3) then 13
    else if q == Point(-2, 3, -1) then 14
    else if q == Point(-2, -1, -3) then 15
    else if q == Point(3, 1, 2) then 16
    else if q == Point(3, 2, -1) then 17
    else if q == Point(3, -1, -2) then 18
    else if q == Point(3, -2, 1) then 19
    else if q == Point(-3, -1, 2) then 20
    else if q == Point(-3, 2, 1) then 21
    else if q == Point(-3, 1, -2) then 22
    else if q == Point(-3, -2, -1) then 23
    else -1
  }

  /** The 24 entries are distinct transforms: they already differ on (1, 2, 3). */
  lemma OrientationsDistinct(i: OrientationIndex, j: OrientationIndex)
    requires i != j
    ensures Orient(i, Point(1, 2, 3)) != Orient(j, Point(1, 2, 3))
  {
    ImageIndex(i);
    ImageIndex(j);
  }

  lemma ImageIndex(i: OrientationIndex)
    ensures IndexOfImage(Orient(i, Point(1, 2, 3))) == i
  {
  }

  // ---------------------------------------------------------------------------
  // Vector sum and difference

  /** `coordinate_sum`: the offset `b` applied to `a`, undone by taking `b` off again; the origin adds nothing. */
  function Add(a: Point, b: Point): (r: Point)
    ensures Sub(r, b) == a && Sub(r, a) == b
    ensures b == ORIGIN ==> r == a
  {
    Point(a.x + b.x, a.y + b.y, a.z + b.z)
  }

  /** `position_second_scanner_relative_to_first`: the offset that carries `b` onto `a`, zero exactly when they coincide. */
  function Sub(a: Point, b: Point): (r: Point)
    ensures r == ORIGIN <==> a == b
  {
    Point(a.x - b.x, a.y - b.y, a.z - b.z)
  }

  /** Sum and difference undo each other. */
  lemma SumOfDifference(a: Point, b: Point)
    ensures Add(Sub(a, b), b) == a
    ensures Sub(Add(a, b), b) == a
  {
  }

  /** The rotations are linear: they commute with the difference of two points. */
  lemma OrientSub(i: OrientationIndex, a: Point, b: Point)
    ensures Orient(i, Sub(a, b)) == Sub(Orient(i, a), Orient(i, b))
  {
  }

  // ---------------------------------------------------------------------------
  // Reorienting a scanner's beacons

  /** The comprehension of `change_orientation`: every beacon rotated by entry `i`. */
  function Rotated(i: OrientationIndex, beacons: seq<Point>): seq<Point>
  {
    seq(|beacons|, j requires 0 <= j < |beacons| => Orient(i, beacons[j]))
  }

  /** Rotating a beacon list by `Inverse(i)` gives back what `i` rotated; the length is kept. */
  lemma RotatedInverse(i: OrientationIndex, beacons: seq<Point>)
    ensures |Rotated(i, beacons)| == |beacons|
    ensures Rotated(Inverse(i), Rotated(i, beacons)) == beacons
  {
    var r := Rotated(Inverse(i), Rotated(i, beacons));
    forall j | 0 <= j < |beacons|
      ensures r[j] == beacons[j]
    {
      OrientInverse(i, beacons[j]);
    }
  }

  /** `change_orientation`: replaces scanner `k`'s beacon list by its rotated copy, in place. */
  method ChangeOrientation(data: array<seq<Point>>, k: nat, i: OrientationIndex)
    requires k < data.Length
    modifies data
    ensures data[..] == old(data[..])[k := Rotated(i, old(data[k]))]
  {
    data[k] := Rotated(i, data[k]);
  }

  // ---------------------------------------------------------------------------
  // The pairwise aligner

  /**
   * The (first, second) index pairs, among the first `ia` rows plus the first `ib`
   * entries of row `ia`, whose first beacon minus the rotated second beacon is `offset`.
   */
  ghost function MatchesBefore(first: seq<Point>, second: seq<Point>, i: OrientationIndex,
                               offset: Point, ia: int, ib: int): set<(int, int)>
  {
    set a, b | 0 <= a < |first| && 0 <= b < |second| && (a < ia || (a == ia && b < ib))
                 && Sub(first[a], Orient(i, second[b])) == offset :: (a, b)
  }

  /** The number of beacon pairs that vote for `offset` under entry `i`. */
  ghost function Votes(first: seq<Point>, second: seq<Point>, i: OrientationIndex, offset: Point): nat
  {
    |MatchesBefore(first, second, i, offset, |first|, 0)|
  }

  /** What the aligner reports: where the second scanner is, and how it is turned. */
  datatype Alignment = Alignment(offset: Point, orientation: OrientationIndex)

  /** Why the computation stops with an exception. */
  datatype Failure =
    | AmbiguousAlignment  // the `assert len(with_enough_beacons) <= 1` fails
    | EmptyWorklist       // `unprocessed.pop()` on an empty set

  /** No offset gets `OVERLAP_THRESHOLD` votes under entry `i`. */
  ghost predicate NoneQualifies(first: seq<Point>, second: seq<Point>, i: OrientationIndex)
  {
    forall offset :: Votes(first, second, i, offset) < OVERLAP_THRESHOLD
  }

  /**
   * `a` is the aligner's answer: its orientation is the first entry under which some
   * offset gets enough votes, and its offset is the only one that does.
   */
  ghost predicate IsFirstAlignment(first: seq<Point>, second: seq<Point>, a: Alignment)
  {
    && Votes(first, second, a.orientation, a.offset) >= OVERLAP_THRESHOLD
    && (forall offset :: Votes(first, second, a.orientation, offset) >= OVERLAP_THRESHOLD ==> offset == a.offset)
    && (forall j: OrientationIndex :: j < a.orientation ==> NoneQualifies(first, second, j))
  }

  /**
   * Entry `i` is the first under which some offset gets enough votes, and two different
   * offsets do: the source's assertion fails there.
   */
  ghost predicate IsAmbiguousAt(first: seq<Point>, second: seq<Point>, i: OrientationIndex)
  {
    && (forall j: OrientationIndex :: j < i ==> NoneQualifies(first, second, j))
    && exists o1, o2 :: o1 != o2
         && Votes(first, second, i, o1) >= OVERLAP_THRESHOLD
         && Votes(first, second, i, o2) >= OVERLAP_THRESHOLD
  }

  /** No entry of the table gives any offset enough votes: the aligner returns `None`. */
  ghost predicate Unaligned(first: seq<Point>, second: seq<Point>)
  {
    forall j: OrientationIndex :: NoneQualifies(first, second, j)
  }

  /** Some entry is the first to qualify and is ambiguous: the aligner's assertion fails. */
  ghost predicate AlignerFails(first: seq<Point>, second: seq<Point>)
  {
    exists i: OrientationIndex :: IsAmbiguousAt(first, second, i)
  }

  lemma MatchesStep(first: seq<Point>, second: seq<Point>, i: OrientationIndex, offset: Point, ia: int, ib: int)
    requires 0 <= ia < |first| && 0 <= ib < |second|
    ensures (ia, ib) !in MatchesBefore(first, second, i, offset, ia, ib)
    ensures MatchesBefore(first, second, i, offset, ia, ib + 1)
         == MatchesBefore(first, second, i, offset, ia, ib)
            + (if Sub(first[ia], Orient(i, second[ib])) == offset then {(ia, ib)} else {})
  {
  }

  lemma MatchesNextRow(first: seq<Point>, second: seq<Point>, i: OrientationIndex, offset: Point, ia: int)
    ensures MatchesBefore(first, second, i, offset, ia, |second|)
         == MatchesBefore(first, second, i, offset, ia + 1, 0)
  {
  }

  /**
   * The vote tally of `second_scanner_position` for one orientation: `votes[offset]`
   * (a `defaultdict(int)`) counts the beacon pairs that put the second scanner at `offset`.
   */
  method TallyOffsets(first: seq<Point>, second: seq<Point>, i: OrientationIndex)
    returns (votes: map<Point, nat>)
    ensures forall offset :: (if offset in votes then votes[offset] else 0) == Votes(first, second, i, offset)
  {
    votes := map[];
    for ia := 0 to |first|
      invariant forall offset :: (if offset in votes then votes[offset] else 0)
                                 == |MatchesBefore(first, second, i, offset, ia, 0)|
    {
      for ib := 0 to |second|
        invariant forall offset :: (if offset in votes then votes[offset] else 0)
                                   == |MatchesBefore(first, second, i, offset, ia, ib)|
      {
        var candidate := Sub(first[ia], Orient(i, second[ib]));
        forall offset
          ensures MatchesBefore(first, second, i, offset, ia, ib + 1)
               == MatchesBefore(first, second, i, offset, ia, ib)
                  + (if candidate == offset then {(ia, ib)} else {})
          ensures (ia, ib) !in MatchesBefore(first, second, i, offset, ia, ib)
        {
          MatchesStep(first, second, i, offset, ia, ib);
        }
        votes := votes[candidate := (if candidate in votes then votes[candidate] else 0) + 1];
      }
      forall offset
        ensures MatchesBefore(first, second, i, offset, ia, |second|)
             == MatchesBefore(first, second, i, offset, ia + 1, 0)
      {
        MatchesNextRow(first, second, i, offset, ia);
      }
    }
  }

  lemma TwoElements<T>(s: set<T>) returns (a: T, b: T)
    requires |s| > 1
    ensures a in s && b in s && a != b
  {
    a :| a in s;
    assert |s - {a}| == |s| - 1;
    b :| b in s - {a};
  }

  /**
   * `second_scanner_position`: tries the orientations in table order; under each it
   * tallies the offsets voted for by all beacon pairs and returns the first orientation
   * with an offset reaching the threshold. Two such offsets under one orientation fail
   * the source's assertion.
   */
  method SecondScannerPosition(first: seq<Point>, second: seq<Point>)
    returns (r: Result<Option<Alignment>, Failure>)
    ensures r.Ok? && r.value.Some? ==> IsFirstAlignment(first, second, r.value.value)
    ensures r.Ok? && r.value.None? ==>
      forall j: OrientationIndex :: NoneQualifies(first, second, j)
    ensures r.Err? ==> r.error == AmbiguousAlignment && exists i :: IsAmbiguousAt(first, second, i)
  {
    for i := 0 to ORIENTATION_COUNT
      invariant forall j: OrientationIndex :: j < i ==> NoneQualifies(first, second, j)
    {
      var votes := TallyOffsets(first, second, i);
      var withEnoughBeacons := set offset | offset in votes && votes[offset] >= OVERLAP_THRESHOLD;
      if |withEnoughBeacons| > 1 {
        var o1, o2 := TwoElements(withEnoughBeacons);
        assert Votes(first, second, i, o1) >= OVERLAP_THRESHOLD;
        assert Votes(first, second, i, o2) >= OVERLAP_THRESHOLD;
        assert IsAmbiguousAt(first, second, i);
        return Err(AmbiguousAlignment);
      }
      if |withEnoughBeacons| == 1 {
        var offset :| offset in withEnoughBeacons;
        assert |withEnoughBeacons - {offset}| == 0;
        assert withEnoughBeacons == {offset};
        forall o | o != offset
          ensures Votes(first, second, i, o) < OVERLAP_THRESHOLD
        {
          assert o !in withEnoughBeacons;
        }
        return Ok(Some(Alignment(offset, i)));
      }
      assert withEnoughBeacons == {};
      forall o
        ensures Votes(first, second, i, o) < OVERLAP_THRESHOLD
      {
        assert o !in withEnoughBeacons;
      }
    }
    return Ok(None);
  }

  // ---------------------------------------------------------------------------
  // The worklist propagator

  /** `range(n)` as a set: the scanner indices of a list of `n` scanners. */
  ghost function Range(n: nat): (r: set<nat>)
    ensures forall k: int :: k in r <==> 0 <= k < n
    ensures |r| == n
  {
    if n == 0 then {} else var r := Range(n - 1); assert n - 1 !in r; r + {n - 1}
  }

  /** The scanner identifiers the propagator can meet: 0 and every index of `data`. */
  ghost function Identifiers(n: nat): set<nat>
  {
    {0} + Range(n)
  }

  lemma FullSubset(keys: set<nat>, n: nat)
    requires forall k :: k in keys ==> k < n
    requires |keys| == n
    ensures keys == Range(n)
  {
    assert keys <= Range(n);
    assert |Range(n) - keys| == |Range(n)| - |keys|;
  }

  /**
   * The propagator's history, kept for the proof only: the scanner each placed scanner
   * was aligned against, the alignment found, and the order of placement (`rank`,
   * below the next free tick `clock`).
   */
  datatype Trace = Trace(parent: map<nat, nat>, alignment: map<nat, Alignment>, rank: map<nat, nat>, clock: nat)
  {
    /** The history after placing `second` by alignment `a` against `first`. */
    function Place(second: nat, first: nat, a: Alignment): Trace
    {
      Trace(parent[second := first], alignment[second := a], rank[second := clock], clock + 1)
    }
  }

  /**
   * The layout the propagator has built for the scanners in `positions`: scanner 0 is
   * at the origin with its beacons untouched; every other placed scanner `k` was aligned
   * against an earlier-placed `parent[k]` (whose beacons were already in final
   * orientation), sits at the parent's position plus the aligner's offset, and its
   * beacon list is the original one rotated, once, by the aligner's orientation.
   */
  ghost predicate Layout(data: seq<seq<Point>>, original: seq<seq<Point>>, positions: map<nat, Point>, t: Trace)
  {
    && |data| == |original|
    && 0 in positions && positions[0] == ORIGIN && 0 in t.rank && t.rank[0] == 0
    && (forall k :: k in t.rank ==> t.rank[k] < t.clock)
    && (forall k :: k in positions ==> k == 0 || k < |data|)
    && (forall k :: k in positions ==> k in t.rank)
    && (|data| > 0 ==> data[0] == original[0])
    && (forall k :: 0 <= k < |data| && k !in positions ==> data[k] == original[k])
    && (forall k {:trigger PlacedBy(data, original, positions, t, k)} ::
          k in positions && k != 0 ==> PlacedBy(data, original, positions, t, k))
  }

  /**
   * Scanner `k` was placed by the alignment of its original beacons against its
   * parent's (already reoriented) beacons, after its parent was placed.
   */
  ghost predicate PlacedBy(data: seq<seq<Point>>, original: seq<seq<Point>>, positions: map<nat, Point>, t: Trace, k: nat)
  {
    && k in positions && k in t.rank && k < |data| == |original|
    && k in t.parent && k in t.alignment
    && t.parent[k] in positions && t.parent[k] in t.rank && t.parent[k] < |data| && t.rank[t.parent[k]] < t.rank[k]
    && positions[k] == Add(positions[t.parent[k]], t.alignment[k].offset)
    && data[k] == Rotated(t.alignment[k].orientation, original[k])
    && IsFirstAlignment(data[t.parent[k]], original[k], t.alignment[k])
  }

  /** Placing an unplaced scanner `second` by its alignment against placed `first` keeps the layout. */
  lemma LayoutExtend(data: seq<seq<Point>>, original: seq<seq<Point>>, positions: map<nat, Point>, t: Trace,
                     first: nat, second: nat, a: Alignment)
    requires Layout(data, original, positions, t)
    requires first in positions && first < |data|
    requires second < |data| && second !in positions
    requires IsFirstAlignment(data[first], data[second], a)
    ensures Layout(data[second := Rotated(a.orientation, data[second])], original,
                   positions[second := Add(positions[first], a.offset)], t.Place(second, first, a))
  {
    var data', positions' := data[second := Rotated(a.orientation, data[second])], positions[second := Add(positions[first], a.offset)];
    var t' := t.Place(second, first, a);
    forall k | k in positions' && k != 0
      ensures PlacedBy(data', original, positions', t', k)
    {
      if k != second {
        assert PlacedBy(data, original, positions, t, k);
      }
    }
  }

  /** Every beacon list is the original one or its rotation by the scanner's recorded alignment. */
  ghost predicate Reoriented(data: seq<seq<Point>>, original: seq<seq<Point>>, t: Trace)
  {
    && |data| == |original|
    && forall k :: 0 <= k < |data| ==>
         data[k] == original[k] || (k in t.alignment && data[k] == Rotated(t.alignment[k].orientation, original[k]))
  }

  /** In a layout, every beacon list is the original one or its rotation by the scanner's alignment. */
  lemma LayoutFrames(data: seq<seq<Point>>, original: seq<seq<Point>>, positions: map<nat, Point>, t: Trace)
    requires Layout(data, original, positions, t)
    ensures Reoriented(data, original, t)
  {
    forall k | 0 <= k < |data| && k in positions && k != 0
      ensures k in t.alignment && data[k] == Rotated(t.alignment[k].orientation, original[k])
    {
      assert PlacedBy(data, original, positions, t, k);
    }
  }

  /** The scanners a layout places are among the propagator's identifiers. */
  lemma LayoutKeys(data: seq<seq<Point>>, original: seq<seq<Point>>, positions: map<nat, Point>, t: Trace)
    requires Layout(data, original, positions, t)
    ensures positions.Keys <= Identifiers(|data|)
  {
  }

  /**
   * One step of the inner loop of `scanner_positions`: aligns the unplaced scanner
   * `second` against the placed scanner `first` and, when it aligns, records its
   * position and reorients its beacons in place.
   */
  method PlaceAgainst(data: array<seq<Point>>, first: nat, second: nat, positions: map<nat, Point>,
                      ghost original: seq<seq<Point>>, ghost t: Trace)
    returns (positions': map<nat, Point>, failure: Option<Failure>, ghost t': Trace)
    modifies data
    requires Layout(data[..], original, positions, t)
    requires first in positions && first < data.Length
    requires second < data.Length && second !in positions
    ensures Layout(data[..], original, positions', t')
    ensures positions'.Keys == positions.Keys || positions'.Keys == positions.Keys + {second}
    ensures forall k :: 0 <= k < data.Length && k != second ==> data[k] == old(data[k])
    ensures second !in positions' ==> positions' == positions && data[second] == old(data[second])
    ensures second in positions' ==>
      && failure.None?
      && second in t'.parent && t'.parent[second] == first && second in t'.alignment
      && IsFirstAlignment(data[first], old(data[second]), t'.alignment[second])
      && positions' == positions[second := Add(positions[first], t'.alignment[second].offset)]
    ensures failure.Some? ==> failure.value == AmbiguousAlignment && AlignerFails(data[first], data[second])
    ensures failure.None? && second !in positions' ==> Unaligned(data[first], data[second])
  {
    positions', failure, t' := positions, None, t;
    var computed := SecondScannerPosition(data[first], data[second]);
    if computed.Err? {
      failure := Some(computed.error);
    } else if computed.value.Some? {
      var a := computed.value.value;
      LayoutExtend(data[..], original, positions, t, first, second, a);
      positions' := positions[second := Add(positions[first], a.offset)];
      ChangeOrientation(data, second, a.orientation);
      t' := t.Place(second, first, a);
    }
  }

  /**
   * The inner loop of `scanner_positions`: aligns every scanner not yet placed against
   * the placed scanner `first`. Returns the new positions, the scanners placed here and
   * the failure that stopped the loop, if any; the layout holds in either case.
   */
  method AlignAgainst(data: array<seq<Point>>, first: nat, positions: map<nat, Point>,
                      ghost original: seq<seq<Point>>, ghost t: Trace)
    returns (positions': map<nat, Point>, added: set<nat>, failure: Option<Failure>, ghost t': Trace)
    modifies data
    requires Layout(data[..], original, positions, t)
    requires first in positions
    ensures Layout(data[..], original, positions', t')
    ensures positions'.Keys == positions.Keys + added && added !! positions.Keys
    ensures forall k :: k in positions ==> positions'[k] == positions[k]
    ensures forall k :: 0 <= k < data.Length && k !in added ==> data[k] == old(data[k])
    ensures failure.Some? ==>
      && failure.value == AmbiguousAlignment
      && exists u :: 0 <= u < data.Length && u !in positions' && first < data.Length && AlignerFails(data[first], data[u])
    ensures failure.None? ==>
      forall u :: 0 <= u < data.Length && u !in positions' ==> first < data.Length && Unaligned(data[first], data[u])
  {
    positions', added, failure, t' := positions, {}, None, t;
    for second := 0 to data.Length
      invariant Layout(data[..], original, positions', t')
      invariant positions'.Keys == positions.Keys + added && added !! positions.Keys
      invariant forall k :: k in positions ==> positions'[k] == positions[k]
      invariant forall k :: 0 <= k < data.Length && k !in added ==> data[k] == old(data[k])
      invariant forall u :: 0 <= u < second && u !in positions' ==> first < data.Length && Unaligned(data[first], data[u])
      invariant failure.None?
    {
      if second !in positions' {
        assert first < data.Length;
        var before := positions'.Keys;
        positions', failure, t' := PlaceAgainst(data, first, second, positions', original, t');
        added := added + (positions'.Keys - before);
        if failure.Some? {
          assert second !in positions';
          return;
        }
      }
    }
  }

  /** Popping `first` from the worklist and pushing the scanners it placed keeps the worklist apart from what was processed. */
  lemma WorklistStep(unprocessed: set<nat>, processed: set<nat>, first: nat, placed: set<nat>, added: set<nat>, ids: set<nat>)
    requires first in unprocessed && unprocessed <= placed && processed <= placed && placed <= ids
    requires unprocessed !! processed && added !! placed
    ensures unprocessed - {first} + added <= placed + added && processed + {first} <= placed + added
    ensures (unprocessed - {first} + added) !! (processed + {first})
    ensures ids - (processed + {first}) < ids - processed
  {
    assert first in ids - processed && first !in ids - (processed + {first});
  }

  /**
   * Where the propagator stops on an empty worklist: every scanner in `placed` has been
   * tried against every scanner outside it (still in its original orientation) and
   * none aligned, while some scanner is still unplaced.
   */
  ghost predicate Stuck(data: seq<seq<Point>>, original: seq<seq<Point>>, placed: set<nat>)
  {
    && |data| == |original|
    && 0 in placed
    && (|data| > 0 ==> exists u :: 0 <= u < |data| && u !in placed)
    && forall p, u :: p in placed && p < |data| && 0 <= u < |data| && u !in placed ==>
         data[u] == original[u] && Unaligned(data[p], data[u])
  }

  /**
   * Where the propagator fails the aligner's assertion: the final beacons of a scanner
   * in `placed` against the original beacons of a scanner outside it.
   */
  ghost predicate Ambiguous(data: seq<seq<Point>>, original: seq<seq<Point>>, placed: set<nat>)
  {
    && |data| == |original|
    && 0 in placed
    && exists p, u :: p in placed && p < |data| && 0 <= u < |data| && u !in placed
                      && data[u] == original[u] && AlignerFails(data[p], data[u])
  }

  /** Every scanner in `processed` has been tried, without success, against every scanner outside `placed`. */
  ghost predicate Tried(data: seq<seq<Point>>, processed: set<nat>, placed: set<nat>)
  {
    forall p, u :: p in processed && p < |data| && 0 <= u < |data| && u !in placed ==> Unaligned(data[p], data[u])
  }

  /** Processing `first` (its inner loop placing `added` and no failure) keeps `Tried`. */
  lemma TriedStep(before: seq<seq<Point>>, after: seq<seq<Point>>, processed: set<nat>, first: nat,
                  placed: set<nat>, added: set<nat>)
    requires Tried(before, processed, placed) && processed <= placed && added !! placed
    requires |before| == |after|
    requires forall k :: 0 <= k < |after| && k !in added ==> after[k] == before[k]
    requires forall u :: 0 <= u < |after| && u !in placed + added ==> first < |after| && Unaligned(after[first], after[u])
    ensures Tried(after, processed + {first}, placed + added)
  {
    forall p, u | p in processed + {first} && p < |after| && 0 <= u < |after| && u !in placed + added
      ensures Unaligned(after[p], after[u])
    {
      if p != first {
        assert after[p] == before[p] && after[u] == before[u];
      }
    }
  }

  /** An empty worklist with every placed scanner processed and a scanner left over is `Stuck`. */
  lemma StuckWhenEmpty(data: seq<seq<Point>>, original: seq<seq<Point>>, positions: map<nat, Point>, t: Trace)
    requires Layout(data, original, positions, t) && Tried(data, positions.Keys, positions.Keys)
    requires |positions| != |data|
    ensures Stuck(data, original, positions.Keys)
  {
    LayoutKeys(data, original, positions, t);
    if |data| > 0 {
      SomeUnplaced(positions.Keys, |data|);
    }
  }

  /** Fewer placed identifiers than scanners leaves a scanner unplaced. */
  lemma SomeUnplaced(keys: set<nat>, n: nat)
    requires n > 0 && keys <= Identifiers(n) && |keys| != n
    ensures exists u :: 0 <= u < n && u !in keys
  {
    assert Identifiers(n) == Range(n);
    assert |Range(n) - keys| == |Range(n)| - |keys|;
    var u :| u in Range(n) - keys;
  }

  /**
   * The state of the propagator's outer loop: a layout of the placed scanners, split
   * into the worklist and the scanners already processed, each of which has been
   * tried against every scanner still unplaced.
   */
  ghost predicate Worklist(data: seq<seq<Point>>, original: seq<seq<Point>>, positions: map<nat, Point>, t: Trace,
                           unprocessed: set<nat>, processed: set<nat>)
  {
    && Layout(data, original, positions, t)
    && unprocessed !! processed && unprocessed + processed == positions.Keys
    && Tried(data, processed, positions.Keys)
  }

  /** Processing `first` without failure, placing `added`, moves the worklist on and shrinks the measure. */
  lemma WorklistAdvance(before: seq<seq<Point>>, after: seq<seq<Point>>, original: seq<seq<Point>>,
                        positions: map<nat, Point>, positions': map<nat, Point>, t': Trace,
                        unprocessed: set<nat>, processed: set<nat>, first: nat, added: set<nat>)
    requires unprocessed !! processed && unprocessed + processed == positions.Keys && first in unprocessed
    requires Tried(before, processed, positions.Keys) && positions.Keys <= Identifiers(|after|)
    requires Layout(after, original, positions', t')
    requires positions'.Keys == positions.Keys + added && added !! positions.Keys
    requires |before| == |after|
    requires forall k :: 0 <= k < |after| && k !in added ==> after[k] == before[k]
    requires forall u :: 0 <= u < |after| && u !in positions' ==> first < |after| && Unaligned(after[first], after[u])
    ensures Worklist(after, original, positions', t', unprocessed - {first} + added, processed + {first})
    ensures Identifiers(|after|) - (processed + {first}) < Identifiers(|after|) - processed
  {
    WorklistStep(unprocessed, processed, first, positions.Keys, added, Identifiers(|after|));
    TriedStep(before, after, processed, first, positions.Keys, added);
  }

  /**
   * One turn of the outer loop of `scanner_positions` after `first` is popped from the
   * worklist: aligns the unplaced scanners against it and pushes those it placed.
   */
  method ProcessScanner(data: array<seq<Point>>, first: nat, positions: map<nat, Point>, unprocessed: set<nat>,
                        ghost processed: set<nat>, ghost original: seq<seq<Point>>, ghost t: Trace)
    returns (positions': map<nat, Point>, unprocessed': set<nat>, ghost processed': set<nat>,
             failure: Option<Failure>, ghost t': Trace)
    modifies data
    requires Worklist(data[..], original, positions, t, unprocessed, processed) && first in unprocessed
    ensures failure.None? ==> Worklist(data[..], original, positions', t', unprocessed', processed')
    ensures failure.None? ==> Identifiers(data.Length) - processed' < Identifiers(data.Length) - processed
    ensures failure.Some? ==>
      failure.value == AmbiguousAlignment && Ambiguous(data[..], original, positions'.Keys)
      && Reoriented(data[..], original, t')
  {
    ghost var before := data[..];
    LayoutKeys(data[..], original, positions, t);
    unprocessed', processed' := unprocessed, processed;
    var added;
    positions', added, failure, t' := AlignAgainst(data, first, positions, original, t);
    if failure.Some? {
      ghost var u :| 0 <= u < data.Length && u !in positions' && first < data.Length && AlignerFails(data[first], data[u]);
      assert data[..][u] == original[u];
      assert Ambiguous(data[..], original, positions'.Keys);
      LayoutFrames(data[..], original, positions', t');
      return;
    }
    WorklistAdvance(before, data[..], original, positions, positions', t', unprocessed, processed, first, added);
    unprocessed' := unprocessed - {first} + added;
    processed' := processed + {first};
  }

  /**
   * `scanner_positions`: starting from scanner 0 at the origin, repeatedly takes a
   * placed scanner from the worklist and aligns every unplaced scanner against it; a
   * scanner that aligns gets its position, its beacons reoriented in place and a place
   * in the worklist. The worklist pop is a nondeterministic choice. Each scanner enters
   * the worklist once, when it is placed, so the loop ends: with every scanner placed,
   * or with `pop` failing on an empty worklist.
   */
  method ScannerPositions(data: array<seq<Point>>) returns (r: Result<map<nat, Point>, Failure>, ghost t: Trace)
    modifies data
    ensures r.Ok? ==> r.value.Keys == Range(data.Length)
    ensures r.Ok? ==> Layout(data[..], old(data[..]), r.value, t)
    ensures Reoriented(data[..], old(data[..]), t)
    ensures r.Err? && r.error == EmptyWorklist ==> exists placed :: Stuck(data[..], old(data[..]), placed)
    ensures r.Err? && r.error == AmbiguousAlignment ==> exists placed :: Ambiguous(data[..], old(data[..]), placed)
  {
    ghost var original := data[..];
    var positions: map<nat, Point> := map[0 := ORIGIN];
    var unprocessed: set<nat> := {0};
    ghost var processed: set<nat> := {};
    t := Trace(map[], map[], map[0 := 0], 1);
    while data.Length != |positions|
      invariant Worklist(data[..], original, positions, t, unprocessed, processed)
      decreases Identifiers(data.Length) - processed
    {
      if unprocessed == {} {
        StuckWhenEmpty(data[..], original, positions, t);
        LayoutFrames(data[..], original, positions, t);
        return Err(EmptyWorklist), t;
      }
      var first :| first in unprocessed;
      var failure;
      positions, unprocessed, processed, failure, t := ProcessScanner(data, first, positions, unprocessed, processed, original, t);
      if failure.Some? {
        return Err(failure.value), t;
      }
    }
    LayoutKeys(data[..], original, positions, t);
    FullSubset(positions.Keys, data.Length);
    LayoutFrames(data[..], original, positions, t);
    return Ok(positions), t;
  }

  // ---------------------------------------------------------------------------
  // Beacon count and distances

  /** Every beacon of every scanner, moved by the scanner's position into the common frame. */
  ghost function GlobalBeacons(data: seq<seq<Point>>, positions: map<nat, Point>): set<Point>
    requires forall k :: 0 <= k < |data| ==> k in positions
  {
    set k, j | 0 <= k < |data| && 0 <= j < |data[k]| :: Add(data[k][j], positions[k])
  }

  /** The beacons of the first `k` scanners plus the first `j` of scanner `k`. */
  ghost function BeaconsBefore(data: seq<seq<Point>>, positions: map<nat, Point>, k: int, j: int): set<Point>
    requires forall s :: 0 <= s < |data| ==> s in positions
  {
    set s, b | 0 <= s < |data| && 0 <= b < |data[s]| && (s < k || (s == k && b < j)) :: Add(data[s][b], positions[s])
  }

  /** The number of beacon reports over all scanners, duplicates included. */
  function TotalBeacons(data: seq<seq<Point>>): nat
  {
    if data == [] then 0 else TotalBeacons(data[..|data| - 1]) + |data[|data| - 1]|
  }

  /**
   * `beacon_count`: the number of distinct points `beacon + positions[scanner]`; at most
   * the number of beacon reports. Every scanner must have a position.
   */
  method BeaconCount(data: seq<seq<Point>>, positions: map<nat, Point>) returns (count: nat)
    requires forall k :: 0 <= k < |data| ==> k in positions
    ensures count == |GlobalBeacons(data, positions)|
    ensures count <= TotalBeacons(data)
  {
    var beacons: set<Point> := {};
    for scanner := 0 to |data|
      invariant beacons == BeaconsBefore(data, positions, scanner, 0)
      invariant |beacons| <= TotalBeacons(data[..scanner])
    {
      for j := 0 to |data[scanner]|
        invariant beacons == BeaconsBefore(data, positions, scanner, j)
        invariant |beacons| <= TotalBeacons(data[..scanner]) + j
      {
        BeaconStep(data, positions, scanner, j);
        beacons := beacons + {Add(data[scanner][j], positions[scanner])};
      }
      ScannerStep(data, positions, scanner);
    }
    ScannersDone(data, positions);
    count := |beacons|;
  }

  /** One more beacon of scanner `scanner`. */
  lemma BeaconStep(data: seq<seq<Point>>, positions: map<nat, Point>, scanner: nat, j: nat)
    requires forall k :: 0 <= k < |data| ==> k in positions
    requires scanner < |data| && j < |data[scanner]|
    ensures BeaconsBefore(data, positions, scanner, j + 1)
         == BeaconsBefore(data, positions, scanner, j) + {Add(data[scanner][j], positions[scanner])}
  {
  }

  /** All of scanner `scanner`'s beacons are the start of the next scanner's. */
  lemma ScannerStep(data: seq<seq<Point>>, positions: map<nat, Point>, scanner: nat)
    requires forall k :: 0 <= k < |data| ==> k in positions
    requires scanner < |data|
    ensures BeaconsBefore(data, positions, scanner, |data[scanner]|) == BeaconsBefore(data, positions, scanner + 1, 0)
    ensures TotalBeacons(data[..scanner + 1]) == TotalBeacons(data[..scanner]) + |data[scanner]|
  {
    assert data[..scanner + 1][..scanner] == data[..scanner];
  }

  /** Past the last scanner, the beacons so far are all of them. */
  lemma ScannersDone(data: seq<seq<Point>>, positions: map<nat, Point>)
    requires forall k :: 0 <= k < |data| ==> k in positions
    ensures BeaconsBefore(data, positions, |data|, 0) == GlobalBeacons(data, positions)
    ensures TotalBeacons(data[..|data|]) == TotalBeacons(data)
  {
    assert data[..|data|] == data;
  }

  /**
   * `manhattan_distance`: the sum of the absolute coordinate differences. It is zero
   * exactly on equal points and bounds each coordinate's difference.
   */
  function ManhattanDistance(a: Point, b: Point): (r: nat)
    ensures r == 0 <==> a == b
    ensures Abs(a.x - b.x) <= r && Abs(a.y - b.y) <= r && Abs(a.z - b.z) <= r
  {
    Abs(a.x - b.x) + Abs(a.y - b.y) + Abs(a.z - b.z)
  }

  /** The sum of the absolute coordinates of a triple. */
  function Norm(d: Point): nat
  {
    Abs(d.x) + Abs(d.y) + Abs(d.z)
  }

  /** An entry takes each coordinate once, up to sign, so it keeps the sum of absolute coordinates. */
  lemma OrientKeepsNorm(i: OrientationIndex, d: Point)
    ensures Norm(Orient(i, d)) == Norm(d)
  {
    var (a, b, c) := Entry(i);
    OrientIsProperRotation(i);
    assert Norm(Orient(i, d)) == Abs(Coordinate(d, a.axis)) + Abs(Coordinate(d, b.axis)) + Abs(Coordinate(d, c.axis));
    PermutedNorm(a.axis, b.axis, c.axis, d);
  }

  lemma PermutedNorm(u: nat, v: nat, w: nat, d: Point)
    requires {u, v, w} == {0, 1, 2}
    ensures Abs(Coordinate(d, u)) + Abs(Coordinate(d, v)) + Abs(Coordinate(d, w)) == Norm(d)
  {
    assert 0 in {u, v, w} && 1 in {u, v, w} && 2 in {u, v, w};
    assert u in {0, 1, 2} && v in {0, 1, 2} && w in {0, 1, 2};
  }

  /** No entry of the table changes the Manhattan distance between two points. */
  lemma OrientKeepsDistance(i: OrientationIndex, a: Point, b: Point)
    ensures ManhattanDistance(Orient(i, a), Orient(i, b)) == ManhattanDistance(a, b)
  {
    OrientSub(i, a, b);
    OrientKeepsNorm(i, Sub(a, b));
    assert ManhattanDistance(a, b) == Norm(Sub(a, b));
    assert ManhattanDistance(Orient(i, a), Orient(i, b)) == Norm(Sub(Orient(i, a), Orient(i, b)));
  }

  /** The Manhattan distance is a metric on triples. */
  lemma ManhattanIsMetric(a: Point, b: Point, c: Point)
    ensures ManhattanDistance(a, b) == ManhattanDistance(b, a)
    ensures ManhattanDistance(a, b) == 0 <==> a == b
    ensures ManhattanDistance(a, c) <= ManhattanDistance(a, b) + ManhattanDistance(b, c)
  {
  }

  /**
   * The inner loop of `largest_manhattan_distance`: raises the running maximum
   * `largest` to the distance from `first` to every point, keeping it either where it
   * was or at one of those distances.
   */
  method RaiseToFarthest(points: set<Point>, first: Point, largest: nat) returns (largest': nat)
    ensures largest <= largest'
    ensures forall q :: q in points ==> ManhattanDistance(first, q) <= largest'
    ensures largest' == largest || exists q :: q in points && largest' == ManhattanDistance(first, q)
  {
    largest' := largest;
    var seconds := points;
    while seconds != {}
      invariant seconds <= points
      invariant largest <= largest'
      invariant forall q :: q in points - seconds ==> ManhattanDistance(first, q) <= largest'
      invariant largest' == largest || exists q :: q in points && largest' == ManhattanDistance(first, q)
      decreases seconds
    {
      var second :| second in seconds;
      var current := ManhattanDistance(first, second);
      if current > largest' {
        largest' := current;
      }
      seconds := seconds - {second};
    }
  }

  /**
   * `largest_manhattan_distance`: a running maximum, from 0, over all ordered pairs of
   * position values. It bounds every pairwise distance and is one of them (0 for no
   * positions).
   */
  method LargestManhattanDistance(positions: map<nat, Point>) returns (largest: nat)
    ensures forall a, b :: a in positions && b in positions ==>
      ManhattanDistance(positions[a], positions[b]) <= largest
    ensures positions == map[] ==> largest == 0
    ensures positions != map[] ==>
      exists a, b :: a in positions && b in positions && largest == ManhattanDistance(positions[a], positions[b])
  {
    var points := positions.Values;
    largest := 0;
    var firsts := points;
    while firsts != {}
      invariant firsts <= points
      invariant forall p, q :: p in points - firsts && q in points ==> ManhattanDistance(p, q) <= largest
      invariant largest == 0 || exists p, q :: p in points && q in points && largest == ManhattanDistance(p, q)
      decreases firsts
    {
      var first :| first in firsts;
      largest := RaiseToFarthest(points, first, largest);
      firsts := firsts - {first};
    }
    forall a, b | a in positions && b in positions
      ensures ManhattanDistance(positions[a], positions[b]) <= largest
    {
      assert positions[a] in points && positions[b] in points;
    }
    if positions != map[] {
      if largest == 0 {
        var a :| a in positions;
        assert ManhattanDistance(positions[a], positions[a]) == 0;
      } else {
        var p, q :| p in points && q in points && largest == ManhattanDistance(p, q);
        var a :| a in positions && positions[a] == p;
        var b :| b in positions && positions[b] == q;
      }
    }
  }
}
