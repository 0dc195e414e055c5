/**
 * The transparent paper of 13.py: a grid of `#` (a dot) and `.` cells, built from
 * a list of dots and folded in place along a column (left) or a row (up). A fold
 * mirrors every dot of the far side onto the near side and cuts the paper at the
 * fold line; afterwards the dots are counted.
 */
module TransparentOrigami {
  import opened Wrappers
  import PyText

  const DOT := '#'
  const EMPTY := '.'

  /** `list[list[str]]`: rows of one-character cells, indexed `[y][x]`. */
  type Grid = seq<seq<char>>

  /** A fold instruction: the axis (`"x"` folds left, anything else up) and the line. */
  type Instruction = (string, int)

  // ---------------------------------------------------------------------------
  // The dots of a grid
  // ---------------------------------------------------------------------------

  /** The dots `(x, y)` of one row, numbered `y`. */
  function RowDots(row: seq<char>, y: nat): set<(nat, nat)>
  {
    if row == [] then {}
    else RowDots(row[..|row| - 1], y) + (if row[|row| - 1] == DOT then {(|row| - 1, y)} else {})
  }

  /** The dots `(x, y)` of a grid. */
  function Dots(g: Grid): set<(nat, nat)>
  {
    if g == [] then {} else Dots(g[..|g| - 1]) + RowDots(g[|g| - 1], |g| - 1)
  }

  /** The number of `#` cells in a row. */
  function RowMarks(row: seq<char>): nat
  {
    if row == [] then 0 else RowMarks(row[..|row| - 1]) + (if row[|row| - 1] == DOT then 1 else 0)
  }

  /** The number of `#` cells in a grid. */
  function Marks(g: Grid): nat
  {
    if g == [] then 0 else Marks(g[..|g| - 1]) + RowMarks(g[|g| - 1])
  }

  lemma {:induction false} RowDotsMembership(row: seq<char>, y: nat, d: (nat, nat))
    ensures d in RowDots(row, y) <==> d.1 == y && d.0 < |row| && row[d.0] == DOT
  {
    if row != [] {
      RowDotsMembership(row[..|row| - 1], y, d);
    }
  }

  /** `(x, y)` is a dot exactly when cell `[y][x]` exists and holds `#`. */
  lemma {:induction false} DotsMembership(g: Grid, d: (nat, nat))
    ensures d in Dots(g) <==> d.1 < |g| && d.0 < |g[d.1]| && g[d.1][d.0] == DOT
  {
    if g != [] {
      DotsMembership(g[..|g| - 1], d);
      RowDotsMembership(g[|g| - 1], |g| - 1, d);
    }
  }

  lemma {:induction false} RowDotsCount(row: seq<char>, y: nat)
    ensures |RowDots(row, y)| == RowMarks(row)
  {
    if row != [] {
      var init := row[..|row| - 1];
      RowDotsCount(init, y);
      RowDotsMembership(init, y, (|row| - 1, y));
    }
  }

  /** Counting the `#` cells counts the dots. */
  lemma {:induction false} MarksAreDots(g: Grid)
    ensures |Dots(g)| == Marks(g)
  {
    if g != [] {
      var init := g[..|g| - 1];
      MarksAreDots(init);
      RowDotsCount(g[|g| - 1], |g| - 1);
      forall d | d in Dots(init)
        ensures d !in RowDots(g[|g| - 1], |g| - 1)
      {
        DotsMembership(init, d);
        RowDotsMembership(g[|g| - 1], |g| - 1, d);
      }
      assert Dots(init) * RowDots(g[|g| - 1], |g| - 1) == {};
    }
  }

  // ---------------------------------------------------------------------------
  // Creating the paper
  // ---------------------------------------------------------------------------

  /** `max` of the x coordinates. */
  function MaxX(dots: seq<(nat, nat)>): (m: nat)
    requires dots != []
    ensures forall i :: 0 <= i < |dots| ==> dots[i].0 <= m
    ensures exists i :: 0 <= i < |dots| && dots[i].0 == m
  {
    if |dots| == 1 then dots[0].0
    else
      var rest := MaxX(dots[1..]);
      assert forall i :: 1 <= i < |dots| ==> dots[i] == dots[1..][i - 1];
      if dots[0].0 >= rest then dots[0].0 else rest
  }

  /** `max` of the y coordinates. */
  function MaxY(dots: seq<(nat, nat)>): (m: nat)
    requires dots != []
    ensures forall i :: 0 <= i < |dots| ==> dots[i].1 <= m
    ensures exists i :: 0 <= i < |dots| && dots[i].1 == m
  {
    if |dots| == 1 then dots[0].1
    else
      var rest := MaxY(dots[1..]);
      assert forall i :: 1 <= i < |dots| ==> dots[i] == dots[1..][i - 1];
      if dots[0].1 >= rest then dots[0].1 else rest
  }

  /** A `height` by `width` grid with `#` exactly at the dots drawn so far. */
  function Drawn(drawn: seq<(nat, nat)>, width: nat, height: nat): (g: Grid)
    ensures |g| == height && forall y :: 0 <= y < height ==> |g[y]| == width
  {
    seq(height, y => seq(width, x => if (x, y) in drawn then DOT else EMPTY))
  }

  /** The paper `create_paper` builds: just large enough for the largest coordinates. */
  function Sheet(dots: seq<(nat, nat)>): Grid
    requires dots != []
  {
    Drawn(dots, MaxX(dots) + 1, MaxY(dots) + 1)
  }

  /** The dots of the sheet are the given dots, and it is exactly large enough for them. */
  lemma SheetDots(dots: seq<(nat, nat)>)
    requires dots != []
    ensures Dots(Sheet(dots)) == set i | 0 <= i < |dots| :: dots[i]
    ensures |Sheet(dots)| == MaxY(dots) + 1
    ensures forall y :: 0 <= y < |Sheet(dots)| ==> |Sheet(dots)[y]| == MaxX(dots) + 1
  {
    var g := Sheet(dots);
    forall d | d in Dots(g)
      ensures d in set i | 0 <= i < |dots| :: dots[i]
    {
      DotsMembership(g, d);
      var i :| 0 <= i < |dots| && dots[i] == d;
    }
    forall i | 0 <= i < |dots|
      ensures dots[i] in Dots(g)
    {
      DotsMembership(g, dots[i]);
    }
  }

  /** One more blank row. */
  lemma BlankRow(width: nat, height: nat)
    ensures Drawn([], width, height) + [seq(width, x => EMPTY)] == Drawn([], width, height + 1)
  {
    var g := Drawn([], width, height) + [seq(width, x => EMPTY)];
    forall y | 0 <= y <= height
      ensures g[y] == Drawn([], width, height + 1)[y]
    {
    }
  }

  /** Drawing one more dot sets its cell. */
  lemma DrawStep(dots: seq<(nat, nat)>, i: nat, width: nat, height: nat)
    requires i < |dots| && dots[i].0 < width && dots[i].1 < height
    ensures var g, d := Drawn(dots[..i], width, height), dots[i];
            g[d.1 := g[d.1][d.0 := DOT]] == Drawn(dots[..i + 1], width, height)
  {
    var drawn, d := dots[..i], dots[i];
    assert dots[..i + 1] == drawn + [d];
    var g := Drawn(drawn, width, height);
    var h := Drawn(drawn + [d], width, height);
    forall y | 0 <= y < height
      ensures g[d.1 := g[d.1][d.0 := DOT]][y] == h[y]
    {
      forall x | 0 <= x < width
        ensures g[d.1 := g[d.1][d.0 := DOT]][y][x] == h[y][x]
      {
        assert (x, y) in drawn + [d] <==> (x, y) in drawn || (x, y) == d;
      }
    }
  }

  /** The paper: the grid `create_paper` returns, which the folds change in place. */
  class Paper {
    var rows: Grid

    constructor (rows: Grid)
      ensures this.rows == rows
    {
      this.rows := rows;
    }

    // -------------------------------------------------------------------------
    // Folding left
    // -------------------------------------------------------------------------

    /**
     * `fold_left(paper, index)`: for `x` from 1 to `index`, every row gets a `#` at
     * `index - x` where it has one at `index + x`; then every row is cut to `index`
     * cells. Reading `index + x` raises unless every row is longer than `2 * index`.
     */
    method FoldLeft(index: nat)
      requires FitsLeft(rows, index)
      modifies this
      ensures rows == FoldedLeft(old(rows), index)
    {
      ghost var original := rows;
      for x := 1 to index + 1
        invariant |rows| == |original|
        invariant forall y :: 0 <= y < |rows| ==> rows[y] == MirroredLeft(original[y], index, x - 1)
      {
        MirrorColumn(original, index, x);
      }
      for y := 0 to |rows|
        invariant |rows| == |original|
        invariant forall y' :: 0 <= y' < y ==> rows[y'] == FoldedLeft(original, index)[y']
        invariant forall y' :: y <= y' < |rows| ==> rows[y'] == MirroredLeft(original[y'], index, index)
      {
        MirrorLeftCut(original, index, y);
        rows := rows[y := rows[y][..index]];
      }
    }

    /** The inner loop of `fold_left`: in every row, cell `index - x` takes the `#` of cell `index + x`. */
    method MirrorColumn(ghost original: Grid, index: nat, x: nat)
      requires FitsLeft(original, index) && 1 <= x <= index
      requires |rows| == |original|
      requires forall y :: 0 <= y < |rows| ==> rows[y] == MirroredLeft(original[y], index, x - 1)
      modifies this
      ensures |rows| == |original|
      ensures forall y :: 0 <= y < |rows| ==> rows[y] == MirroredLeft(original[y], index, x)
    {
      for y := 0 to |rows|
        invariant |rows| == |original|
        invariant forall y' :: 0 <= y' < y ==> rows[y'] == MirroredLeft(original[y'], index, x)
        invariant forall y' :: y <= y' < |rows| ==> rows[y'] == MirroredLeft(original[y'], index, x - 1)
      {
        MirrorLeftStep(original[y], index, x);
        if rows[y][index + x] == DOT {
          rows := rows[y := rows[y][index - x := DOT]];
        }
      }
    }

    // -------------------------------------------------------------------------
    // Folding up
    // -------------------------------------------------------------------------

    /**
     * `fold_up(paper, index)`: for `y` from 1 to `index`, row `index - y` gets a `#`
     * wherever row `index + y` has one, over the width of row 0; then the rows from
     * `index` on are removed.
     */
    method FoldUp(index: nat)
      requires FitsUp(rows, index)
      modifies this
      ensures rows == FoldedUp(old(rows), index)
    {
      ghost var original := rows;
      for y := 1 to index + 1
        invariant rows == MirroredUp(original, index, y - 1)
      {
        MirrorRow(original, index, y);
      }
      MirroredUpCut(original, index);
      rows := rows[..index];
    }

    /** The inner loop of `fold_up`: row `index - y` takes the `#` of row `index + y` across row 0's width. */
    method MirrorRow(ghost original: Grid, index: nat, y: nat)
      requires FitsUp(original, index) && 1 <= y <= index
      requires rows == MirroredUp(original, index, y - 1)
      modifies this
      ensures rows == MirroredUp(original, index, y)
    {
      MirroredUpWidth(original, index, y - 1);
      for x := 0 to |rows[0]|
        invariant rows == MirroredUp(original, index, y - 1)[index - y := PartialRow(original, index, index - y, x)]
      {
        PartialRowStep(original, index, y, x);
        if rows[index + y][x] == DOT {
          rows := rows[index - y := rows[index - y][x := DOT]];
        }
      }
      MirroredUpStep(original, index, y);
    }

    // -------------------------------------------------------------------------
    // Instructions and counting
    // -------------------------------------------------------------------------

    /** `fold(paper, instructions)`: the folds in order; axis `"x"` folds left, any other up. */
    method Fold(instructions: seq<Instruction>)
      requires FitsAll(rows, instructions)
      modifies this
      ensures rows == FoldedAll(old(rows), instructions)
    {
      for i := 0 to |instructions|
        invariant FitsAll(rows, instructions[i..])
        invariant FoldedAll(old(rows), instructions) == FoldedAll(rows, instructions[i..])
      {
        var (axis, line) := instructions[i];
        assert instructions[i..][1..] == instructions[i + 1..];
        if axis == "x" {
          FoldLeft(line as nat);
        } else {
          FoldUp(line as nat);
        }
      }
    }

    /** The counting loop of `first_fold_dot_count`: the number of `#` cells. */
    method CountDots() returns (result: nat)
      ensures result == |Dots(rows)|
    {
      result := 0;
      for y := 0 to |rows|
        invariant result == Marks(rows[..y])
      {
        var line := rows[y];
        for x := 0 to |line|
          invariant result == Marks(rows[..y]) + RowMarks(line[..x])
        {
          assert line[..x + 1][..x] == line[..x];
          if line[x] == DOT {
            result := result + 1;
          }
        }
        assert rows[..y + 1][..y] == rows[..y] && line[..|line|] == line;
      }
      assert rows[..|rows|] == rows;
      MarksAreDots(rows);
    }

    /**
     * `first_fold_dot_count`: folds along the first instruction only (none if there
     * are none), then returns the number of dots left visible.
     */
    method FirstFoldDotCount(instructions: seq<Instruction>) returns (result: nat)
      requires FitsAll(rows, instructions[..if |instructions| < 1 then |instructions| else 1])
      modifies this
      ensures rows == FoldedAll(old(rows), instructions[..if |instructions| < 1 then |instructions| else 1])
      ensures result == |Dots(rows)|
    {
      Fold(instructions[..if |instructions| < 1 then |instructions| else 1]);
      result := CountDots();
    }
  }

  /**
   * `create_paper(dots)`: `max_y + 1` rows of `max_x + 1` cells of `.`, then a `#` at
   * every dot. `max` of no dots raises.
   */
  method CreatePaper(dots: seq<(nat, nat)>) returns (r: Option<Paper>)
    ensures r.None? <==> dots == []
    ensures r.Some? ==> fresh(r.value) && r.value.rows == Sheet(dots)
  {
    if dots == [] {
      return None;
    }
    var maxX := MaxX(dots);
    var maxY := MaxY(dots);
    var rows := BlankPaper(maxX + 1, maxY + 1);
    for i := 0 to |dots|
      invariant rows == Drawn(dots[..i], maxX + 1, maxY + 1)
    {
      var d := dots[i];
      DrawStep(dots, i, maxX + 1, maxY + 1);
      rows := rows[d.1 := rows[d.1][d.0 := DOT]];
    }
    assert dots[..|dots|] == dots;
    var paper := new Paper(rows);
    return Some(paper);
  }

  /** Lines 7-8: `height` rows of `width` cells of `.`. */
  method BlankPaper(width: nat, height: nat) returns (rows: Grid)
    ensures rows == Drawn([], width, height)
  {
    rows := [];
    for y := 0 to height
      invariant rows == Drawn([], width, y)
    {
      BlankRow(width, y);
      rows := rows + [seq(width, x => EMPTY)];
    }
  }

  // ---------------------------------------------------------------------------
  // What a fold does
  // ---------------------------------------------------------------------------

  /** Every row reaches past `2 * index`, so `fold_left` can read `index + x` for `x <= index`. */
  predicate FitsLeft(g: Grid, index: nat)
  {
    index == 0 || forall y :: 0 <= y < |g| ==> |g[y]| > 2 * index
  }

  /**
   * There are rows up to `2 * index`, each but row `index` as wide as row 0, so `fold_up` can read
   * row `index + y` for `y <= index` across the width of row 0.
   */
  predicate FitsUp(g: Grid, index: nat)
  {
    index == 0 || (|g| > 2 * index && forall y :: 0 <= y <= 2 * index && y != index ==> |g[y]| >= |g[0]|)
  }

  /** The paper after `fold_left(index)`: cell `[y][c]` is `#` if it or its mirror `[y][2 * index - c]` was. */
  function FoldedLeft(g: Grid, index: nat): (r: Grid)
    requires FitsLeft(g, index)
  {
    seq(|g|, y requires 0 <= y < |g| =>
      seq(index, c requires 0 <= c < index => if g[y][2 * index - c] == DOT then DOT else g[y][c]))
  }

  /** The paper after `fold_up(index)`: row `r` gains the `#` of its mirror row `2 * index - r`, within row 0's width. */
  function FoldedUp(g: Grid, index: nat): (r: Grid)
    requires FitsUp(g, index)
  {
    seq(index, r requires 0 <= r < index =>
      seq(|g[r]|, x requires 0 <= x < |g[r]| => if x < |g[0]| && g[2 * index - r][x] == DOT then DOT else g[r][x]))
  }

  /** A fold instruction can be carried out on the grid without raising. */
  predicate Fits(g: Grid, instruction: Instruction)
  {
    instruction.1 >= 0
    && (instruction.0 == "x" ==> FitsLeft(g, instruction.1))
    && (instruction.0 != "x" ==> FitsUp(g, instruction.1))
  }

  /** The grid after one instruction. */
  function Folded(g: Grid, instruction: Instruction): Grid
    requires Fits(g, instruction)
  {
    if instruction.0 == "x" then FoldedLeft(g, instruction.1) else FoldedUp(g, instruction.1)
  }

  /** Every instruction in turn can be carried out. */
  predicate FitsAll(g: Grid, instructions: seq<Instruction>)
    decreases |instructions|
  {
    instructions == [] || (Fits(g, instructions[0]) && FitsAll(Folded(g, instructions[0]), instructions[1..]))
  }

  /** The grid after all the instructions in order. */
  function FoldedAll(g: Grid, instructions: seq<Instruction>): Grid
    requires FitsAll(g, instructions)
    decreases |instructions|
  {
    if instructions == [] then g else FoldedAll(Folded(g, instructions[0]), instructions[1..])
  }

  /**
   * Folding left keeps the dots left of the line, moves each dot right of it (up to
   * twice the line) to its mirror image, and loses the dots on the line and beyond.
   */
  lemma FoldLeftDots(g: Grid, index: nat)
    requires FitsLeft(g, index)
    ensures Dots(FoldedLeft(g, index))
         == (set d | d in Dots(g) && d.0 < index)
          + (set d | d in Dots(g) && index < d.0 <= 2 * index :: (2 * index - d.0, d.1))
  {
    var kept := set d | d in Dots(g) && d.0 < index;
    var moved := set d | d in Dots(g) && index < d.0 <= 2 * index :: (2 * index - d.0, d.1);
    var folded := Dots(FoldedLeft(g, index));
    forall d: (nat, nat)
      ensures d in folded <==> d in kept || d in moved
    {
      FoldedLeftCell(g, index, d);
      MovedLeft(g, index, d);
    }
    assert folded == kept + moved;
  }

  /** A cell of the paper folded left is `#` where it or its mirror cell was. */
  lemma FoldedLeftCell(g: Grid, index: nat, d: (nat, nat))
    requires FitsLeft(g, index)
    ensures d in Dots(FoldedLeft(g, index))
        <==> d.0 < index && (d in Dots(g) || (2 * index - d.0, d.1) in Dots(g))
  {
    DotsMembership(FoldedLeft(g, index), d);
    DotsMembership(g, d);
    if d.0 < index {
      DotsMembership(g, (2 * index - d.0, d.1));
    }
  }

  /** The mirror images of the dots right of the line are the cells whose mirror is a dot. */
  lemma MovedLeft(g: Grid, index: nat, d: (nat, nat))
    ensures d in (set e | e in Dots(g) && index < e.0 <= 2 * index :: (2 * index - e.0, e.1))
        <==> d.0 < index && (2 * index - d.0, d.1) in Dots(g)
  {
    var moved := set e | e in Dots(g) && index < e.0 <= 2 * index :: (2 * index - e.0, e.1);
    if d.0 < index && (2 * index - d.0, d.1) in Dots(g) {
      var m: (nat, nat) := (2 * index - d.0, d.1);
      assert d == (2 * index - m.0, m.1);
    }
  }

  /**
   * Folding up keeps the dots above the line, moves each dot below it (up to twice
   * the line, within row 0's width) to its mirror image, and loses the rest.
   */
  lemma FoldUpDots(g: Grid, index: nat)
    requires FitsUp(g, index)
    ensures Dots(FoldedUp(g, index))
         == (set d | d in Dots(g) && d.1 < index)
          + (set d | d in Dots(g) && index < d.1 <= 2 * index && d.0 < |g[0]| :: (d.0, 2 * index - d.1))
  {
    var kept := set d | d in Dots(g) && d.1 < index;
    var moved := set d | d in Dots(g) && index < d.1 <= 2 * index && d.0 < |g[0]| :: (d.0, 2 * index - d.1);
    var folded := Dots(FoldedUp(g, index));
    forall d: (nat, nat)
      ensures d in folded <==> d in kept || d in moved
    {
      FoldedUpCell(g, index, d);
      if g != [] {
        MovedUp(g, index, d);
      }
    }
    assert folded == kept + moved;
  }

  /** A cell of the paper folded up is `#` where it or, within row 0's width, its mirror cell was. */
  lemma FoldedUpCell(g: Grid, index: nat, d: (nat, nat))
    requires FitsUp(g, index)
    ensures d in Dots(FoldedUp(g, index))
        <==> d.1 < index && (d in Dots(g) || (d.0 < |g[0]| && (d.0, 2 * index - d.1) in Dots(g)))
  {
    DotsMembership(FoldedUp(g, index), d);
    DotsMembership(g, d);
    if d.1 < index {
      DotsMembership(g, (d.0, 2 * index - d.1));
    }
  }

  /** The mirror images of the dots below the line are the cells whose mirror is a dot. */
  lemma MovedUp(g: Grid, index: nat, d: (nat, nat))
    requires g != []
    ensures d in (set e | e in Dots(g) && index < e.1 <= 2 * index && e.0 < |g[0]| :: (e.0, 2 * index - e.1))
        <==> d.1 < index && d.0 < |g[0]| && (d.0, 2 * index - d.1) in Dots(g)
  {
    if d.1 < index && d.0 < |g[0]| && (d.0, 2 * index - d.1) in Dots(g) {
      var m: (nat, nat) := (d.0, 2 * index - d.1);
      assert d == (m.0, 2 * index - m.1);
    }
  }

  // ---------------------------------------------------------------------------
  // The loop states of the folds
  // ---------------------------------------------------------------------------

  /** A row after the first `k` columns left of the line have taken their mirror's `#`. */
  function MirroredLeft(row: seq<char>, index: nat, k: nat): (r: seq<char>)
    requires k <= index && (index == 0 || |row| > 2 * index)
    ensures |r| == |row|
  {
    seq(|row|, c requires 0 <= c < |row| => if index - k <= c < index && row[2 * index - c] == DOT then DOT else row[c])
  }

  /** One more column of `fold_left`: cell `index - x` takes the `#` of cell `index + x`. */
  lemma MirrorLeftStep(row: seq<char>, index: nat, x: nat)
    requires 1 <= x <= index && |row| > 2 * index
    ensures var m := MirroredLeft(row, index, x - 1);
            m[index + x] == row[index + x]
            && (if row[index + x] == DOT then m[index - x := DOT] else m) == MirroredLeft(row, index, x)
  {
  }

  /** Cutting a fully mirrored row to `index` cells gives the folded row. */
  lemma MirrorLeftCut(g: Grid, index: nat, y: nat)
    requires FitsLeft(g, index) && y < |g|
    ensures MirroredLeft(g[y], index, index)[..index] == FoldedLeft(g, index)[y]
  {
  }

  /** One cell more of row `r` has taken the `#` of its mirror row: the first `n` cells. */
  function PartialRow(g: Grid, index: nat, r: nat, n: nat): (row: seq<char>)
    requires FitsUp(g, index) && r < index && n <= |g[0]|
    ensures |row| == |g[r]|
  {
    seq(|g[r]|, x requires 0 <= x < |g[r]| => if x < n && g[2 * index - r][x] == DOT then DOT else g[r][x])
  }

  /** The grid once the `k` rows just above the line have taken their mirror rows' `#`. */
  function MirroredUp(g: Grid, index: nat, k: nat): (m: Grid)
    requires FitsUp(g, index) && k <= index
    ensures |m| == |g|
  {
    seq(|g|, r requires 0 <= r < |g| => if index - k <= r < index then PartialRow(g, index, r, |g[0]|) else g[r])
  }

  lemma MirroredUpWidth(g: Grid, index: nat, k: nat)
    requires FitsUp(g, index) && k < index
    ensures |MirroredUp(g, index, k)[0]| == |g[0]|
    ensures MirroredUp(g, index, k)[index - k - 1] == g[index - k - 1] == PartialRow(g, index, index - k - 1, 0)
  {
  }

  /** One more cell of `fold_up`: cell `[index - y][x]` takes the `#` of `[index + y][x]`. */
  lemma PartialRowStep(g: Grid, index: nat, y: nat, x: nat)
    requires FitsUp(g, index) && 1 <= y <= index && x < |g[0]|
    ensures var m := MirroredUp(g, index, y - 1)[index - y := PartialRow(g, index, index - y, x)];
            && m[index + y] == g[index + y]
            && m[index - y] == PartialRow(g, index, index - y, x)
            && (if g[index + y][x] == DOT then m[index - y := m[index - y][x := DOT]] else m)
               == MirroredUp(g, index, y - 1)[index - y := PartialRow(g, index, index - y, x + 1)]
  {
    assert 2 * index - (index - y) == index + y;
    var before := PartialRow(g, index, index - y, x);
    var after := PartialRow(g, index, index - y, x + 1);
    if g[index + y][x] == DOT {
      assert before[x := DOT] == after;
    } else {
      assert before == after;
    }
  }

  /** A row fully mirrored is one more row of the fold done. */
  lemma MirroredUpStep(g: Grid, index: nat, y: nat)
    requires FitsUp(g, index) && 1 <= y <= index
    ensures MirroredUp(g, index, y - 1)[index - y := PartialRow(g, index, index - y, |g[0]|)] == MirroredUp(g, index, y)
  {
  }

  /** Removing the rows from the line on leaves the folded paper. */
  lemma MirroredUpCut(g: Grid, index: nat)
    requires FitsUp(g, index)
    ensures MirroredUp(g, index, index)[..index] == FoldedUp(g, index)
  {
  }

  // ---------------------------------------------------------------------------
  // Reading an instruction
  // ---------------------------------------------------------------------------

  /**
   * `create_instruction(raw)`: the last whitespace-separated word, split at `=`, gives
   * the axis and the line. No word, no `=` or a line that is not an integer raises.
   */
  function CreateInstruction(raw: string): Option<Instruction>
  {
    var words := PyText.Words(raw);
    if words == [] then None
    else
      var parts := PyText.Split(words[|words| - 1], "=");
      if |parts| < 2 then None
      else match PyText.ParseInt(parts[1])
        case None => None
        case Some(line) => Some((parts[0], line))
  }

  /**
   * `create_instruction` needs a word with an `=` in it: the axis it returns is the
   * last word up to its first `=`.
   */
  lemma CreateInstructionShape(raw: string)
    ensures PyText.Words(raw) == [] ==> CreateInstruction(raw).None?
    ensures var words := PyText.Words(raw);
            words != [] && PyText.Find(words[|words| - 1], "=").None? ==> CreateInstruction(raw).None?
    ensures CreateInstruction(raw).Some? ==>
              var words := PyText.Words(raw);
              && words != []
              && CreateInstruction(raw).value.0 + "=" <= words[|words| - 1]
              && PyText.Find(CreateInstruction(raw).value.0, "=").None?
  {
    var words := PyText.Words(raw);
    if words != [] {
      PyText.SplitHead(words[|words| - 1], "=");
    }
  }

  /** `create_instruction` reads back an instruction line of the puzzle input. */
  lemma CreateInstructionReads(axis: string, line: int)
    requires PyText.NoSpace(axis) && forall i :: 0 <= i < |axis| ==> axis[i] != '='
    ensures CreateInstruction("fold along " + axis + "=" + PyText.Show(line)) == Some((axis, line))
  {
    var shown := PyText.Show(line);
    var word := axis + "=" + shown;
    assert "fold along " + axis + "=" + shown == "fold along " + word;
    InstructionWords(axis, line);
    var words := ["fold", "along", word];
    assert words[|words| - 1] == word;
    PyText.SplitOnce(axis, "=", shown);
    var parts := [axis, shown];
    assert parts[1] == shown;
    PyText.ParseShow(line);
  }

  /** An instruction line is three words, the last one `axis=line`. */
  lemma InstructionWords(axis: string, line: int)
    requires PyText.NoSpace(axis) && forall i :: 0 <= i < |axis| ==> axis[i] != '='
    ensures var word := axis + "=" + PyText.Show(line);
            PyText.Words("fold along " + word) == ["fold", "along", word]
  {
    var shown := PyText.Show(line);
    PyText.ShowChars(line);
    var word := axis + "=" + shown;
    assert PyText.NoSpace(word) by {
      forall i | 0 <= i < |word|
        ensures !PyText.IsSpace(word[i])
      {
        if i < |axis| {
          assert word[i] == axis[i];
        } else if i > |axis| {
          assert word[i] == shown[i - |axis| - 1];
        }
      }
    }
    var ws := ["fold", "along", word];
    assert ws[1..] == ["along", word] && ws[1..][1..] == [word];
    assert PyText.Unwords([word]) == word;
    assert PyText.Unwords(ws[1..]) == "along" + " " + word;
    assert PyText.Unwords(ws) == "fold" + " " + ("along" + " " + word);
    assert "fold along " + word == PyText.Unwords(ws);
    PyText.WordsUnwords(ws);
  }
}
