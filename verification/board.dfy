/**
 * The binairo board of board.rs: a fixed 12x12 grid stored row-major as 144
 * byte cells, where 0 marks an open cell and 1, 2 and 3 are the symbols.
 *
 * The board is modelled as an immutable value. Operations that mutate the
 * grid in place in the program take the current grid and return the grid
 * they leave behind, so that "the probe restores the grid" is a statement
 * about a returned value.
 */
module BoardModel {

  /** An unsigned byte, the type of every cell. */
  newtype u8 = x: int | 0 <= x < 256

  /** The open (unassigned) cell value. */
  const OPEN: u8 := 0
  /** Side length of the grid. */
  const DIM: nat := 12
  /** Number of cells. */
  const SIZE: nat := DIM * DIM
  /** How often one symbol may occur in a row or a column. */
  const MAX_OCCURRENCES: nat := 4

  /** A full grid of cells; square 0 is the upper left one. */
  type Field = s: seq<u8> | |s| == SIZE witness seq(SIZE, _ => OPEN)

  datatype Board = Board(squares: Field)

  datatype Option<T> = None | Some(value: T)

  // ---------------------------------------------------------------------
  // Geometry and cell access
  // ---------------------------------------------------------------------

  /** Column and row `(x, y)` of a linear square index. */
  function GetCoord(square: nat): (c: (nat, nat))
    ensures c.0 < DIM
    ensures c.1 * DIM + c.0 == square
    ensures square < SIZE ==> c.1 < DIM
  {
    (square % DIM, square / DIM)
  }

  /** Coordinates and linear indices are inverse to each other. */
  lemma CoordRoundTrip(x: nat, y: nat)
    requires x < DIM && y < DIM
    ensures y * DIM + x < SIZE
    ensures GetCoord(y * DIM + x) == (x, y)
  {
  }

  /** The value of a square: the cell of its row at its column. */
  function GetSquareValue(b: Field, square: nat): (v: u8)
    requires square < SIZE
    ensures v == GetRow(b, GetCoord(square).1)[GetCoord(square).0]
    ensures v == GetColumn(b, GetCoord(square).0)[GetCoord(square).1]
  {
    b[square]
  }

  function SetSquareValue(b: Field, index: nat, value: u8): (r: Field)
    requires index < SIZE
    ensures r[index] == value
    ensures forall j :: 0 <= j < SIZE && j != index ==> r[j] == b[j]
  {
    b[index := value]
  }

  /** Reading a square after writing one sees the write only at that square. */
  lemma GetAfterSet(b: Field, index: nat, value: u8, square: nat)
    requires index < SIZE && square < SIZE
    ensures GetSquareValue(SetSquareValue(b, index, value), square)
            == if square == index then value else GetSquareValue(b, square)
  {
  }

  /** The cells of row `y`, left to right. */
  function GetRow(b: Field, y: nat): (row: seq<u8>)
    requires y < DIM
    ensures |row| == DIM
    ensures forall i :: 0 <= i < DIM ==> row[i] == b[y * DIM + i]
  {
    b[y * DIM .. y * DIM + DIM]
  }

  /** The cells of column `x`, top to bottom. */
  function GetColumn(b: Field, x: nat): (col: seq<u8>)
    requires x < DIM
    ensures |col| == DIM
    ensures forall i :: 0 <= i < DIM ==> col[i] == b[x + i * DIM]
  {
    seq(DIM, i requires 0 <= i < DIM => b[x + i * DIM])
  }

  /** The row and the column through a square both hold that square's value at its coordinate. */
  lemma LinesThroughSquare(b: Field, square: nat)
    requires square < SIZE
    ensures GetRow(b, GetCoord(square).1)[GetCoord(square).0] == b[square]
    ensures GetColumn(b, GetCoord(square).0)[GetCoord(square).1] == b[square]
  {
  }

  /** Writing a square changes its own row at its column, and no other row. */
  lemma RowAfterSet(b: Field, index: nat, value: u8, y: nat)
    requires index < SIZE && y < DIM
    ensures GetRow(b[index := value], y)
            == if GetCoord(index).1 == y then GetRow(b, y)[GetCoord(index).0 := value] else GetRow(b, y)
  {
  }

  /** Writing a square changes its own column at its row, and no other column. */
  lemma ColumnAfterSet(b: Field, index: nat, value: u8, x: nat)
    requires index < SIZE && x < DIM
    ensures GetColumn(b[index := value], x)
            == if GetCoord(index).0 == x then GetColumn(b, x)[GetCoord(index).1 := value] else GetColumn(b, x)
  {
  }

  // ---------------------------------------------------------------------
  // Line predicates: runs and occurrence counts
  // ---------------------------------------------------------------------

  /** Length of the run of `v` that starts at position `i` and extends right. */
  function RunRight(line: seq<u8>, i: nat, v: u8): (n: nat)
    decreases |line| - i
  {
    if i < |line| && line[i] == v then 1 + RunRight(line, i + 1, v) else 0
  }

  /** Length of the run of `v` that ends just left of position `i`. */
  function RunLeft(line: seq<u8>, i: nat, v: u8): (n: nat)
    requires i <= |line|
  {
    if 0 < i && line[i - 1] == v then 1 + RunLeft(line, i - 1, v) else 0
  }

  /** Three consecutive copies of `v` start at position `k`. */
  predicate TripleAt(line: seq<u8>, k: nat, v: u8)
    requires k + 2 < |line|
  {
    line[k] == v && line[k + 1] == v && line[k + 2] == v
  }

  /** No three consecutive copies of `v` cover position `p`. */
  predicate NoTripleThrough(line: seq<u8>, p: nat, v: u8)
  {
    forall k: nat :: k <= p <= k + 2 && k + 2 < |line| ==> !TripleAt(line, k, v)
  }

  /** Number of cells of `line` equal to `v`. */
  function Count(line: seq<u8>, v: u8): (n: nat)
  {
    if line == [] then 0 else (if line[0] == v then 1 else 0) + Count(line[1..], v)
  }

  /** Count agrees with the multiplicity of `v` in the multiset of the line's cells. */
  lemma {:induction false} CountIsMultiset(line: seq<u8>, v: u8)
    ensures Count(line, v) == multiset(line)[v]
  {
    if line != [] {
      CountIsMultiset(line[1..], v);
      assert line == [line[0]] + line[1..];
    }
  }

  /**
   * The two checks the oracle makes on one line through the probed square at
   * position `p`: fewer than two copies of `v` adjoin `p`, and `v` is OPEN or
   * occurs at most MAX_OCCURRENCES times.
   */
  predicate LineFits(line: seq<u8>, p: nat, v: u8)
    requires p <= |line|
  {
    && RunLeft(line, p, v) + RunRight(line, p + 1, v) < 2
    && (v == OPEN || Count(line, v) <= MAX_OCCURRENCES)
  }

  /**
   * With `v` at position `p`, the neighbouring runs of `v` add up to fewer than
   * two exactly when no triple of `v` covers `p`.
   */
  lemma RunsIffNoTriple(line: seq<u8>, p: nat, v: u8)
    requires p < |line| && line[p] == v
    ensures RunLeft(line, p, v) + RunRight(line, p + 1, v) < 2 <==> NoTripleThrough(line, p, v)
  {
    var left, right := RunLeft(line, p, v), RunRight(line, p + 1, v);
    assert left >= 1 <==> 1 <= p && line[p - 1] == v;
    assert left >= 2 <==> 2 <= p && line[p - 1] == v && line[p - 2] == v;
    assert right >= 1 <==> p + 1 < |line| && line[p + 1] == v;
    assert right >= 1 ==> right == 1 + RunRight(line, p + 2, v);
    assert right >= 2 <==> p + 2 < |line| && line[p + 1] == v && line[p + 2] == v;
    if left + right >= 2 {
      if left >= 2 {
        assert TripleAt(line, p - 2, v);
      } else if right >= 2 {
        assert TripleAt(line, p, v);
      } else {
        assert TripleAt(line, p - 1, v);
      }
    }
  }

  /**
   * With `v` at position `p`, the line checks hold exactly when no triple of
   * `v` covers `p` and `v` is OPEN or occurs at most MAX_OCCURRENCES times.
   */
  lemma LineFitsMeaning(line: seq<u8>, p: nat, v: u8)
    requires p < |line| && line[p] == v
    ensures LineFits(line, p, v)
            <==> NoTripleThrough(line, p, v) && (v == OPEN || multiset(line)[v] <= MAX_OCCURRENCES)
  {
    RunsIffNoTriple(line, p, v);
    CountIsMultiset(line, v);
  }

  /**
   * The shared scan of square_fits_in_row and value_fits_in_column: counts the
   * cells equal to `value` immediately right of `p`, then immediately left of
   * it, and accepts when there are fewer than two.
   */
  method FitsRun(line: seq<u8>, p: nat, value: u8) returns (fits: bool)
    requires p <= |line|
    ensures fits <==> RunLeft(line, p, value) + RunRight(line, p + 1, value) < 2
  {
    var count := 0;
    var i := p + 1;
    while i < |line|
      invariant p + 1 <= i
      invariant count + RunRight(line, i, value) == RunRight(line, p + 1, value)
      decreases |line| - i
    {
      if line[i] != value {
        break;
      }
      count := count + 1;
      i := i + 1;
    }
    assert count == RunRight(line, p + 1, value);

    if p > 0 {
      i := p - 1;
      while true
        invariant i < p
        invariant count + RunLeft(line, i + 1, value)
                  == RunRight(line, p + 1, value) + RunLeft(line, p, value)
        decreases i
      {
        if line[i] != value {
          break;
        }
        count := count + 1;
        if i == 0 {
          break;
        }
        i := i - 1;
      }
    }
    fits := count < 2;
  }

  /** Placing `value` at column `x` of row `y` creates no run of three. */
  method SquareFitsInRow(b: Field, x: nat, y: nat, value: u8) returns (fits: bool)
    requires x <= DIM && y < DIM
    ensures fits <==> RunLeft(GetRow(b, y), x, value) + RunRight(GetRow(b, y), x + 1, value) < 2
    ensures x < DIM && b[y * DIM + x] == value ==> (fits <==> NoTripleThrough(GetRow(b, y), x, value))
  {
    var row := GetRow(b, y);
    fits := FitsRun(row, x, value);
    if x < DIM && b[y * DIM + x] == value {
      RunsIffNoTriple(row, x, value);
    }
  }

  /** Placing `value` at row `y` of column `x` creates no run of three. */
  method ValueFitsInColumn(b: Field, x: nat, y: nat, value: u8) returns (fits: bool)
    requires x < DIM && y <= DIM
    ensures fits <==> RunLeft(GetColumn(b, x), y, value) + RunRight(GetColumn(b, x), y + 1, value) < 2
    ensures y < DIM && b[x + y * DIM] == value ==> (fits <==> NoTripleThrough(GetColumn(b, x), y, value))
  {
    var col := GetColumn(b, x);
    fits := FitsRun(col, y, value);
    if y < DIM && b[x + y * DIM] == value {
      RunsIffNoTriple(col, y, value);
    }
  }

  /** `value` is OPEN or occurs at most MAX_OCCURRENCES times in `line`. */
  method FitsCount(line: seq<u8>, value: u8) returns (fits: bool)
    ensures fits <==> value == OPEN || multiset(line)[value] <= MAX_OCCURRENCES
  {
    if value == OPEN {
      return true;
    }
    var count := 0;
    var i := 0;
    while i < |line|
      invariant i <= |line|
      invariant count == multiset(line[..i])[value]
    {
      if line[i] == value {
        count := count + 1;
      }
      assert line[..i + 1] == line[..i] + [line[i]];
      i := i + 1;
    }
    assert line[..i] == line;
    fits := count <= MAX_OCCURRENCES;
  }

  // ---------------------------------------------------------------------
  // The constraint oracle
  // ---------------------------------------------------------------------

  /**
   * With `value` written at `index`, both the row and the column through
   * `index` keep the no-triples rule at that square and the occurrence cap.
   */
  predicate ValidPlacement(b: Field, index: nat, value: u8)
    requires index < SIZE
  {
    RowFits(b, index, value) && ColumnFits(b, index, value)
  }

  /** With `value` written at `index`, the row through `index` fits at that square. */
  predicate RowFits(b: Field, index: nat, value: u8)
    requires index < SIZE
  {
    LineFits(GetRow(b[index := value], GetCoord(index).1), GetCoord(index).0, value)
  }

  /** With `value` written at `index`, the column through `index` fits at that square. */
  predicate ColumnFits(b: Field, index: nat, value: u8)
    requires index < SIZE
  {
    LineFits(GetColumn(b[index := value], GetCoord(index).0), GetCoord(index).1, value)
  }

  /**
   * The oracle's promise in the terms of the rules: with `value` written at
   * `index`, neither the row nor the column through `index` has three copies
   * of `value` in a row covering the square, and `value` is OPEN or occurs at
   * most MAX_OCCURRENCES times in each of them.
   */
  lemma ValidPlacementMeaning(b: Field, index: nat, value: u8)
    requires index < SIZE
    ensures ValidPlacement(b, index, value)
            <==> var c, x, y := b[index := value], GetCoord(index).0, GetCoord(index).1;
                 && NoTripleThrough(GetRow(c, y), x, value)
                 && NoTripleThrough(GetColumn(c, x), y, value)
                 && (value == OPEN
                     || (multiset(GetRow(c, y))[value] <= MAX_OCCURRENCES
                         && multiset(GetColumn(c, x))[value] <= MAX_OCCURRENCES))
  {
    var c, x, y := b[index := value], GetCoord(index).0, GetCoord(index).1;
    LinesThroughSquare(c, index);
    LineFitsMeaning(GetRow(c, y), x, value);
    LineFitsMeaning(GetColumn(c, x), y, value);
  }

  /**
   * valid_square_value: writes the candidate, runs the run and count checks on
   * the row and column, then writes the old value back. Returns the verdict
   * and the grid it leaves behind.
   */
  method ValidSquareValue(b: Field, index: nat, value: u8) returns (valid: bool, restored: Field)
    requires index < SIZE
    ensures restored == b
    ensures valid <==> ValidPlacement(b, index, value)
  {
    var oldValue := GetSquareValue(b, index);
    var probe := SetSquareValue(b, index, value);

    var (x, y) := GetCoord(index);
    var fitsRow := SquareFitsInRow(probe, x, y, value);
    var fitsColumn := ValueFitsInColumn(probe, x, y, value);

    var row := GetRow(probe, y);
    var col := GetColumn(probe, x);
    var fitsCount := FitsCount(row, value);
    if fitsCount {
      fitsCount := FitsCount(col, value);
    }

    restored := SetSquareValue(probe, index, oldValue);
    assert restored == b;

    valid := fitsRow && fitsColumn && fitsCount;
    CountIsMultiset(row, value);
    CountIsMultiset(col, value);
    assert probe == b[index := value];
    assert RowFits(b, index, value) == LineFits(row, x, value);
    assert ColumnFits(b, index, value) == LineFits(col, y, value);
  }

  /** Every filled square passes the oracle against the grid as it stands. */
  predicate IsValidBoard(b: Field)
  {
    ValidBefore(b, SIZE)
  }

  /** Every filled square below `n` passes the oracle against the grid as it stands. */
  predicate ValidBefore(b: Field, n: nat)
    requires n <= SIZE
  {
    forall i {:trigger ValidPlacement(b, i, b[i])} :: 0 <= i < n && b[i] != OPEN ==> ValidPlacement(b, i, b[i])
  }

  /** Extending the checked prefix by one square adds that square's own check. */
  lemma ValidBeforeStep(b: Field, i: nat)
    requires i < SIZE
    ensures ValidBefore(b, i + 1)
            <==> ValidBefore(b, i) && (b[i] != OPEN ==> ValidPlacement(b, i, b[i]))
  {
  }

  /** valid_board: runs the oracle over every filled square, skipping open ones. */
  method ValidBoard(b: Field) returns (success: bool)
    ensures success <==> IsValidBoard(b)
  {
    success := true;
    var cur := b;
    for i := 0 to SIZE
      invariant cur == b
      invariant success <==> ValidBefore(b, i)
    {
      ValidBeforeStep(b, i);
      var value := GetSquareValue(cur, i);
      if value == OPEN {
        continue;
      }
      var ok;
      ok, cur := ValidSquareValue(cur, i, value);
      if !ok {
        success := false;
      }
    }
  }

  /** Board::new: accepts the field exactly when every filled square is valid. */
  method NewBoard(squares: Field) returns (r: Option<Board>)
    ensures r.Some? <==> IsValidBoard(squares)
    ensures r.Some? ==> r.value.squares == squares
  {
    var ok := ValidBoard(squares);
    if !ok {
      return None;
    }
    return Some(Board(squares));
  }

  // ---------------------------------------------------------------------
  // Board-wide view of validity
  // ---------------------------------------------------------------------

  /** No symbol forms a triple in `line`, and no symbol occurs more than the cap. */
  predicate LineConsistent(line: seq<u8>)
  {
    && (forall k: nat :: k + 2 < |line| && line[k] != OPEN ==> !TripleAt(line, k, line[k]))
    && (forall i :: 0 <= i < |line| && line[i] != OPEN ==> multiset(line)[line[i]] <= MAX_OCCURRENCES)
  }

  /** Every row and every column is consistent. */
  predicate LinesConsistent(b: Field)
  {
    && (forall y :: 0 <= y < DIM ==> LineConsistent(GetRow(b, y)))
    && (forall x :: 0 <= x < DIM ==> LineConsistent(GetColumn(b, x)))
  }

  /** A line is consistent exactly when every filled cell of it passes the line checks. */
  lemma LineConsistentIff(line: seq<u8>)
    ensures LineConsistent(line)
            <==> forall p :: 0 <= p < |line| && line[p] != OPEN ==> LineFits(line, p, line[p])
  {
    forall p | 0 <= p < |line| {
      LineFitsMeaning(line, p, line[p]);
    }
    if LineConsistent(line) {
      forall p, k: nat | 0 <= p < |line| && line[p] != OPEN && k <= p <= k + 2 && k + 2 < |line|
        ensures !TripleAt(line, k, line[p])
      {
        if line[k] == line[p] {
          assert !TripleAt(line, k, line[k]);
        }
      }
    }
    if forall p :: 0 <= p < |line| && line[p] != OPEN ==> LineFits(line, p, line[p]) {
      forall k: nat | k + 2 < |line| && line[k] != OPEN
        ensures !TripleAt(line, k, line[k])
      {
        assert NoTripleThrough(line, k, line[k]);
      }
    }
  }

  /** For a filled square, the oracle's row and column checks read the grid as it stands. */
  lemma PlacementOfOwnValue(b: Field, i: nat)
    requires i < SIZE
    ensures RowFits(b, i, b[i]) == LineFits(GetRow(b, GetCoord(i).1), GetCoord(i).0, b[i])
    ensures ColumnFits(b, i, b[i]) == LineFits(GetColumn(b, GetCoord(i).0), GetCoord(i).1, b[i])
  {
    assert b[i := b[i]] == b;
  }

  /** In a valid grid every row is consistent. */
  lemma RowConsistentWhenValid(b: Field, y: nat)
    requires y < DIM && IsValidBoard(b)
    ensures LineConsistent(GetRow(b, y))
  {
    var row := GetRow(b, y);
    forall p | 0 <= p < DIM && row[p] != OPEN
      ensures LineFits(row, p, row[p])
    {
      CoordRoundTrip(p, y);
      var i := y * DIM + p;
      assert ValidPlacement(b, i, b[i]);
      PlacementOfOwnValue(b, i);
    }
    LineConsistentIff(row);
  }

  /** In a valid grid every column is consistent. */
  lemma ColumnConsistentWhenValid(b: Field, x: nat)
    requires x < DIM && IsValidBoard(b)
    ensures LineConsistent(GetColumn(b, x))
  {
    var col := GetColumn(b, x);
    forall p | 0 <= p < DIM && col[p] != OPEN
      ensures LineFits(col, p, col[p])
    {
      CoordRoundTrip(x, p);
      var i := p * DIM + x;
      assert ValidPlacement(b, i, b[i]);
      PlacementOfOwnValue(b, i);
    }
    LineConsistentIff(col);
  }

  /** When every line is consistent, every filled square passes the oracle. */
  lemma SquareValidWhenLinesConsistent(b: Field, i: nat)
    requires i < SIZE && b[i] != OPEN && LinesConsistent(b)
    ensures ValidPlacement(b, i, b[i])
  {
    var c := GetCoord(i);
    LineConsistentIff(GetRow(b, c.1));
    LineConsistentIff(GetColumn(b, c.0));
    LinesThroughSquare(b, i);
    PlacementOfOwnValue(b, i);
  }

  /**
   * The oracle accepts every filled square exactly when every row and every
   * column is free of triples and within the occurrence cap.
   */
  lemma ValidBoardIffLinesConsistent(b: Field)
    ensures IsValidBoard(b) <==> LinesConsistent(b)
  {
    if IsValidBoard(b) {
      forall y | 0 <= y < DIM ensures LineConsistent(GetRow(b, y)) {
        RowConsistentWhenValid(b, y);
      }
      forall x | 0 <= x < DIM ensures LineConsistent(GetColumn(b, x)) {
        ColumnConsistentWhenValid(b, x);
      }
    }
    if LinesConsistent(b) {
      forall i | 0 <= i < SIZE && b[i] != OPEN ensures ValidPlacement(b, i, b[i]) {
        SquareValidWhenLinesConsistent(b, i);
      }
    }
  }

  /** Filling an open square of a line with a value that fits keeps the other filled squares fitting. */
  lemma LineFitsAfterFill(line: seq<u8>, q: nat, v: u8, p: nat, w: u8)
    requires q < |line| && p < |line| && p != q
    requires line[q] == OPEN && v != OPEN && line[p] == w && w != OPEN
    requires LineFits(line, p, w)
    requires LineFits(line[q := v], q, v)
    ensures LineFits(line[q := v], p, w)
  {
    var filled := line[q := v];
    LineFitsMeaning(line, p, w);
    LineFitsMeaning(filled, q, v);
    LineFitsMeaning(filled, p, w);
    forall k: nat | k <= p <= k + 2 && k + 2 < |filled|
      ensures !TripleAt(filled, k, w)
    {
      if !(k <= q <= k + 2) {
        assert TripleAt(filled, k, w) == TripleAt(line, k, w);
      }
    }
    if v != w {
      assert line == line[..q] + [line[q]] + line[q + 1..];
      assert filled == line[..q] + [v] + line[q + 1..];
      assert multiset(filled)[w] == multiset(line)[w];
    }
  }

  /** Row half of FillKeepsBoardValid: a filled square `j` still fits its row. */
  lemma FillKeepsRowFit(b: Field, t: nat, v: u8, j: nat)
    requires t < SIZE && b[t] == OPEN && v != OPEN
    requires j < SIZE && j != t && b[j] != OPEN
    requires RowFits(b, j, b[j]) && RowFits(b, t, v)
    ensures RowFits(b[t := v], j, b[j])
  {
    var c, w := b[t := v], b[j];
    var ct, cj := GetCoord(t), GetCoord(j);
    var rowB, rowC := GetRow(b, cj.1), GetRow(c, cj.1);
    assert b[j := w] == b;
    assert c[j := w] == c;
    assert RowFits(b, j, w) == LineFits(rowB, cj.0, w);
    assert RowFits(c, j, w) == LineFits(rowC, cj.0, w);
    RowAfterSet(b, t, v, cj.1);
    if ct.1 == cj.1 {
      assert rowC == rowB[ct.0 := v];
      assert RowFits(b, t, v) == LineFits(rowC, ct.0, v);
      LinesThroughSquare(b, j);
      LinesThroughSquare(b, t);
      LineFitsAfterFill(rowB, ct.0, v, cj.0, w);
    }
  }

  /** Column half of FillKeepsBoardValid: a filled square `j` still fits its column. */
  lemma FillKeepsColumnFit(b: Field, t: nat, v: u8, j: nat)
    requires t < SIZE && b[t] == OPEN && v != OPEN
    requires j < SIZE && j != t && b[j] != OPEN
    requires ColumnFits(b, j, b[j]) && ColumnFits(b, t, v)
    ensures ColumnFits(b[t := v], j, b[j])
  {
    var c, w := b[t := v], b[j];
    var ct, cj := GetCoord(t), GetCoord(j);
    var colB, colC := GetColumn(b, cj.0), GetColumn(c, cj.0);
    assert b[j := w] == b;
    assert c[j := w] == c;
    assert ColumnFits(b, j, w) == LineFits(colB, cj.1, w);
    assert ColumnFits(c, j, w) == LineFits(colC, cj.1, w);
    ColumnAfterSet(b, t, v, cj.0);
    if ct.0 == cj.0 {
      assert colC == colB[ct.1 := v];
      assert ColumnFits(b, t, v) == LineFits(colC, ct.1, v);
      LinesThroughSquare(b, j);
      LinesThroughSquare(b, t);
      LineFitsAfterFill(colB, ct.1, v, cj.1, w);
    }
  }

  /** Filling an open square with a value the oracle accepts keeps a valid grid valid. */
  lemma FillKeepsBoardValid(b: Field, t: nat, v: u8)
    requires t < SIZE && b[t] == OPEN && v != OPEN
    requires IsValidBoard(b) && ValidPlacement(b, t, v)
    ensures IsValidBoard(b[t := v])
  {
    var c := b[t := v];
    forall j | 0 <= j < SIZE && c[j] != OPEN
      ensures ValidPlacement(c, j, c[j])
    {
      if j == t {
        assert c[t := v] == c;
      } else {
        assert ValidPlacement(b, j, b[j]);
        FillKeepsRowFit(b, t, v, j);
        FillKeepsColumnFit(b, t, v, j);
      }
    }
  }

  // ---------------------------------------------------------------------
  // Partial grids
  // ---------------------------------------------------------------------

  /** `p` agrees with `r` wherever `p` is filled: `p` is `r` with some cells opened. */
  predicate Below(p: seq<u8>, r: seq<u8>)
  {
    |p| == |r| && forall j :: 0 <= j < |p| ==> p[j] == OPEN || p[j] == r[j]
  }

  /** Opening cells never lengthens a run of a symbol to the right. */
  lemma {:induction false} RunRightBelow(p: seq<u8>, r: seq<u8>, i: nat, v: u8)
    requires Below(p, r) && v != OPEN
    ensures RunRight(p, i, v) <= RunRight(r, i, v)
    decreases |p| - i
  {
    if i < |p| && p[i] == v {
      RunRightBelow(p, r, i + 1, v);
    }
  }

  /** Opening cells never lengthens a run of a symbol to the left. */
  lemma {:induction false} RunLeftBelow(p: seq<u8>, r: seq<u8>, i: nat, v: u8)
    requires Below(p, r) && v != OPEN && i <= |p|
    ensures RunLeft(p, i, v) <= RunLeft(r, i, v)
  {
    if 0 < i && p[i - 1] == v {
      RunLeftBelow(p, r, i - 1, v);
    }
  }

  /** Opening cells never raises the count of a symbol. */
  lemma {:induction false} CountBelow(p: seq<u8>, r: seq<u8>, v: u8)
    requires Below(p, r) && v != OPEN
    ensures Count(p, v) <= Count(r, v)
  {
    if p != [] {
      assert Below(p[1..], r[1..]) by {
        forall j | 0 <= j < |p| - 1 ensures p[1..][j] == OPEN || p[1..][j] == r[1..][j] {
          assert p[1..][j] == p[j + 1];
        }
      }
      CountBelow(p[1..], r[1..], v);
    }
  }

  /** A symbol that fits a line still fits it after some of the line's cells are opened. */
  lemma LineFitsBelow(p: seq<u8>, r: seq<u8>, q: nat, v: u8)
    requires Below(p, r) && v != OPEN && q <= |p|
    requires LineFits(r, q, v)
    ensures LineFits(p, q, v)
  {
    RunLeftBelow(p, r, q, v);
    RunRightBelow(p, r, q + 1, v);
    CountBelow(p, r, v);
  }

  /**
   * A square of a valid grid `r` passes the oracle on any grid `b` that `r`
   * extends: a placement that a finished grid accepts is accepted on every
   * partial grid on the way to it.
   */
  lemma PlacementBelow(b: Field, r: Field, t: nat)
    requires t < SIZE && Below(b, r) && r[t] != OPEN
    requires ValidPlacement(r, t, r[t])
    ensures ValidPlacement(b, t, r[t])
  {
    var v := r[t];
    var c, pb := GetCoord(t), b[t := v];
    assert r[t := v] == r;
    var rowP, rowR := GetRow(pb, c.1), GetRow(r, c.1);
    var colP, colR := GetColumn(pb, c.0), GetColumn(r, c.0);
    assert Below(rowP, rowR) by {
      forall j | 0 <= j < DIM ensures rowP[j] == OPEN || rowP[j] == rowR[j] {
        assert rowP[j] == pb[c.1 * DIM + j];
      }
    }
    assert Below(colP, colR) by {
      forall j | 0 <= j < DIM ensures colP[j] == OPEN || colP[j] == colR[j] {
        assert colP[j] == pb[c.0 + j * DIM];
      }
    }
    LineFitsBelow(rowP, rowR, c.0, v);
    LineFitsBelow(colP, colR, c.1, v);
  }
}
