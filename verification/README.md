# Binairo board and backtracking search

A model of the solver core of a binairo (takuzu-style) puzzle program. The
grid has 12 x 12 squares, stored row-major as 144 byte cells. Square 0 is the
upper left cell. A cell holds a byte: 0 marks an open square, and the search
writes only the symbols 1, 2 and 3. Two rules constrain the grid:

- no row or column may hold three equal symbols in a row;
- no symbol may occur more than four times in one row or column.

The model is made of two modules:

- `BoardModel` (`board.dfy`) covers the board. It includes:
  - the constants;
  - coordinate arithmetic;
  - row and column extraction;
  - the run scan and the count check;
  - the probe-and-restore oracle `ValidSquareValue`;
  - the whole-grid check `ValidBoard`;
  - the constructor `NewBoard`.
- `BacktrackSearch` (`search.dfy`) covers the search. It includes:
  - `GetEmptySquare`, which finds the first open square;
  - `SearchBoard`, the depth-first search. It tries symbols 1, 2 and 3 in
    order at the first open square and reopens the square when all of them
    fail.

The program mutates one grid in place. The model treats the grid as a value
(`Field`, a sequence of 144 bytes). Every operation that writes to the grid
takes the current grid and returns the grid it leaves behind. So "the probe
puts the old value back" and "a failed search leaves the grid unchanged" are
stated about returned values.

The search is specified against a functional reference, `Explore` and
`FirstSuccess`: try candidates in order, and the first one that the oracle
accepts and whose subsearch succeeds decides the outcome. On top of that
reference, two results are proved:

- **soundness** (`ExploreSound`): starting from a valid grid, a successful
  search ends in a valid grid;
- **completeness** (`ExploreComplete`): if any valid grid extends the start
  grid by filling its open squares with symbols, the search succeeds.

## Model

| member | source | states |
|---|---|---|
| BoardModel.GetCoord | src/board.rs:177-181 | the column is below 12, column plus 12 times row gives back the square, and a square on the grid has its row on the grid |
| BoardModel.CoordRoundTrip | src/board.rs:177-181 | turning a column and row into a square index and back gives the same column and row, and the index is on the grid |
| BoardModel.GetSquareValue | src/board.rs:71-73 | the value of a square is the cell of its row at its column, and the cell of its column at its row |
| BoardModel.SetSquareValue | src/board.rs:53-55 | the written square holds the new value and every other square is unchanged |
| BoardModel.GetAfterSet | src/board.rs:53-55 | reading a square after a write sees the written value at that square and the old value everywhere else |
| BoardModel.GetRow | src/board.rs:57-61 | row y has 12 cells and its i-th cell is square 12*y+i |
| BoardModel.GetColumn | src/board.rs:63-69 | column x has 12 cells and its i-th cell is square x+12*i |
| BoardModel.LinesThroughSquare | src/board.rs:57-69 | the row and the column through a square hold that square's value at the square's coordinate |
| BoardModel.RowAfterSet | src/board.rs:53-61 | a write changes its own row at its column only and leaves every other row unchanged |
| BoardModel.ColumnAfterSet | src/board.rs:53-69 | a write changes its own column at its row only and leaves every other column unchanged |
| BoardModel.CountIsMultiset | src/board.rs:152-154 | the recursive occurrence count equals the symbol's multiplicity in the line |
| BoardModel.RunsIffNoTriple | src/board.rs:92-120 | with the value at position p, fewer than two adjacent equal cells is equivalent to no three-in-a-row covering p |
| BoardModel.LineFitsMeaning | src/board.rs:80-85 | the checks on one line hold exactly when no triple covers the square and the symbol is open or occurs at most four times |
| BoardModel.FitsRun | src/board.rs:92-120 | the two scans accept exactly when the run of the value right of p and the run left of p together are shorter than two |
| BoardModel.SquareFitsInRow | src/board.rs:92-120 | accepts exactly when the runs beside column x in row y are shorter than two; when the square already holds the value, accepts exactly when no triple covers it |
| BoardModel.ValueFitsInColumn | src/board.rs:122-150 | the same statement for row y in column x |
| BoardModel.FitsCount | src/board.rs:152-154 | accepts exactly when the value is open or occurs at most four times in the line |
| BoardModel.ValidPlacementMeaning | src/board.rs:75-90 | the oracle accepts a value exactly when, with it written, neither the row nor the column through the square has a triple of it covering the square, and the value is open or occurs at most four times in each |
| BoardModel.ValidSquareValue | src/board.rs:75-90 | the grid is restored to what it was, and the verdict is true exactly when, with the value written, both its row and its column pass the run check and the count check |
| BoardModel.ValidBoard | src/board.rs:37-51 | succeeds exactly when every filled square passes the oracle; open squares are skipped |
| BoardModel.NewBoard | src/board.rs:15-20 | returns a board exactly when the field is valid, and the board holds the given field |
| BoardModel.LineConsistentIff | src/board.rs:80-85 | a line has no triple of a symbol and no symbol above the cap exactly when every filled cell of it passes the line checks |
| BoardModel.PlacementOfOwnValue | src/board.rs:75-90 | probing a filled square with its own value checks the grid as it stands |
| BoardModel.RowConsistentWhenValid | src/board.rs:37-51 | in a grid that valid_board accepts, every row is free of triples and within the cap |
| BoardModel.ColumnConsistentWhenValid | src/board.rs:37-51 | in a grid that valid_board accepts, every column is free of triples and within the cap |
| BoardModel.SquareValidWhenLinesConsistent | src/board.rs:75-90 | when every line is consistent, every filled square passes the oracle |
| BoardModel.ValidBoardIffLinesConsistent | src/board.rs:37-51 | valid_board accepts exactly the grids whose rows and columns all have no triple and no symbol more than four times |
| BoardModel.LineFitsAfterFill | src/board.rs:80-85 | filling an open cell of a line with a value that fits keeps every other filled cell fitting |
| BoardModel.FillKeepsRowFit | src/board.rs:80 | filling an accepted open square keeps every other filled square passing the row check |
| BoardModel.FillKeepsColumnFit | src/board.rs:81 | filling an accepted open square keeps every other filled square passing the column check |
| BoardModel.FillKeepsBoardValid | src/search.rs:29-30 | writing a value the oracle accepts into an open square of a valid grid gives a valid grid |
| BoardModel.RunRightBelow | src/board.rs:96-103 | opening cells never lengthens the run of a symbol to the right |
| BoardModel.RunLeftBelow | src/board.rs:105-117 | opening cells never lengthens the run of a symbol to the left |
| BoardModel.CountBelow | src/board.rs:152-154 | opening cells never raises a symbol's count |
| BoardModel.LineFitsBelow | src/board.rs:80-85 | a symbol that fits a line still fits after some cells of the line are opened |
| BoardModel.PlacementBelow | src/board.rs:75-90 | a placement that a valid grid contains is accepted by the oracle on every partial grid below it |
| BacktrackSearch.GetEmptySquare | src/search.rs:12-19 | returns 255 exactly when no square from the start on is open; otherwise returns the first open square at or after the start |
| BacktrackSearch.OpenFromMonotone | src/search.rs:22 | starting later never sees more open squares |
| BacktrackSearch.OpenFromFrame | src/search.rs:22 | the number of open squares from a point on depends only on the cells from that point on |
| BacktrackSearch.FillDecreases | src/search.rs:30-31 | filling the open square the search recurses on lowers the number of open squares by one, so the recursion terminates |
| BacktrackSearch.FirstSuccessStep | src/search.rs:28-36 | a candidate decides the outcome when it succeeds, and otherwise the next candidate is tried |
| BacktrackSearch.SkipFailed | src/search.rs:28-36 | failing candidates are skipped |
| BacktrackSearch.FirstSuccessIsLeast | src/search.rs:28-33 | the outcome is the subsearch of the least candidate that succeeds |
| BacktrackSearch.NoCandidateFails | src/search.rs:28-37 | when every candidate fails, the search fails and leaves the grid as given |
| BacktrackSearch.SomeCandidateSucceeds | src/search.rs:28-33 | if any candidate succeeds, trying them in order succeeds |
| BacktrackSearch.ExploreSound | src/search.rs:21-38 | a successful search from a valid grid ends in a valid grid |
| BacktrackSearch.ExploreComplete | src/search.rs:21-38 | if a valid grid exists that fills the open squares from the start on with symbols and keeps every other cell, the search succeeds |
| BacktrackSearch.ExtendsAfterFill | src/search.rs:30-31 | filling the open square and then extending it is an extension of the grid before the fill |
| BacktrackSearch.ExtendsFromEarlier | src/search.rs:22 | completing from the first open square is completing from the start square |
| BacktrackSearch.TryCandidate | src/search.rs:29-35 | one loop pass: reports success exactly when the candidate is accepted and its subsearch succeeds; on success, returns the completed extension; on failure, returns the grid with the square reopened |
| BacktrackSearch.SearchBoard | src/search.rs:21-38 | the outcome equals the reference search; on failure the grid is unchanged; on success every square from the start on is filled; only open squares from the start on are written, each with 1, 2 or 3 |

## Left out

- Board::from_input, the text parser (src/board.rs:22-35). It is input
  handling, and it panics on malformed text. It is not part of this model.
- print_board (src/board.rs:156-173) and the diagnostic line that
  valid_board prints for an illegal square. These are console output only.
- main.rs is not part of this model. It holds the default puzzle, the
  command line and the wall-clock timing.
- Search::new and the mutable borrow of the board. The search takes the grid
  as a value and returns the grid it leaves behind.
- GetSquareValue, SetSquareValue, GetRow and GetColumn: the program panics on an
  out-of-range index. These functions require the index to be in range
  instead.
- SquareFitsInRow and ValueFitsInColumn: these admit a coordinate of 12 on
  the scanned axis. The program does not panic there, because its right scan
  starts past the end of the line.
- Machine-width `usize` arithmetic: no index computation in the core can
  exceed 144. Integers are modelled as unbounded.
- Cells are any byte, as in the program. Only 1, 2 and 3 are written by the
  search.
- ValidSquareValue is modelled as written for the value 0 (open). The count
  check is skipped for that value, but the run check still counts adjacent
  open cells. Neither valid_board nor the search calls it with 0.
