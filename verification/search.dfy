/**
 * The depth-first backtracking search of search.rs. It fills the first open
 * square at or after a start index with the first of the symbols 1, 2, 3 that
 * the oracle accepts and whose subsearch succeeds, and reopens the square when
 * every candidate fails.
 */
module BacktrackSearch {
  import opened BoardModel

  /** Returned by GetEmptySquare when no open square is left. */
  const NO_SQUARE: nat := 255

  /** Smallest and one past the largest candidate symbol. */
  const FIRST_SYMBOL: u8 := 1
  const SYMBOL_END: u8 := 4

  /** get_empty_square: the first open square at or after `square`, or NO_SQUARE. */
  function GetEmptySquare(b: Field, square: nat): (r: nat)
    decreases SIZE - square
    ensures r == NO_SQUARE || (square <= r < SIZE && b[r] == OPEN)
    ensures r == NO_SQUARE <==> forall j :: square <= j < SIZE ==> b[j] != OPEN
    ensures r != NO_SQUARE ==> forall j :: square <= j < r ==> b[j] != OPEN
  {
    if square >= SIZE then NO_SQUARE
    else if b[square] == OPEN then square
    else GetEmptySquare(b, square + 1)
  }

  /** Number of open squares at or after `square`: the termination measure of the search. */
  function OpenFrom(b: Field, square: nat): (n: nat)
    decreases SIZE - square
  {
    if square >= SIZE then 0
    else (if b[square] == OPEN then 1 else 0) + OpenFrom(b, square + 1)
  }

  /** Starting later never sees more open squares. */
  lemma {:induction false} OpenFromMonotone(b: Field, s: nat, t: nat)
    requires s <= t
    ensures OpenFrom(b, t) <= OpenFrom(b, s)
    decreases t - s
  {
    if s < t {
      OpenFromMonotone(b, s + 1, t);
    }
  }

  /** The count only depends on the squares at or after `square`. */
  lemma {:induction false} OpenFromFrame(b: Field, c: Field, square: nat)
    requires forall j :: square <= j < SIZE ==> b[j] == c[j]
    ensures OpenFrom(b, square) == OpenFrom(c, square)
    decreases SIZE - square
  {
    if square < SIZE {
      OpenFromFrame(b, c, square + 1);
    }
  }

  /** Filling an open square lowers the count from that square by one. */
  lemma FillDecreases(b: Field, t: nat, v: u8)
    requires t < SIZE && b[t] == OPEN && v != OPEN
    ensures OpenFrom(b[t := v], t) == OpenFrom(b, t) - 1
  {
    OpenFromFrame(b, b[t := v], t + 1);
  }

  /**
   * The reference search: the outcome of searching from `square`. A complete
   * grid succeeds as it is; otherwise the first open square is handed to
   * FirstSuccess.
   */
  ghost function Explore(b: Field, square: nat): (outcome: (bool, Field))
    decreases OpenFrom(b, square), SYMBOL_END
  {
    var t := GetEmptySquare(b, square);
    if t == NO_SQUARE then (true, b)
    else
      OpenFromMonotone(b, square, t);
      FirstSuccess(b, t, FIRST_SYMBOL)
  }

  /** Candidate `v` at open square `t` is accepted by the oracle and its subsearch succeeds. */
  ghost predicate Succeeds(b: Field, t: nat, v: u8)
    requires t < SIZE && b[t] == OPEN && v != OPEN
    decreases OpenFrom(b, t), 0
  {
    ValidPlacement(b, t, v) && (FillDecreases(b, t, v); Explore(b[t := v], t).0)
  }

  /**
   * The outcome of trying candidates `v`, `v+1`, ... at open square `t`: the
   * subsearch of the first candidate that succeeds, or failure with the grid
   * as given.
   */
  ghost function FirstSuccess(b: Field, t: nat, v: u8): (outcome: (bool, Field))
    requires t < SIZE && b[t] == OPEN && FIRST_SYMBOL <= v <= SYMBOL_END
    decreases OpenFrom(b, t), SYMBOL_END - v
  {
    if v == SYMBOL_END then (false, b)
    else if Succeeds(b, t, v) then
      FillDecreases(b, t, v);
      Explore(b[t := v], t)
    else FirstSuccess(b, t, v + 1)
  }

  /** One step of FirstSuccess: candidate `v` decides if it succeeds, otherwise the next one is tried. */
  lemma FirstSuccessStep(b: Field, t: nat, v: u8)
    requires t < SIZE && b[t] == OPEN && FIRST_SYMBOL <= v < SYMBOL_END
    ensures FirstSuccess(b, t, v)
            == if Succeeds(b, t, v) then Explore(b[t := v], t) else FirstSuccess(b, t, v + 1)
  {
  }

  /** Candidates that fail are skipped: trying from `u` is trying from `v`. */
  lemma {:induction false} SkipFailed(b: Field, t: nat, u: u8, v: u8)
    requires t < SIZE && b[t] == OPEN && FIRST_SYMBOL <= u <= v <= SYMBOL_END
    requires forall w: u8 :: u <= w < v ==> !Succeeds(b, t, w)
    ensures FirstSuccess(b, t, u) == FirstSuccess(b, t, v)
    decreases v - u
  {
    if u < v {
      FirstSuccessStep(b, t, u);
      SkipFailed(b, t, u + 1, v);
    }
  }

  /**
   * Candidates are tried in increasing order and the first that succeeds
   * decides: the outcome at an open square is that of the least succeeding
   * candidate.
   */
  lemma FirstSuccessIsLeast(b: Field, t: nat, v: u8)
    requires t < SIZE && b[t] == OPEN && FIRST_SYMBOL <= v < SYMBOL_END
    requires Succeeds(b, t, v)
    requires forall w: u8 :: FIRST_SYMBOL <= w < v ==> !Succeeds(b, t, w)
    ensures FirstSuccess(b, t, FIRST_SYMBOL) == Explore(b[t := v], t)
    ensures FirstSuccess(b, t, FIRST_SYMBOL).0
  {
    SkipFailed(b, t, FIRST_SYMBOL, v);
    FirstSuccessStep(b, t, v);
  }

  /** When no candidate succeeds at an open square, the search fails and returns the grid as given. */
  lemma NoCandidateFails(b: Field, t: nat)
    requires t < SIZE && b[t] == OPEN
    requires forall w: u8 :: FIRST_SYMBOL <= w < SYMBOL_END ==> !Succeeds(b, t, w)
    ensures FirstSuccess(b, t, FIRST_SYMBOL) == (false, b)
  {
    SkipFailed(b, t, FIRST_SYMBOL, SYMBOL_END);
  }

  /**
   * Soundness: a successful search from a grid whose filled squares all pass
   * the oracle ends in a grid whose filled squares all pass the oracle.
   */
  lemma {:induction false} ExploreSound(b: Field, square: nat)
    requires IsValidBoard(b)
    ensures Explore(b, square).0 ==> IsValidBoard(Explore(b, square).1)
    decreases OpenFrom(b, square)
  {
    var t := GetEmptySquare(b, square);
    if t != NO_SQUARE {
      OpenFromMonotone(b, square, t);
      assert Explore(b, square) == FirstSuccess(b, t, FIRST_SYMBOL);
      var v: u8;
      if Succeeds(b, t, 1) {
        v := 1;
      } else if Succeeds(b, t, 2) {
        v := 2;
      } else if Succeeds(b, t, 3) {
        v := 3;
      } else {
        forall w: u8 | FIRST_SYMBOL <= w < SYMBOL_END ensures !Succeeds(b, t, w) {
          assert w == 1 || w == 2 || w == 3;
        }
        NoCandidateFails(b, t);
        return;
      }
      forall w: u8 | FIRST_SYMBOL <= w < v ensures !Succeeds(b, t, w) {
        assert w == 1 || w == 2;
      }
      FirstSuccessIsLeast(b, t, v);
      FillDecreases(b, t, v);
      FillKeepsBoardValid(b, t, v);
      ExploreSound(b[t := v], t);
    }
  }

  /** No square at or after `square` is open. */
  predicate CompleteFrom(r: Field, square: nat)
  {
    forall j :: square <= j < SIZE ==> r[j] != OPEN
  }

  /**
   * `r` is `b` with only open squares at or after `square` written, and each
   * of them written with a candidate symbol.
   */
  predicate Extends(b: Field, r: Field, square: nat)
  {
    && (forall j :: 0 <= j < SIZE && j < square ==> r[j] == b[j])
    && (forall j :: 0 <= j < SIZE && b[j] != OPEN ==> r[j] == b[j])
    && (forall j :: 0 <= j < SIZE && r[j] != b[j] ==> FIRST_SYMBOL <= r[j] < SYMBOL_END)
  }

  /** Filling open square `t` with a candidate, then extending from `t`, extends the original grid from `t`. */
  lemma ExtendsAfterFill(b: Field, t: nat, v: u8, r: Field)
    requires t < SIZE && b[t] == OPEN && FIRST_SYMBOL <= v < SYMBOL_END
    requires Extends(b[t := v], r, t)
    ensures Extends(b, r, t)
  {
  }

  /**
   * Extending and completing from the first open square `t` at or after
   * `square` is extending and completing from `square`.
   */
  lemma ExtendsFromEarlier(b: Field, square: nat, t: nat, r: Field)
    requires square <= t < SIZE
    requires forall j :: square <= j < t ==> b[j] != OPEN
    requires Extends(b, r, t) && CompleteFrom(r, t)
    ensures Extends(b, r, square) && CompleteFrom(r, square)
  {
  }

  /** If any candidate succeeds at an open square, trying the candidates in order succeeds. */
  lemma SomeCandidateSucceeds(b: Field, t: nat, v: u8)
    requires t < SIZE && b[t] == OPEN && FIRST_SYMBOL <= v < SYMBOL_END
    requires Succeeds(b, t, v)
    ensures FirstSuccess(b, t, FIRST_SYMBOL).0
  {
    var u: u8;
    if Succeeds(b, t, 1) {
      u := 1;
    } else if Succeeds(b, t, 2) {
      u := 2;
    } else {
      assert v == 3;
      u := 3;
    }
    forall w: u8 | FIRST_SYMBOL <= w < u ensures !Succeeds(b, t, w) {
      assert w == 1 || w == 2;
    }
    FirstSuccessIsLeast(b, t, u);
  }

  /**
   * Completeness: if some valid grid fills every open square at or after
   * `square` with a candidate symbol and leaves everything else as it is, the
   * search from `square` succeeds. A failed search therefore proves that no
   * such completion exists.
   */
  lemma {:induction false} ExploreComplete(b: Field, square: nat, r: Field)
    requires Extends(b, r, square) && CompleteFrom(r, square) && IsValidBoard(r)
    ensures Explore(b, square).0
    decreases OpenFrom(b, square)
  {
    var t := GetEmptySquare(b, square);
    if t != NO_SQUARE {
      OpenFromMonotone(b, square, t);
      assert Explore(b, square) == FirstSuccess(b, t, FIRST_SYMBOL);
      var v := r[t];
      assert v != b[t];
      assert ValidPlacement(r, t, v);
      PlacementBelow(b, r, t);
      var c := b[t := v];
      assert Extends(c, r, t);
      FillDecreases(b, t, v);
      ExploreComplete(c, t, r);
      assert Succeeds(b, t, v);
      SomeCandidateSucceeds(b, t, v);
    }
  }

  /**
   * One pass of the candidate loop of search_board: probe candidate `v` at
   * open square `t`; if the oracle accepts it, write it and search on from
   * `t`; unless that succeeds, reopen the square.
   */
  method TryCandidate(b: Field, t: nat, v: u8) returns (solved: bool, next: Field)
    requires t < SIZE && b[t] == OPEN && FIRST_SYMBOL <= v < SYMBOL_END
    decreases OpenFrom(b, t), 0
    ensures solved == Succeeds(b, t, v)
    ensures solved ==> next == Explore(b[t := v], t).1
    ensures solved ==> CompleteFrom(next, t) && Extends(b, next, t)
    ensures !solved ==> next == b
  {
    var valid;
    valid, next := ValidSquareValue(b, t, v);
    if valid {
      next := SetSquareValue(next, t, v);
      FillDecreases(b, t, v);
      solved, next := SearchBoard(next, t);
      if solved {
        ExtendsAfterFill(b, t, v, next);
        return;
      }
    }
    solved := false;
    next := SetSquareValue(next, t, OPEN);
  }

  /**
   * search_board: backtracking search from `square`. Returns whether a
   * completion was found and the grid it leaves behind.
   */
  method SearchBoard(b: Field, square: nat) returns (found: bool, r: Field)
    decreases OpenFrom(b, square), 1
    ensures (found, r) == Explore(b, square)
    ensures !found ==> r == b
    ensures found ==> CompleteFrom(r, square)
    ensures Extends(b, r, square)
  {
    var target := GetEmptySquare(b, square);
    if target == NO_SQUARE {
      return true, b;
    }
    OpenFromMonotone(b, square, target);

    var cur := b;
    var i := FIRST_SYMBOL;
    while i < SYMBOL_END
      invariant FIRST_SYMBOL <= i <= SYMBOL_END
      invariant cur == b
      invariant FirstSuccess(b, target, FIRST_SYMBOL) == FirstSuccess(b, target, i)
    {
      FirstSuccessStep(b, target, i);
      var solved, next := TryCandidate(cur, target, i);
      if solved {
        ExtendsFromEarlier(b, square, target, next);
        return true, next;
      }
      cur := next;
      i := i + 1;
    }
    return false, cur;
  }
}
