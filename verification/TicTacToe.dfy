// TicTacToeBoard of cpp11/TicTacToe.cpp: a search with cutoffs that leave only
// the inner loop, against plain minimax, and the meaning of its scores.

module GameValues {
  import opened Arithmetic
  import opened Options
  import opened Sequences

  type Cell = i: nat | i < 9
  type Board = b: seq<char> | |b| == 9 witness "         "

  const PLAYER := 'X'
  const COMPUTER := 'O'

  function Piece(isMax: bool): (p: char)
    ensures p != ' '
  {
    if isMax then PLAYER else COMPUTER
  }

  // The lines in the order evaluate looks at them.
  function Line(l: nat): (Cell, Cell, Cell)
    requires l < 8
  {
    if l == 6 then (2, 4, 6) else if l == 7 then (0, 4, 8)
    else if l % 2 == 0 then (l / 2 * 3, l / 2 * 3 + 1, l / 2 * 3 + 2)
    else (l / 2, l / 2 + 3, l / 2 + 6)
  }

  predicate Won(b: Board, l: nat)
    requires l < 8
  {
    b[Line(l).0] == b[Line(l).1] == b[Line(l).2] && b[Line(l).0] != ' '
  }

  ghost predicate FirstWon(b: Board, l: nat)
    requires l < 8
  {
    Won(b, l) && forall m :: 0 <= m < l ==> !Won(b, m)
  }

  // Ten points to the side holding the first line won.
  ghost function Score(b: Board): (v: int)
    ensures v == 0 || v == 10 || v == -10
  {
    if exists l :: 0 <= l < 8 && FirstWon(b, l) then
      var l :| 0 <= l < 8 && FirstWon(b, l);
      if b[Line(l).0] == PLAYER then 10 else -10
    else 0
  }

  lemma OnlyFirst(b: Board, l: nat, m: nat)
    requires l < 8 && m < 8 && FirstWon(b, l) && FirstWon(b, m)
    ensures l == m
  {
  }

  lemma ScoreOfFirst(b: Board, l: nat)
    requires l < 8 && FirstWon(b, l)
    ensures Score(b) == if b[Line(l).0] == PLAYER then 10 else -10
  {
    forall m | 0 <= m < 8 && FirstWon(b, m) ensures m == l {
      OnlyFirst(b, l, m);
    }
  }

  // ----- what a line is

  // Three different cells of one row, of one column or of one diagonal.
  ghost predicate InLine(i: Cell, j: Cell, k: Cell) {
    && i != j && i != k && j != k
    && (|| i / 3 == j / 3 == k / 3
        || i % 3 == j % 3 == k % 3
        || (OnDiagonal(i) && OnDiagonal(j) && OnDiagonal(k))
        || (OnAntidiagonal(i) && OnAntidiagonal(j) && OnAntidiagonal(k)))
  }

  predicate OnDiagonal(i: Cell) { i / 3 == i % 3 }
  predicate OnAntidiagonal(i: Cell) { i / 3 + i % 3 == 2 }

  ghost predicate HoldsLine(b: Board, p: char) {
    exists i: Cell, j: Cell, k: Cell :: HoldsCells(b, p, i, j, k)
  }

  ghost predicate HoldsCells(b: Board, p: char, i: Cell, j: Cell, k: Cell) {
    InLine(i, j, k) && b[i] == b[j] == b[k] == p
  }

  // Some piece other than 'X' holds a line; nothing but 'X' counts for the player.
  ghost predicate OthersHoldLine(b: Board) {
    exists p :: p != ' ' && p != 'X' && HoldsLine(b, p)
  }

  function CellsOf(l: nat): set<Cell>
    requires l < 8
  {
    {Line(l).0, Line(l).1, Line(l).2}
  }

  // The lines in order: each row before the column of the same number, then the
  // two diagonals.
  predicate OnLine(l: nat, i: Cell) {
    if l == 6 then OnAntidiagonal(i)
    else if l == 7 then OnDiagonal(i)
    else if l % 2 == 0 then i / 3 == l / 2
    else i % 3 == l / 2
  }

  lemma LinesInOrder(l: nat)
    requires l < 8
    ensures |CellsOf(l)| == 3 && forall i: Cell :: i in CellsOf(l) <==> OnLine(l, i)
  {
  }

  lemma WonIsHeld(b: Board, l: nat)
    requires l < 8 && Won(b, l)
    ensures HoldsLine(b, b[Line(l).0])
  {
    var (i, j, k) := Line(l);
    LinesInOrder(l);
    assert i in CellsOf(l) && j in CellsOf(l) && k in CellsOf(l);
    OneLine(l, i, j, k);
    assert HoldsCells(b, b[i], i, j, k);
  }

  lemma OneLine(l: nat, i: Cell, j: Cell, k: Cell)
    requires l < 8 && OnLine(l, i) && OnLine(l, j) && OnLine(l, k)
    requires CellsOf(l) == {i, j, k}
    ensures InLine(i, j, k)
  {
    LinesInOrder(l);
    assert i == j ==> {i, j, k} == {i, k};
    assert i == k || j == k ==> {i, j, k} == {i, j};
  }

  lemma RowsAndColumns(n: nat, i: Cell)
    requires n < 3
    ensures OnLine(2 * n, i) <==> i / 3 == n
    ensures OnLine(2 * n + 1, i) <==> i % 3 == n
  {
  }

  lemma LineNumber(i: Cell, j: Cell, k: Cell) returns (l: nat)
    requires InLine(i, j, k)
    ensures l < 8 && OnLine(l, i) && OnLine(l, j) && OnLine(l, k)
  {
    if i / 3 == j / 3 == k / 3 {
      var n := i / 3;
      l := 2 * n;
      RowsAndColumns(n, i);
      RowsAndColumns(n, j);
      RowsAndColumns(n, k);
    } else if i % 3 == j % 3 == k % 3 {
      var n := i % 3;
      l := 2 * n + 1;
      RowsAndColumns(n, i);
      RowsAndColumns(n, j);
      RowsAndColumns(n, k);
    } else if OnDiagonal(i) && OnDiagonal(j) && OnDiagonal(k) {
      l := 7;
    } else {
      l := 6;
    }
  }

  lemma LineOf(i: Cell, j: Cell, k: Cell) returns (l: nat)
    requires InLine(i, j, k)
    ensures l < 8 && CellsOf(l) == {i, j, k}
  {
    l := LineNumber(i, j, k);
    LinesInOrder(l);
    SameSize({i, j, k}, CellsOf(l));
  }

  lemma HeldIsWon(b: Board, p: char) returns (l: nat)
    requires HoldsLine(b, p) && p != ' '
    ensures l < 8 && Won(b, l)
  {
    var i: Cell, j: Cell, k: Cell :| HoldsCells(b, p, i, j, k);
    l := LineOf(i, j, k);
    assert Line(l).0 in {i, j, k} && Line(l).1 in {i, j, k} && Line(l).2 in {i, j, k};
  }

  // The score is not zero exactly when some side holds a line, and has its sign.
  lemma ScoreMeaning(b: Board)
    ensures Score(b) != 0 <==> HoldsLine(b, 'X') || OthersHoldLine(b)
    ensures Score(b) == 10 ==> HoldsLine(b, 'X')
    ensures Score(b) == -10 ==> OthersHoldLine(b)
  {
    if HoldsLine(b, 'X') || OthersHoldLine(b) {
      var p :| p != ' ' && HoldsLine(b, p);
      var l := HeldIsWon(b, p);
      FirstOf(b, l);
    }
    if l :| 0 <= l < 8 && FirstWon(b, l) {
      ScoreOfFirst(b, l);
      WonIsHeld(b, l);
      assert b[Line(l).0] != 'X' ==> OthersHoldLine(b);
    }
  }

  lemma {:induction false} FirstOf(b: Board, l: nat)
    requires l < 8 && Won(b, l)
    ensures exists m :: 0 <= m <= l && FirstWon(b, m)
  {
    if m :| 0 <= m < l && Won(b, m) { FirstOf(b, m); } else { assert FirstWon(b, l); }
  }

  function BlankCells(b: Board): nat {
    multiset(b)[' ']
  }

  function Play(b: Board, i: Cell, isMax: bool): (b': Board)
    requires b[i] == ' '
  {
    b[i := Piece(isMax)]
  }

  lemma PlayFills(b: Board, i: Cell, isMax: bool)
    requires b[i] == ' '
    ensures BlankCells(Play(b, i, isMax)) == BlankCells(b) - 1
  {
  }

  // ----- plain minimax

  ghost function Value(b: Board, depth: int, isMax: bool): int
    decreases BlankCells(b), 10
  {
    if Score(b) == 10 then 10 - depth
    else if Score(b) == -10 then -10 + depth
    else if ' ' !in b then 0
    else Best(isMax, Moves(b, depth, isMax), 9)
  }

  // The value of the move to each cell, None for a cell that is taken.
  ghost function Moves(b: Board, depth: int, isMax: bool): (values: seq<Option<int>>)
    ensures |values| == 9
    decreases BlankCells(b), 5
  {
    seq(9, i requires 0 <= i < 9 =>
      if b[i] == ' ' then PlayFills(b, i, isMax); Some(Value(Play(b, i, isMax), depth + 1, !isMax)) else None)
  }

  // The best of the first k values.
  function Best(isMax: bool, values: seq<Option<int>>, k: nat): int
    requires k <= |values|
  {
    if k == 0 then if isMax then -1000 else 1000
    else if values[k - 1].None? then Best(isMax, values, k - 1)
    else if isMax then Max(Best(isMax, values, k - 1), values[k - 1].value)
    else Min(Best(isMax, values, k - 1), values[k - 1].value)
  }

  // ----- the search window

  function Clamp(x: int, alpha: int, beta: int): int {
    Max(alpha, Min(x, beta))
  }

  // What the loop knows: `score` stands for `best`, the plain value so far.
  // Until the window closes both agree once clamped to the initial window; when
  // it has closed both lie beyond it.
  predicate Searched(isMax: bool, alpha0: int, beta0: int, alpha: int, beta: int, score: int, best: int) {
    if isMax then
      && beta == beta0 && (alpha == alpha0 || alpha == Max(alpha0, score))
      && (if alpha < beta then Clamp(score, alpha0, beta0) == Clamp(best, alpha0, beta0)
          else score >= beta0 && best >= beta0)
    else
      && alpha == alpha0 && (beta == beta0 || beta == Min(beta0, score))
      && (if alpha < beta then Clamp(score, alpha0, beta0) == Clamp(best, alpha0, beta0)
          else score <= alpha0 && best <= alpha0)
  }

  // One more move, of plain value v, searched with the current window to get p.
  lemma SearchedStep(isMax: bool, alpha0: int, beta0: int, alpha: int, beta: int, score: int, best: int, p: int, v: int)
    requires alpha0 < beta0 && Searched(isMax, alpha0, beta0, alpha, beta, score, best)
    requires alpha < beta ==> Clamp(p, alpha, beta) == Clamp(v, alpha, beta)
    ensures var score' := if isMax then Max(score, p) else Min(score, p);
      var best' := if isMax then Max(best, v) else Min(best, v);
      Searched(isMax, alpha0, beta0, if isMax then Max(alpha, score') else alpha,
               if isMax then beta else Min(score', beta), score', best')
  {
  }

  // Moves skipped after the window closed change nothing that matters.
  lemma {:induction false} SearchedSkip(isMax: bool, values: seq<Option<int>>, j: nat, k: nat)
    requires j <= k <= |values|
    ensures if isMax then Best(isMax, values, j) <= Best(isMax, values, k)
            else Best(isMax, values, j) >= Best(isMax, values, k)
    decreases k
  {
    if j < k { SearchedSkip(isMax, values, j, k - 1); }
  }

  // The state of the loops after the first k cells; nothing is known of a search
  // that starts with a closed window.
  predicate Progress(isMax: bool, values: seq<Option<int>>, k: nat, alpha0: int, beta0: int, alpha: int, beta: int,
                     score: int) {
    && k <= |values|
    && (alpha0 < beta0 ==> Searched(isMax, alpha0, beta0, alpha, beta, score, Best(isMax, values, k)))
  }

  lemma ProgressMove(isMax: bool, values: seq<Option<int>>, k: nat, alpha0: int, beta0: int, alpha: int, beta: int,
                     score: int, next: int)
    requires Progress(isMax, values, k, alpha0, beta0, alpha, beta, score) && k < |values| && values[k].Some?
    requires alpha < beta ==> Clamp(next, alpha, beta) == Clamp(values[k].value, alpha, beta)
    ensures var score' := if isMax then Max(score, next) else Min(score, next);
      Progress(isMax, values, k + 1, alpha0, beta0, if isMax then Max(alpha, score') else alpha,
               if isMax then beta else Min(score', beta), score')
  {
    if alpha0 < beta0 {
      SearchedStep(isMax, alpha0, beta0, alpha, beta, score, Best(isMax, values, k), next, values[k].value);
    }
  }

  lemma ProgressSkip(isMax: bool, values: seq<Option<int>>, j: nat, k: nat, alpha0: int, beta0: int,
                     alpha: int, beta: int, score: int)
    requires Progress(isMax, values, j, alpha0, beta0, alpha, beta, score) && j <= k <= |values|
    requires beta <= alpha || forall i :: j <= i < k ==> values[i].None?
    ensures Progress(isMax, values, k, alpha0, beta0, alpha, beta, score)
  {
    if beta <= alpha {
      SearchedSkip(isMax, values, j, k);
    } else if j < k {
      ProgressSkip(isMax, values, j, k - 1, alpha0, beta0, alpha, beta, score);
    }
  }

  lemma ProgressDone(isMax: bool, values: seq<Option<int>>, alpha0: int, beta0: int, alpha: int, beta: int, score: int)
    requires Progress(isMax, values, |values|, alpha0, beta0, alpha, beta, score) && alpha0 < beta0
    ensures Clamp(score, alpha0, beta0) == Clamp(Best(isMax, values, |values|), alpha0, beta0)
  {
  }

  function Signed(forPlayer: bool, v: int): int {
    if forPlayer then v else -v
  }

  // Value i is there and at least x for the side to move.
  predicate Reaches(isMax: bool, values: seq<Option<int>>, i: nat, x: int)
    requires i < |values|
  {
    values[i].Some? && Signed(isMax, values[i].value) >= x
  }

  // The best of the first k values reaches x exactly when one of them does.
  lemma {:induction false} BestReaches(isMax: bool, values: seq<Option<int>>, k: nat, x: int)
    requires k <= |values| && x > -1000
    ensures Signed(isMax, Best(isMax, values, k)) >= x <==> exists i :: 0 <= i < k && Reaches(isMax, values, i, x)
    decreases k
  {
    if k > 0 {
      BestReaches(isMax, values, k - 1, x);
      var last := k - 1;
      assert Reaches(isMax, values, last, x) || !Reaches(isMax, values, last, x);
    }
  }

  // ----- the size of scores

  // A win later in the game counts less, and a game lasts at most nine moves.
  lemma {:induction false} ValueBounds(b: Board, depth: nat, isMax: bool)
    requires BlankCells(b) + depth <= 9
    ensures depth - 10 <= Value(b, depth, isMax) <= 10 - depth
    ensures Score(b) == 0 ==> depth - 9 <= Value(b, depth, isMax) <= 9 - depth
    decreases BlankCells(b)
  {
    if Score(b) == 0 && ' ' in b {
      var values := Moves(b, depth, isMax);
      forall i | 0 <= i < 9 && values[i].Some? ensures depth - 9 <= values[i].value <= 9 - depth {
        PlayFills(b, i, isMax);
        ValueBounds(Play(b, i, isMax), depth + 1, !isMax);
      }
      var i :| 0 <= i < 9 && b[i] == ' ';
      BestBounds(isMax, values, i, 9 - depth);
    }
  }

  lemma BestBounds(isMax: bool, values: seq<Option<int>>, i: nat, limit: int)
    requires i < |values| && values[i].Some? && 0 <= limit < 900
    requires forall j :: 0 <= j < |values| && values[j].Some? ==> -limit <= values[j].value <= limit
    ensures -limit <= Best(isMax, values, |values|) <= limit
  {
    assert Reaches(isMax, values, i, -limit);
    BestReaches(isMax, values, |values|, -limit);
    BestReaches(isMax, values, |values|, limit + 1);
  }

  // ----- what the scores mean

  // The named side can force a win within n moves, counting both sides' moves.
  ghost predicate Forces(b: Board, forPlayer: bool, isMax: bool, n: nat)
    decreases n, 0
  {
    if Score(b) != 0 || ' ' !in b || n == 0 then Score(b) == (if forPlayer then 10 else -10)
    else
      var m := n - 1;
      if forPlayer == isMax
      then exists i: Cell {:trigger ForcesAfter(b, forPlayer, isMax, i, m)} ::
             b[i] == ' ' && ForcesAfter(b, forPlayer, isMax, i, m)
      else forall i: Cell {:trigger ForcesAfter(b, forPlayer, isMax, i, m)} ::
             b[i] == ' ' ==> ForcesAfter(b, forPlayer, isMax, i, m)
  }

  ghost predicate ForcesAfter(b: Board, forPlayer: bool, isMax: bool, i: Cell, n: nat)
    requires b[i] == ' '
    decreases n, 1
  {
    Forces(b[i := if isMax then 'X' else 'O'], forPlayer, !isMax, n)
  }

  // Main meaning of a score: it tells how soon a win can be forced.
  lemma {:induction false} ScoreTellsForcedWin(b: Board, forPlayer: bool, isMax: bool, depth: nat, n: nat)
    requires BlankCells(b) + depth <= 9 && depth + n <= 9
    ensures Forces(b, forPlayer, isMax, n) <==> Signed(forPlayer, Value(b, depth, isMax)) >= 10 - depth - n
    decreases n
  {
    if Score(b) != 0 || ' ' !in b || n == 0 {
      EndedOrOutOfMoves(b, forPlayer, isMax, depth, n);
    } else {
      var values := Moves(b, depth, isMax);
      var x := 10 - depth - n;
      forall j: Cell | b[j] == ' '
        ensures ForcesAfter(b, forPlayer, isMax, j, n - 1) <==> Signed(forPlayer, values[j].value) >= x
      {
        PlayFills(b, j, isMax);
        ScoreTellsForcedWin(Play(b, j, isMax), forPlayer, !isMax, depth + 1, n - 1);
      }
      ForcesByValues(b, forPlayer, isMax, values, x, n);
    }
  }

  lemma EndedOrOutOfMoves(b: Board, forPlayer: bool, isMax: bool, depth: nat, n: nat)
    requires BlankCells(b) + depth <= 9 && depth + n <= 9
    requires Score(b) != 0 || ' ' !in b || n == 0
    ensures Forces(b, forPlayer, isMax, n) <==> Signed(forPlayer, Value(b, depth, isMax)) >= 10 - depth - n
  {
    if Score(b) == 0 { ValueBounds(b, depth, isMax); }
  }

  lemma ForcesByValues(b: Board, forPlayer: bool, isMax: bool, values: seq<Option<int>>, x: int, n: nat)
    requires Score(b) == 0 && ' ' in b && n > 0 && |values| == 9 && 1 <= x <= 10
    requires forall j: Cell :: values[j].Some? <==> b[j] == ' '
    requires forall j: Cell :: b[j] == ' ' ==>
               (ForcesAfter(b, forPlayer, isMax, j, n - 1) <==> Signed(forPlayer, values[j].value) >= x)
    ensures Forces(b, forPlayer, isMax, n) <==> Signed(forPlayer, Best(isMax, values, 9)) >= x
  {
    if forPlayer == isMax {
      BestReaches(isMax, values, 9, x);
      forall j: Cell
        ensures Reaches(isMax, values, j, x) <==> b[j] == ' ' && ForcesAfter(b, forPlayer, isMax, j, n - 1)
      {
      }
    } else {
      BestReaches(isMax, values, 9, 1 - x);
      forall j: Cell
        ensures Reaches(isMax, values, j, 1 - x) <==> b[j] == ' ' && !ForcesAfter(b, forPlayer, isMax, j, n - 1)
      {
      }
    }
  }

  // The value find_best_move gives to a move.
  ghost function Rating(b: Board, isMax: bool, i: Cell): int
    requires b[i] == ' '
  {
    Signed(isMax, Value(Play(b, i, isMax), 0, !isMax))
  }

  // No move is better, and every earlier one is worse.
  ghost predicate IsFirstBest(b: Board, isMax: bool, i: Cell) {
    && b[i] == ' '
    && (forall j: Cell :: b[j] == ' ' ==> Rating(b, isMax, j) <= Rating(b, isMax, i))
    && (forall j: Cell :: j < i && b[j] == ' ' ==> Rating(b, isMax, j) < Rating(b, isMax, i))
  }

  // The move found wins as soon as any move can, and lets the other side force
  // a win only if every move does, and then as late as any.
  lemma BestMoveIsBestPlay(b: Board, isMax: bool, i: Cell, j: Cell, n: nat)
    requires IsFirstBest(b, isMax, i) && b[j] == ' ' && n <= 9
    ensures ForcesAfter(b, isMax, isMax, j, n) ==> ForcesAfter(b, isMax, isMax, i, n)
    ensures ForcesAfter(b, !isMax, isMax, i, n) ==> ForcesAfter(b, !isMax, isMax, j, n)
  {
    BlankCount(b);
    PlayFills(b, i, isMax);
    PlayFills(b, j, isMax);
    ScoreTellsForcedWin(Play(b, i, isMax), isMax, !isMax, 0, n);
    ScoreTellsForcedWin(Play(b, j, isMax), isMax, !isMax, 0, n);
    ScoreTellsForcedWin(Play(b, i, isMax), !isMax, !isMax, 0, n);
    ScoreTellsForcedWin(Play(b, j, isMax), !isMax, !isMax, 0, n);
  }

  lemma BlankCount(b: Board)
    ensures BlankCells(b) <= 9
  {
    var m := multiset(b);
    assert |m| == 9;
    var blanks := multiset{}[' ' := m[' ']];
    assert m == blanks + (m - blanks);
  }

  // Among the first k values, best is the first best one and `rating` its size.
  ghost predicate BestSoFar(isMax: bool, values: seq<Option<int>>, k: nat, best: nat, rating: int)
    requires k <= |values|
  {
    && (forall j :: 0 <= j < k && values[j].Some? ==> Signed(isMax, values[j].value) <= rating)
    && (if rating == -10000 then best == 0 && forall j :: 0 <= j < k ==> values[j].None?
        else
          && best < k && values[best].Some? && Signed(isMax, values[best].value) == rating
          && forall j :: 0 <= j < best && values[j].Some? ==> Signed(isMax, values[j].value) < rating)
  }

  // The first best of k values and its size, found one after the other.
  function FirstBest(isMax: bool, values: seq<Option<int>>, k: nat): (int, int)
    requires k <= |values|
  {
    if k == 0 then (0, -10000)
    else
      var before := FirstBest(isMax, values, k - 1);
      if values[k - 1].Some? && Signed(isMax, values[k - 1].value) > before.1
      then (k - 1, Signed(isMax, values[k - 1].value))
      else before
  }

  // find_best_move's row and column, as a cell, and score after k cells.
  ghost function BestOfFirst(b: Board, isMax: bool, k: nat): (int, int)
    requires k <= 9
  {
    FirstBest(isMax, Moves(b, -1, isMax), k)
  }

  lemma BestOfFirstNext(b: Board, isMax: bool, k: Cell)
    ensures BestOfFirst(b, isMax, k + 1) ==
      var (before, value) := (BestOfFirst(b, isMax, k), Moves(b, -1, isMax)[k]);
      if b[k] == ' ' && Signed(isMax, value.value) > before.1 then (k, Signed(isMax, value.value)) else before
  {
  }

  lemma {:induction false} FirstBestIsBest(isMax: bool, values: seq<Option<int>>, k: nat)
    requires k <= |values|
    requires forall j :: 0 <= j < k && values[j].Some? ==> Signed(isMax, values[j].value) >= -10
    ensures FirstBest(isMax, values, k).0 >= 0
    ensures BestSoFar(isMax, values, k, FirstBest(isMax, values, k).0, FirstBest(isMax, values, k).1)
    decreases k
  {
    if k > 0 { FirstBestIsBest(isMax, values, k - 1); }
  }

  lemma FirstBestOfBoard(b: Board, isMax: bool, best: Cell)
    requires best == BestOfFirst(b, isMax, 9).0
    ensures if ' ' in b then IsFirstBest(b, isMax, best) else best == 0
  {
    var values := Moves(b, -1, isMax);
    forall j: Cell | b[j] == ' '
      ensures values[j].Some? && Rating(b, isMax, j) == Signed(isMax, values[j].value) >= -10
    {
      RatingBound(b, isMax, j);
    }
    FirstBestIsBest(isMax, values, 9);
    if ' ' in b {
      var i :| 0 <= i < 9 && b[i] == ' ';
      assert values[i].Some?;
    }
  }

  lemma RatingBound(b: Board, isMax: bool, i: Cell)
    requires b[i] == ' '
    ensures -10 <= Value(Play(b, i, isMax), 0, !isMax) <= 10
  {
    BlankCount(b);
    PlayFills(b, i, isMax);
    ValueBounds(Play(b, i, isMax), 0, !isMax);
  }

  lemma FullWindowIsExact(b: Board, isMax: bool, i: Cell, score: int)
    requires b[i] == ' '
    requires Clamp(score, -10000, 10000) == Clamp(Value(Play(b, i, isMax), 0, !isMax), -10000, 10000)
    ensures Moves(b, -1, isMax)[i] == Some(score)
  {
    RatingBound(b, isMax, i);
  }
}

module TicTacToe {
  import opened Arithmetic
  import opened GameValues
  import opened Options

  class TicTacToeBoard {
    const board: array<char>

    constructor ()
      ensures fresh(board) && board.Length == 9 && forall i :: 0 <= i < 9 ==> board[i] == ' '
    {
      board := new char[9](_ => ' ');
    }

    method SetMove(piece: char, row: nat, col: nat)
      requires board.Length == 9 && row < 3 && col < 3
      modifies board
      ensures board[..] == old(board[..])[row * 3 + col := piece]
    {
      board[row * 3 + col] := piece;
    }

    method Evaluate() returns (v: int)
      requires board.Length == 9
      ensures v == Score(board[..]) && v in {0, 10, -10}
      ensures v != 0 <==> HoldsLine(board[..], 'X') || OthersHoldLine(board[..])
      ensures v == 10 ==> HoldsLine(board[..], 'X')
      ensures v == -10 ==> OthersHoldLine(board[..])
    {
      v := FirstLine();
      ScoreMeaning(board[..]);
    }

    // Looks at the lines in order.
    method FirstLine() returns (v: int)
      requires board.Length == 9
      ensures v == Score(board[..])
    {
      ghost var b: Board := board[..];
      for i := 0 to 3
        invariant forall l :: 0 <= l < 2 * i ==> !Won(b, l)
      {
        ghost var l := 2 * i;
        assert Line(l) == (3 * i, 3 * i + 1, 3 * i + 2) && Line(l + 1) == (i, i + 3, i + 6);
        if board[3 * i + 1] == board[3 * i] && board[3 * i + 2] == board[3 * i] && board[3 * i] != ' ' {
          ScoreOfFirst(b, l);
          return if board[3 * i] == PLAYER then 10 else -10;
        }
        if board[i + 3] == board[i] && board[i + 6] == board[i] && board[i] != ' ' {
          ScoreOfFirst(b, l + 1);
          return if board[i] == PLAYER then 10 else -10;
        }
      }
      var forward := board[2] == board[4] && board[2] == board[6] && board[2] != ' ';
      var backward := board[0] == board[4] && board[0] == board[8] && board[4] != ' ';
      if forward || backward {
        ScoreOfFirst(b, if forward then 6 else 7);
        return if board[4] == PLAYER then 10 else -10;
      }
      return 0;
    }

    method GameOver() returns (over: bool)
      requires board.Length == 9
      ensures over <==> ' ' !in board[..]
    {
      for i := 0 to 9
        invariant ' ' !in board[..i]
      {
        if board[i] == ' ' { return false; }
      }
      assert board[..9] == board[..];
      return true;
    }

    // Makes a move, searches, and takes the move back.
    method TryMove(depth: int, isMax: bool, r: nat, c: nat, alpha: int, beta: int) returns (next: int)
      requires board.Length == 9 && r < 3 && c < 3 && board[r * 3 + c] == ' '
      modifies board
      ensures board[..] == old(board[..])
      ensures var v := Value(Play(board[..], r * 3 + c, isMax), depth, !isMax);
        alpha < beta ==> Clamp(next, alpha, beta) == Clamp(v, alpha, beta)
      decreases BlankCells(board[..]), 0
    {
      ghost var b: Board := board[..];
      ghost var k := r * 3 + c;
      SetMove(if isMax then PLAYER else COMPUTER, r, c);
      assert board[..] == Play(b, k, isMax);
      PlayFills(b, k, isMax);
      next := Minimax(depth, !isMax, alpha, beta);
      SetMove(' ', r, c);
      assert board[..] == b;
    }

    method Minimax(depth: int, isMax: bool, alpha0: int, beta0: int) returns (score: int)
      requires board.Length == 9
      modifies board
      ensures board[..] == old(board[..])
      ensures alpha0 < beta0 ==> Clamp(score, alpha0, beta0) == Clamp(Value(board[..], depth, isMax), alpha0, beta0)
      decreases BlankCells(board[..]), 2
    {
      ghost var b: Board := board[..];
      score := Evaluate();
      if score == 10 {
        return score - depth;
      } else if score == -10 {
        return score + depth;
      }
      var over := GameOver();
      if over { return 0; }
      ghost var values := Moves(b, depth, isMax);
      var alpha, beta := alpha0, beta0;
      score := if isMax then -1000 else 1000;
      for r := 0 to 3
        invariant board[..] == b
        invariant Progress(isMax, values, 3 * r, alpha0, beta0, alpha, beta, score)
      {
        alpha, beta, score := SearchRow(depth, isMax, r, alpha0, beta0, alpha, beta, score);
      }
      if alpha0 < beta0 { ProgressDone(isMax, values, alpha0, beta0, alpha, beta, score); }
    }

    // The inner loop of minimax, the one a cutoff leaves.
    method SearchRow(depth: int, isMax: bool, r: nat, ghost alpha0: int, ghost beta0: int,
                     alphaIn: int, betaIn: int, scoreIn: int)
      returns (alpha: int, beta: int, score: int)
      requires board.Length == 9 && r < 3
      requires Progress(isMax, Moves(board[..], depth, isMax), 3 * r, alpha0, beta0, alphaIn, betaIn, scoreIn)
      modifies board
      ensures board[..] == old(board[..])
      ensures Progress(isMax, Moves(board[..], depth, isMax), 3 * r + 3, alpha0, beta0, alpha, beta, score)
      decreases BlankCells(board[..]), 1
    {
      ghost var b: Board := board[..];
      ghost var values := Moves(b, depth, isMax);
      alpha, beta, score := alphaIn, betaIn, scoreIn;
      for c := 0 to 3
        invariant board[..] == b
        invariant Progress(isMax, values, 3 * r + c, alpha0, beta0, alpha, beta, score)
      {
        ghost var k := 3 * r + c;
        if board[r * 3 + c] != ' ' {
          ProgressSkip(isMax, values, k, k + 1, alpha0, beta0, alpha, beta, score);
          continue;
        }
        var next := TryMove(depth + 1, isMax, r, c, alpha, beta);
        ProgressMove(isMax, values, k, alpha0, beta0, alpha, beta, score, next);
        score := if isMax then Max(score, next) else Min(score, next);
        if isMax { alpha := Max(alpha, score); } else { beta := Min(score, beta); }
        if beta <= alpha {
          ProgressSkip(isMax, values, k + 1, 3 * r + 3, alpha0, beta0, alpha, beta, score);
          break;
        }
      }
    }

    // The row and column of the first best move, or (0, 0) when no cell is blank.
    method FindBestMove(isMax: bool) returns (row: nat, col: nat)
      requires board.Length == 9
      modifies board
      ensures board[..] == old(board[..])
      ensures row < 3 && col < 3
      ensures if ' ' in board[..] then IsFirstBest(board[..], isMax, 3 * row + col) else row == 0 && col == 0
    {
      ghost var b: Board := board[..];
      var score := if isMax then -10000 else 10000;
      row, col := 0, 0;
      for r := 0 to 3
        invariant board[..] == b && row < 3 && col < 3
        invariant (3 * row + col, Signed(isMax, score)) == BestOfFirst(b, isMax, 3 * r)
      {
        row, col, score := BestInRow(isMax, r, row, col, score);
      }
      FirstBestOfBoard(b, isMax, 3 * row + col);
    }

    // A search with the full window, which is exact.
    method RateMove(isMax: bool, r: nat, c: nat) returns (next: int)
      requires board.Length == 9 && r < 3 && c < 3 && board[r * 3 + c] == ' '
      modifies board
      ensures board[..] == old(board[..])
      ensures Moves(board[..], -1, isMax)[3 * r + c] == Some(next)
    {
      next := TryMove(0, isMax, r, c, -10000, 10000);
      FullWindowIsExact(board[..], isMax, 3 * r + c, next);
    }

    // The inner loop of find_best_move.
    method BestInRow(isMax: bool, r: nat, rowIn: nat, colIn: nat, scoreIn: int) returns (row: nat, col: nat, score: int)
      requires board.Length == 9 && r < 3 && rowIn < 3 && colIn < 3
      requires (3 * rowIn + colIn, Signed(isMax, scoreIn)) == BestOfFirst(board[..], isMax, 3 * r)
      modifies board
      ensures board[..] == old(board[..]) && row < 3 && col < 3
      ensures (3 * row + col, Signed(isMax, score)) == BestOfFirst(board[..], isMax, 3 * r + 3)
    {
      ghost var b: Board := board[..];
      row, col, score := rowIn, colIn, scoreIn;
      for c := 0 to 3
        invariant board[..] == b && row < 3 && col < 3
        invariant (3 * row + col, Signed(isMax, score)) == BestOfFirst(b, isMax, 3 * r + c)
      {
        row, col, score := Consider(isMax, r, c, row, col, score);
      }
    }

    // Its body: the cell (r, c) becomes the best move if it is blank and better.
    method Consider(isMax: bool, r: nat, c: nat, rowIn: nat, colIn: nat, scoreIn: int)
      returns (row: nat, col: nat, score: int)
      requires board.Length == 9 && r < 3 && c < 3 && rowIn < 3 && colIn < 3
      requires (3 * rowIn + colIn, Signed(isMax, scoreIn)) == BestOfFirst(board[..], isMax, 3 * r + c)
      modifies board
      ensures board[..] == old(board[..]) && row < 3 && col < 3
      ensures (3 * row + col, Signed(isMax, score)) == BestOfFirst(board[..], isMax, 3 * r + c + 1)
    {
      ghost var (b, k) := (board[..], 3 * r + c);
      BestOfFirstNext(b, isMax, k);
      row, col, score := rowIn, colIn, scoreIn;
      if board[r * 3 + c] != ' ' { return; }
      var next := RateMove(isMax, r, c);
      if (isMax && next > score) || (!isMax && next < score) {
        score, row, col := next, r, c;
      }
    }
  }
}
