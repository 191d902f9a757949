/**
 * The search of the bitboard engines read as a search over boards: a game
 * whose moves, positions and scores are those of the shared bitboard
 * functions, and the proof that on valid boards it is the rule-level game
 * seen through `Abs`, so that every port's board search is the rule-level
 * search of the position the board encodes.
 */
module BoardSearch {
  import opened Words
  import opened LineHelpers
  import opened Tables
  import opened Bitboard
  import opened BoardEval
  import opened BoardMoves
  import Rules
  import Evaluation
  import Search

  /**
   * What a game over boards must answer for the engines' searches: the
   * generated moves, the board of the three-step move, the board
   * evaluation, and the large lookup a node without moves is scored by.
   */
  ghost predicate EngineGame(g: Search.Game<Board>, large: seq<int>, small: seq<int>)
    requires |large| == TABLE_SIZE && |small| == TABLE_SIZE
  {
    && (forall b: Board {:trigger GenerateMoves(b)} :: ZoneField(b.share) <= 9 ==> g.moves(b) == GenerateMoves(b))
    && (forall b: Board, m: nat, side: Rules.Side {:trigger Moved(b, m, side)} ::
          m < 81 ==> g.play(b, m, side) == Moved(b, m, side))
    && (forall b: Board, side: Rules.Side {:trigger Evaluate(b, side, large, small)} ::
          g.eval(b, side) == Evaluate(b, side, large, small))
    && (forall b: Board, side: Rules.Side {:trigger Evaluation.ForSide(side, large[LargeIndex(b)])} ::
          g.large(b, side) == Evaluation.ForSide(side, large[LargeIndex(b)]))
  }

  /** The game over boards the shared functions make. */
  function BoardGame(large: seq<int>, small: seq<int>): Search.Game<Board>
    requires |large| == TABLE_SIZE && |small| == TABLE_SIZE
  {
    Search.Game(
      (b: Board) => if ZoneField(b.share) <= 9 then GenerateMoves(b) else [],
      (b: Board, m: int, side: Rules.Side) => if 0 <= m < 81 then Moved(b, m, side) else b,
      (b: Board, side: Rules.Side) => Evaluate(b, side, large, small),
      (b: Board, side: Rules.Side) => Evaluation.ForSide(side, large[LargeIndex(b)]))
  }

  lemma BoardGameIsEngineGame(large: seq<int>, small: seq<int>)
    requires |large| == TABLE_SIZE && |small| == TABLE_SIZE
    ensures EngineGame(BoardGame(large, small), large, small)
  {
  }

  // ---------------------------------------------------------------------
  // The board search is the rule-level search.

  /** On valid boards the game of the shared functions is the rules game seen through `Abs`. */
  lemma EngineGameSimulatesRules(g: Search.Game<Board>, large: seq<int>, small: seq<int>)
    requires TablesHold(large, small) && EngineGame(g, large, small)
    ensures Search.Simulates(g, Search.RulesGame(), (b: Board) => Abs(b), (b: Board) => Valid(b))
  {
    var h := Search.RulesGame();
    forall b: Board | Valid(b) ensures g.moves(b) == h.moves(Abs(b)) {
      GenerateMovesSpec(b);
      Search.RulesGameAt(Abs(b), 0);
    }
    forall b: Board, sd: Rules.Side | Valid(b)
      ensures g.eval(b, sd) == h.eval(Abs(b), sd) && g.large(b, sd) == h.large(Abs(b), sd)
    {
      EngineSide(g, b, sd, large, small);
    }
    forall b: Board, m: int, sd: Rules.Side | Valid(b) && m in g.moves(b)
      ensures Valid(g.play(b, m, sd)) && Abs(g.play(b, m, sd)) == h.play(Abs(b), m, sd)
    {
      EngineMove(g, b, m, sd, large, small);
    }
  }

  lemma EngineSide(g: Search.Game<Board>, b: Board, sd: Rules.Side, large: seq<int>, small: seq<int>)
    requires TablesHold(large, small) && EngineGame(g, large, small) && Valid(b)
    ensures g.eval(b, sd) == Search.RulesGame().eval(Abs(b), sd)
    ensures g.large(b, sd) == Search.RulesGame().large(Abs(b), sd)
  {
    EvaluateSpec(b, sd, large, small);
    LargeLookup(b, large, small);
    assert g.eval(b, sd) == Evaluate(b, sd, large, small);
    assert g.large(b, sd) == Evaluation.ForSide(sd, large[LargeIndex(b)]);
    Search.RulesGameAt(Abs(b), sd);
  }

  lemma EngineMove(g: Search.Game<Board>, b: Board, m: int, sd: Rules.Side, large: seq<int>, small: seq<int>)
    requires TablesHold(large, small) && EngineGame(g, large, small) && Valid(b) && m in g.moves(b)
    ensures Valid(g.play(b, m, sd)) && Abs(g.play(b, m, sd)) == Search.RulesGame().play(Abs(b), m, sd)
  {
    GenerateMovesLegal(b);
    assert g.moves(b) == GenerateMoves(b);
    MovedValid(b, m, sd);
    assert g.play(b, m, sd) == Moved(b, m, sd);
    Search.RulesGameAt(Abs(b), sd);
  }

  /**
   * From a valid board, with the tables the initialisation builds, the
   * board search of any port computes that port's rule-level search of the
   * position the board encodes.
   */
  lemma AlphaBetaIsRuleSearch(g: Search.Game<Board>, p: Search.Port, b: Board, side: Rules.Side, depth: nat,
                              alpha: int, beta: int, large: seq<int>, small: seq<int>, maxDepth: nat)
    requires Valid(b) && TablesHold(large, small) && EngineGame(g, large, small)
    requires Search.Bounds(p, depth, maxDepth)
    ensures Search.AlphaBeta(g, p, b, side, depth, alpha, beta, maxDepth)
         == Search.AlphaBeta(Search.RulesGame(), p, Abs(b), side, depth, alpha, beta, maxDepth)
  {
    EngineGameSimulatesRules(g, large, small);
    Search.SimulatedAlphaBeta(g, Search.RulesGame(), (b: Board) => Abs(b), (b: Board) => Valid(b), p,
                              b, side, depth, alpha, beta, maxDepth);
  }

  // ---------------------------------------------------------------------
  // Every move fills a cell, on any words.

  /** The boards a search over boards reaches: a zone field of 0..9, whatever the other words hold. */
  predicate Zoned(b: Board) {
    ZoneField(b.share) <= 9
  }

  /** The empty cells among cells 0..n-1. */
  function EmptyCells(b: Board, n: nat): (k: nat)
    requires n <= 81
    ensures k <= n
  {
    if n == 0 then 0 else EmptyCells(b, n - 1) + (if CellOf(b, n - 1) == Rules.Empty then 1 else 0)
  }

  /** The empty cells of the board. */
  function EmptyCount(b: Board): (k: nat)
    ensures k <= 81
  {
    EmptyCells(b, 81)
  }

  /** Whatever the words, a generated move names an empty cell. */
  lemma GeneratedEmpty(b: Board, m: int)
    requires ZoneField(b.share) <= 9 && m in GenerateMoves(b)
    ensures 0 <= m < 81 && CellOf(b, m) == Rules.Empty
  {
    assert m in OpenCells(b);
    OpenCellFree(b, m);
    if m >= 63 {
      assert Shr(b.share, 18)[m - 63] == b.share[m - 45];
    }
  }

  /** An open cell has its bits clear in the word the generator reads it from. */
  lemma OpenCellFree(b: Board, m: int)
    requires ZoneField(b.share) <= 9 && m in OpenCells(b)
    ensures 0 <= m < 81
    ensures m < 63 ==> !Or(b.us, b.them)[m]
    ensures m >= 63 ==> !Or(Shr(b.share, 18), b.share)[m - 63]
  {
    var zone := ZoneField(b.share);
    var nwToSw := Or(b.us, b.them);
    var sToSe := Or(Shr(b.share, 18), b.share);
    var large := Or(Shr(b.share, 36), Shr(b.share, 45));
    if zone == ZONE_ANY {
      var q1 := i => 0 <= i < 63 && !nwToSw[i] && !large[i / 9];
      var q2 := i => 63 <= i < 81 && !sToSe[i - 63] && !large[i / 9];
      Rules.SelectSpec(0, 63, q1);
      Rules.SelectSpec(63, 81, q2);
      assert m in Rules.Select(0, 63, q1) + Rules.Select(63, 81, q2);
      assert q1(m) || q2(m);
    } else if zone == 7 || zone == 8 {
      var q := i => 63 <= i < 81 && !sToSe[i - 63];
      Rules.SelectSpec(9 * zone, 9 * zone + 9, q);
      assert q(m);
    } else {
      var q := i => 0 <= i < 63 && !nwToSw[i];
      Rules.SelectSpec(9 * zone, 9 * zone + 9, q);
      assert q(m);
    }
  }

  /** Whatever the words, after a move on cell mv a cell is empty exactly when it was and is not mv. */
  lemma MovedCells(b: Board, mv: nat, side: Rules.Side, c: nat)
    requires mv < 81 && c < 81
    ensures (CellOf(Moved(b, mv, side), c) == Rules.Empty) == (CellOf(b, c) == Rules.Empty && c != mv)
  {
    var b1 := Placed(b, mv, side);
    var b2 := WithWon(b1, mv / 9, side, Rules.HasLine(GridOf(ZoneWord(b1, mv / 9, side))));
    var r := Moved(b, mv, side);
    ZoneWritten(b2.share, ForcedZone(b2, mv % 9), r.share);
    assert CellOf(r, c) == CellOf(b2, c);
    assert CellOf(b2, c) == CellOf(b1, c);
  }

  lemma {:induction false} MovedEmptyCells(b: Board, mv: nat, side: Rules.Side, n: nat)
    requires mv < 81 && n <= 81 && CellOf(b, mv) == Rules.Empty
    ensures EmptyCells(Moved(b, mv, side), n) == EmptyCells(b, n) - (if mv < n then 1 else 0)
  {
    if n > 0 {
      MovedEmptyCells(b, mv, side, n - 1);
      MovedCells(b, mv, side, n - 1);
    }
  }

  /** Whatever the words, a generated move keeps the zone field in 0..9 and fills one empty cell. */
  lemma EngineGameShrinks(g: Search.Game<Board>, large: seq<int>, small: seq<int>)
    requires |large| == TABLE_SIZE && |small| == TABLE_SIZE && EngineGame(g, large, small)
    ensures Search.Shrinks(g, Zoned, EmptyCount)
  {
    forall b: Board, m: int, side: Rules.Side | Zoned(b) && m in g.moves(b)
      ensures Zoned(g.play(b, m, side)) && EmptyCount(g.play(b, m, side)) < EmptyCount(b)
    {
      assert g.moves(b) == GenerateMoves(b);
      GeneratedEmpty(b, m);
      assert g.play(b, m, side) == Moved(b, m, side);
      MovedZone(b, m, side);
      MovedEmptyCells(b, m, side, 81);
    }
  }

  // ---------------------------------------------------------------------
  // The board evaluation stays within the sentinels, on any words.

  /** The zone terms of zones 0..n-1 add up to at most 121 per zone. */
  lemma {:induction false} TableSumBound(b: Board, large: seq<int>, small: seq<int>, n: nat)
    requires TablesHold(large, small) && n <= 9
    ensures -121 * n <= TableSum(b, small, n) <= 121 * n
  {
    if n > 0 {
      TableSumBound(b, large, small, n - 1);
      if !Skipped(b, n - 1) {
        var i := SmallIndex(b, n - 1);
        SmallEntryBound(Pattern(i % 512), Pattern(i / 512));
      }
    }
  }

  /**
   * With the tables the initialisation builds, the board evaluation is a
   * sentinel or at most 3234 in magnitude, whatever the words.
   */
  lemma EvaluateWithin(b: Board, side: Rules.Side, large: seq<int>, small: seq<int>)
    requires TablesHold(large, small)
    ensures var e := Evaluate(b, side, large, small);
      e == OUTCOME_WIN || e == OUTCOME_LOSS || -3234 <= e <= 3234
  {
    var i := LargeIndex(b);
    LargeEntryRange(Pattern(i % 512), Pattern(i / 512));
    TableSumBound(b, large, small, 9);
  }

  lemma EngineGameEvalWithin(g: Search.Game<Board>, large: seq<int>, small: seq<int>)
    requires TablesHold(large, small) && EngineGame(g, large, small)
    ensures Search.EvalWithin(g, Zoned)
  {
    forall b: Board, side: Rules.Side | Zoned(b)
      ensures OUTCOME_LOSS <= g.eval(b, side) <= OUTCOME_WIN
    {
      EvaluateWithin(b, side, large, small);
      assert g.eval(b, side) == Evaluate(b, side, large, small);
    }
  }

  /**
   * The Java `go` search of a board with a zone field of 0..9 that has
   * moves, to depth maxDepth >= 1 with the window (OUTCOME_LOSS,
   * OUTCOME_WIN): the score is the negamax value, strictly inside the
   * window, and line[0], the move played, is the first generated move worth
   * it. The board need not encode a reachable position.
   */
  lemma EngineRootMove(g: Search.Game<Board>, b: Board, side: Rules.Side, large: seq<int>, small: seq<int>,
                       maxDepth: nat)
    requires TablesHold(large, small) && EngineGame(g, large, small) && ZoneField(b.share) <= 9
    requires 1 <= maxDepth && g.moves(b) != []
    ensures var r := Search.AlphaBeta(g, Search.JavaPort, b, side, maxDepth, OUTCOME_LOSS, OUTCOME_WIN, maxDepth);
      && r.0 == Search.Value(g, Search.JavaPort, b, side, maxDepth, maxDepth)
      && OUTCOME_LOSS < r.0 < OUTCOME_WIN
      && |r.1| > 0 && r.1[0] in g.moves(b)
      && exists i :: Search.FirstBest(g, Search.JavaPort, b, side, maxDepth, maxDepth, g.moves(b), i, r.0)
                     && g.moves(b)[i] == r.1[0]
  {
    EngineGameShrinks(g, large, small);
    EngineGameEvalWithin(g, large, small);
    Search.JavaRootMove(g, Zoned, EmptyCount, b, side, maxDepth);
  }
}
