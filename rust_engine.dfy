/**
 * The Rust engine (src/Rust/ut3b2l/src/main.rs): the side is a `bool`
 * (false for the first player), `generate_moves` and `evaluate` are pure
 * iterator pipelines and are the shared functions BoardMoves.GenerateMoves
 * and BoardEval.Evaluate, `play_move` updates copies of the words, and
 * `alpha_beta` returns its principal variation in a fixed array of
 * `MAX_PLY` moves.
 */
module RustEngine {
  import opened Words
  import opened LineHelpers
  import opened Tables
  import opened Bitboard
  import opened BoardEval
  import opened BoardMoves
  import opened BoardSearch
  import Rules
  import Evaluation
  import Search

  /** `toggle_shift(side, num)`: `num` for the second player, 0 for the first. */
  function ToggleShift(side: bool, num: nat): (r: nat)
    ensures r == num * SideOf(side)
  {
    if side then num else 0
  }

  /** `toggle_eval(side, num)`: `num` turned to the point of view of `side`. */
  function ToggleEval(side: bool, num: int): (r: int)
    ensures r == Evaluation.ForSide(SideOf(side), num)
  {
    if side then -num else num
  }

  /** Toggling twice gives the number back. */
  lemma ToggleEvalTwice(side: bool, num: int)
    ensures ToggleEval(side, ToggleEval(side, num)) == num
  {
  }

  // ---------------------------------------------------------------------
  // play_move

  /**
   * The first block of `play_move`, `let line_occupancy = if mv > 62 { .. }
   * else if !side { .. } else { .. }`: the mover's bit of cell mv is set in
   * `share`, `us` or `them`, and `line_presence` is asked of the mover's
   * word of zone mv / 9. The words are those of the placed stone, and the
   * answer is whether the mover now holds a line in that zone.
   */
  method PlaceStone(b: Board, mv: nat, side: bool) returns (us: Word, them: Word, share: Word, lineOccupancy: bool)
    requires mv < 81
    ensures Board(us, them, share) == Placed(b, mv, SideOf(side))
    ensures lineOccupancy == Rules.HasLine(GridOf(ZoneWord(Placed(b, mv, SideOf(side)), mv / 9, SideOf(side))))
  {
    us, them, share := b.us, b.them, b.share;
    ghost var placed := Placed(b, mv, SideOf(side));
    if mv > 62 {
      assert ToggleShift(side, 18) == 18 * SideOf(side) && mv / 9 >= 7;
      share := Or(share, Single(mv - 63 + ToggleShift(side, 18)));
      assert Board(us, them, share) == placed;
      lineOccupancy := LinePresenceCall(Shr(share, 9 * (mv / 9) - 63 + ToggleShift(side, 18)));
      assert Shr(share, 9 * (mv / 9) - 63 + ToggleShift(side, 18)) == ZoneWord(placed, mv / 9, SideOf(side));
    } else if !side {
      us := Or(us, Single(mv));
      assert Board(us, them, share) == placed;
      lineOccupancy := LinePresenceCall(Shr(us, 9 * (mv / 9)));
      assert Shr(us, 9 * (mv / 9)) == ZoneWord(placed, mv / 9, SideOf(side));
    } else {
      them := Or(them, Single(mv));
      assert Board(us, them, share) == placed;
      lineOccupancy := LinePresenceCall(Shr(them, 9 * (mv / 9)));
      assert Shr(them, 9 * (mv / 9)) == ZoneWord(placed, mv / 9, SideOf(side));
    }
  }

  /**
   * `play_move(board, mv, side)`: copies of the three words are updated in
   * turn (the stone and the line test of its zone, the won bit, the forced
   * zone); the input board is a value and is left as it was. The result is
   * the three-step move shared by the engines, and on a playable board it
   * encodes the rule-level move.
   */
  method PlayMove(b: Board, mv: nat, side: bool) returns (r: Board)
    requires mv < 81
    ensures r == Moved(b, mv, SideOf(side))
    ensures Playable(b, mv) ==> r == Encode(Rules.Play(Abs(b), mv, SideOf(side)))
  {
    var us, them, share, lineOccupancy := PlaceStone(b, mv, side);
    ghost var b1 := Board(us, them, share);
    if lineOccupancy {
      share := Or(share, Single(36 + ToggleShift(side, 9) + mv / 9));
    }
    ghost var b2 := WithWon(b1, mv / 9, SideOf(side), lineOccupancy);
    assert Board(us, them, share) == b2;
    var nextChunk := if mv % 9 > 6 then And(Shr(Or(share, Shr(share, 18)), 9 * (mv % 9 - 7)), CHUNK)
                     else And(Shr(Or(us, them), 9 * (mv % 9)), CHUNK);
    var zone := if nextChunk == CHUNK || Or(share, Shr(share, 9))[36 + mv % 9] then ZONE_ANY else mv % 9;
    assert nextChunk == OccupiedChunk(b2, mv % 9);
    assert zone == ForcedZone(b2, mv % 9);
    r := Board(us, them, Or(And(share, EXCLZONE), Shl(FromNat(zone), 54)));
    if Playable(b, mv) {
      MovedSpec(b, mv, SideOf(side));
    }
  }

  // ---------------------------------------------------------------------
  // alpha_beta

  /** `generate_moves(board)` as the search reads it: the game's moves, all on the board. */
  method NodeMoves(b: Board, large: seq<int>, small: seq<int>, ghost g: Search.Game<Board>) returns (moves: seq<int>)
    requires ZoneField(b.share) <= 9 && |large| == TABLE_SIZE && |small| == TABLE_SIZE
    requires EngineGame(g, large, small)
    ensures moves == g.moves(b) && Rules.OnBoard(moves)
  {
    moves := GenerateMoves(b);
    GenerateMovesOnBoard(b);
  }

  /** `play_move(board, mv, side)` as the search reads it: the game's move, with a zone field of 0..9. */
  method ChildBoard(b: Board, mv: nat, side: bool, large: seq<int>, small: seq<int>, ghost g: Search.Game<Board>)
    returns (next: Board)
    requires mv < 81 && |large| == TABLE_SIZE && |small| == TABLE_SIZE
    requires EngineGame(g, large, small)
    ensures next == g.play(b, mv, SideOf(side)) && ZoneField(next.share) <= 9
  {
    next := PlayMove(b, mv, side);
    MovedZone(b, mv, SideOf(side));
  }

  /**
   * `alpha_beta(board, side, depth, alpha, beta, tables, max_depth)`: the
   * fail-hard negamax search over the game of the Rust functions, with the
   * line as an array of MAX_PLY slots. The `loop` over the move iterator is
   * a loop over the collected moves.
   */
  method AlphaBeta(b: Board, side: bool, depth: nat, alpha: int, beta: int, large: seq<int>, small: seq<int>,
                   maxDepth: nat, ghost g: Search.Game<Board>) returns (score: int, line: seq<int>)
    requires ZoneField(b.share) <= 9 && |large| == TABLE_SIZE && |small| == TABLE_SIZE
    requires EngineGame(g, large, small)
    requires Search.Bounds(Search.RustPort, depth, maxDepth)
    ensures (score, line) == Search.AlphaBeta(g, Search.RustPort, b, SideOf(side), depth, alpha, beta, maxDepth)
    decreases depth, 1
  {
    ghost var sd := SideOf(side);
    if depth == 0 {
      Search.HorizonNode(g, Search.RustPort, b, sd, depth, alpha, beta, maxDepth);
      return Evaluate(b, SideOf(side), large, small), Search.Blank(Search.RustPort, Search.MAX_PLY);
    }
    var moveList := NodeMoves(b, large, small, g);
    if moveList == [] {
      Search.NoMovesNode(g, Search.RustPort, b, sd, depth, alpha, beta, maxDepth);
      var eval := ToggleEval(side, large[LargeIndex(b)]);
      if eval == OUTCOME_WIN || eval == OUTCOME_LOSS {
        return Search.Shifted(eval, maxDepth - depth), Search.Blank(Search.RustPort, Search.MAX_PLY);
      }
      return OUTCOME_DRAW, Search.Blank(Search.RustPort, Search.MAX_PLY);
    }
    Search.InnerNode(g, Search.RustPort, b, sd, depth, alpha, beta, maxDepth);
    ghost var sweep := Search.Sweep(g, Search.RustPort, b, sd, depth, moveList, alpha, beta, maxDepth,
                                    Search.HorizonLine(Search.RustPort, maxDepth));
    var pv := Search.Blank(Search.RustPort, Search.MAX_PLY);
    var a := alpha;
    var i := 0;
    while i < |moveList|
      invariant 0 <= i <= |moveList| && |pv| == Search.MAX_PLY
      invariant Search.Sweep(g, Search.RustPort, b, sd, depth, moveList[i..], a, beta, maxDepth, pv) == sweep
    {
      var cut, a2, pv2 := LoopTurn(b, side, depth, moveList, i, a, beta, large, small, maxDepth, pv, g);
      if cut {
        return a2, pv2;
      }
      a, pv := a2, pv2;
      i := i + 1;
    }
    return a, pv;
  }

  /**
   * One turn of the `loop`: the child searched with (-beta, -alpha), its
   * score negated, the move written at slot `max_depth - depth`; a cutoff
   * returns beta with that line, a strict improvement replaces alpha and
   * the principal line.
   */
  method LoopTurn(b: Board, side: bool, depth: nat, moves: seq<int>, i: nat, alpha: int, beta: int,
                  large: seq<int>, small: seq<int>, maxDepth: nat, pv: seq<int>, ghost g: Search.Game<Board>)
    returns (cut: bool, a: int, pv2: seq<int>)
    requires ZoneField(b.share) <= 9 && |large| == TABLE_SIZE && |small| == TABLE_SIZE
    requires EngineGame(g, large, small)
    requires 1 <= depth && Search.Bounds(Search.RustPort, depth, maxDepth)
    requires i < |moves| && 0 <= moves[i] < 81 && |pv| == Search.MAX_PLY
    ensures |pv2| == Search.MAX_PLY
    ensures Search.Sweep(g, Search.RustPort, b, SideOf(side), depth, moves[i..], alpha, beta, maxDepth, pv)
      == if cut then (a, pv2)
         else Search.Sweep(g, Search.RustPort, b, SideOf(side), depth, moves[i + 1..], a, beta, maxDepth, pv2)
    decreases depth, 0
  {
    var mv := moves[i];
    var next := ChildBoard(b, mv, side, large, small, g);
    var eval, childLine := AlphaBeta(next, !side, depth - 1, -beta, -alpha, large, small, maxDepth, g);
    Search.SweepTurn(g, Search.RustPort, b, SideOf(side), depth, moves, i, alpha, beta, maxDepth, pv,
                     next, eval, childLine);
    eval := -eval;
    childLine := childLine[maxDepth - depth := mv];
    if eval >= beta {
      return true, beta, childLine;
    } else if eval > alpha {
      return false, eval, childLine;
    }
    return false, alpha, pv;
  }
}
