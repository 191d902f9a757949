/**
 * The Python engine (src/Python/UT3B2L.py): module-level functions over a
 * named tuple of three integers, the side a `bool`, the evaluation tables
 * passed in as two lists, and a principal variation returned as a fresh
 * list that each caller writes its move into.
 *
 * The integers are modelled as 64-bit words: every bit the engine sets
 * lies below bit 58, and `>>` on a nonnegative int is the logical shift.
 * An unwritten slot of a line, `None` in Python, is NULL_MOVE here.
 */
module PythonEngine {
  import opened Words
  import opened LineHelpers
  import opened Tables
  import opened Bitboard
  import opened BoardEval
  import opened BoardMoves
  import opened BoardSearch
  import Rules
  import Evaluation
  import Search

  /** `side and 18`: 18 for the second player, 0 (False) for the first. */
  function AndEighteen(side: bool): (r: nat)
    ensures r == 18 * SideOf(side)
  {
    if side then 18 else 0
  }

  // ---------------------------------------------------------------------
  // The groups of `lines`.

  /** Some 3-bit group of x, at offsets 0, 3, .., 21, equals LINE. */
  predicate SomeGroupFull(x: Word) {
    exists k :: 0 <= k < 8 && Group(x, 3 * k) == LINE
  }

  /** A group of `lines((w >> k) & CHUNK)` is LINE exactly when the nine bits of w from k hold a line. */
  lemma GroupsOfZone(w: Word)
    ensures SomeGroupFull(Lines(And(w, CHUNK))) == LinePresence(w)
  {
    LinesAgreeWithPresence(And(w, CHUNK));
    LinePresenceLow(And(w, CHUNK), w);
  }

  /** `any(((x >> i) & LINE) == LINE for i in range(0, 24, 3))`. */
  method AnyGroupFull(x: Word) returns (found: bool)
    ensures found == SomeGroupFull(x)
  {
    var i := 0;
    while i < 24
      invariant 0 <= i <= 24 && i % 3 == 0
      invariant forall k :: 0 <= k < i / 3 ==> Group(x, 3 * k) != LINE
    {
      if Group(x, i) == LINE {
        assert Group(x, 3 * (i / 3)) == LINE;
        return true;
      }
      i := i + 3;
    }
    return false;
  }

  /**
   * The first loop of `generate_moves`: over the groups i = 0, 3, .., 21,
   * the search stops as soon as a group of `data1` or of `data2` equals LINE.
   */
  method EitherGroupFull(data1: Word, data2: Word) returns (found: bool)
    ensures found == (SomeGroupFull(data1) || SomeGroupFull(data2))
  {
    var i := 0;
    while i < 24
      invariant 0 <= i <= 24 && i % 3 == 0
      invariant forall k :: 0 <= k < i / 3 ==> Group(data1, 3 * k) != LINE && Group(data2, 3 * k) != LINE
    {
      if Group(data1, i) == LINE || Group(data2, i) == LINE {
        assert Group(data1, 3 * (i / 3)) == LINE || Group(data2, 3 * (i / 3)) == LINE;
        return true;
      }
      i := i + 3;
    }
    return false;
  }

  // ---------------------------------------------------------------------
  // generate_moves

  /** The cells of `case 9`, read from the masked `data2`, are the open cells. */
  lemma AnyZonePython(b: Board)
    requires ZoneField(b.share) == ZONE_ANY
    ensures
      var data1 := Or(b.us, b.them);
      var data2 := And(Or(Shr(b.share, 18), b.share), DBLCHUNK);
      var large := Or(Shr(b.share, 36), Shr(b.share, 45));
      Rules.Select(0, 63, i => 0 <= i < 63 && !data1[i] && !large[i / 9])
      + Rules.Select(63, 81, i => 63 <= i < 81 && !data2[i - 63] && !large[i / 9])
      == OpenCells(b)
  {
    var data2, sToSe := And(Or(Shr(b.share, 18), b.share), DBLCHUNK), Or(Shr(b.share, 18), b.share);
    var large := Or(Shr(b.share, 36), Shr(b.share, 45));
    assert forall i :: 0 <= i < 18 ==> data2[i] == sToSe[i];
    Rules.SelectCongruent(63, 81, i => 63 <= i < 81 && !data2[i - 63] && !large[i / 9],
                                  i => 63 <= i < 81 && !sToSe[i - 63] && !large[i / 9]);
  }

  /** The cells of `case 7 | 8`, read from `data2 >> (zone - 63)`, are the open cells. */
  lemma SouthZonePython(b: Board, zone: nat)
    requires ZoneField(b.share) == zone && (zone == 7 || zone == 8)
    ensures
      var base := zone * 9;
      var occupied := Shr(And(Or(Shr(b.share, 18), b.share), DBLCHUNK), base - 63);
      Rules.Select(base, base + 9, m => base <= m < base + 9 && !occupied[m - base]) == OpenCells(b)
  {
    var base := zone * 9;
    var occupied := Shr(And(Or(Shr(b.share, 18), b.share), DBLCHUNK), base - 63);
    var sToSe := Or(Shr(b.share, 18), b.share);
    forall c | 0 <= c < 9 ensures occupied[c] == sToSe[base + c - 63] {
    }
    Rules.SelectCongruent(base, base + 9, m => base <= m < base + 9 && !occupied[m - base],
                          i => 63 <= i < 81 && !sToSe[i - 63]);
  }

  /** The cells of `case _`, read from `data1 >> zone`, are the open cells. */
  lemma NorthZonePython(b: Board, zone: nat)
    requires ZoneField(b.share) == zone && zone < 7
    ensures
      var base := zone * 9;
      var occupied := Shr(Or(b.us, b.them), base);
      Rules.Select(base, base + 9, m => base <= m < base + 9 && !occupied[m - base]) == OpenCells(b)
  {
    var base := zone * 9;
    var occupied := Shr(Or(b.us, b.them), base);
    var nwToSw := Or(b.us, b.them);
    forall c | 0 <= c < 9 ensures occupied[c] == nwToSw[base + c] {
    }
    Rules.SelectCongruent(base, base + 9, m => base <= m < base + 9 && !occupied[m - base],
                          i => 0 <= i < 63 && !nwToSw[i]);
  }

  /**
   * `generate_moves(board)`: the groups of `lines` of both large-grid words
   * are searched for a full line first, and any returns `[]`; otherwise,
   * by `match zone`, the list is extended with the free cells of unwon
   * zones (cells 0..62 from `us | them`, then 63..80 from the share word),
   * the free cells of zone 7 or 8, or the free cells of a zone 0..6, each
   * in ascending order. The list is the one the shared generator describes.
   */
  method GenerateMoves(b: Board) returns (moveList: seq<int>)
    requires ZoneField(b.share) <= 9
    ensures moveList == BoardMoves.GenerateMoves(b)
  {
    var found := LargeLineFound(b.share);
    if found {
      return [];
    }
    moveList := ZoneSwitch(b);
  }

  /** `data1`, `data2` and the `any(..)` over their groups: whether either large-grid word holds a line. */
  method LargeLineFound(share: Word) returns (found: bool)
    ensures found == (LinePresence(Shr(share, 36)) || LinePresence(Shr(share, 45)))
  {
    var data1 := Lines(And(Shr(share, 36), CHUNK));
    var data2 := Lines(And(Shr(share, 45), CHUNK));
    found := EitherGroupFull(data1, data2);
    GroupsOfZone(Shr(share, 36));
    GroupsOfZone(Shr(share, 45));
  }

  /** The `match` on the zone field: the free cells the generator lists for an unfinished board. */
  method ZoneSwitch(b: Board) returns (moveList: seq<int>)
    requires ZoneField(b.share) <= 9
    ensures moveList == OpenCells(b)
  {
    var zone := Value(And(Shr(b.share, 54), Range(0, 4)));
    if zone == 9 {
      moveList := AnyZoneMoves(b);
    } else if zone == 7 || zone == 8 {
      moveList := SouthZoneMoves(b, zone);
    } else {
      moveList := NorthZoneMoves(b, zone);
    }
  }

  /** `case 9`: the two extensions, over cells 0..62 and 63..80. */
  method AnyZoneMoves(b: Board) returns (moveList: seq<int>)
    requires ZoneField(b.share) == ZONE_ANY
    ensures moveList == OpenCells(b)
  {
    moveList := ScanAny(Or(b.us, b.them), And(Or(Shr(b.share, 18), b.share), DBLCHUNK),
                        Or(Shr(b.share, 36), Shr(b.share, 45)));
    AnyZonePython(b);
  }

  /**
   * The two extensions of `case 9`: cell i is added when bit i of `data1`
   * (for i < 63) or bit i - 63 of `data2` (for i >= 63) is clear and bit
   * i // 9 of `large` is clear.
   */
  method ScanAny(data1: Word, data2: Word, large: Word) returns (moveList: seq<int>)
    ensures moveList == Rules.Select(0, 63, i => 0 <= i < 63 && !data1[i] && !large[i / 9])
                      + Rules.Select(63, 81, i => 63 <= i < 81 && !data2[i - 63] && !large[i / 9])
  {
    moveList := [];
    var i := 0;
    while i < 63
      invariant 0 <= i <= 63
      invariant moveList == Rules.Select(0, i, i => 0 <= i < 63 && !data1[i] && !large[i / 9])
    {
      if !(Shr(data1, i)[0] || Shr(large, i / 9)[0]) {
        moveList := moveList + [i];
      }
      i := i + 1;
    }
    while i < 81
      invariant 63 <= i <= 81
      invariant moveList == Rules.Select(0, 63, i => 0 <= i < 63 && !data1[i] && !large[i / 9])
                          + Rules.Select(63, i, i => 63 <= i < 81 && !data2[i - 63] && !large[i / 9])
    {
      if !(Shr(data2, i - 63)[0] || Shr(large, i / 9)[0]) {
        moveList := moveList + [i];
      }
      i := i + 1;
    }
  }

  /** `case 7 | 8`: `zone *= 9`, `data2 >>= zone - 63`, and the free cells of the zone. */
  method SouthZoneMoves(b: Board, zone: nat) returns (moveList: seq<int>)
    requires ZoneField(b.share) == zone && (zone == 7 || zone == 8)
    ensures moveList == OpenCells(b)
  {
    var base := zone * 9;
    moveList := ScanZone(base, Shr(And(Or(Shr(b.share, 18), b.share), DBLCHUNK), base - 63));
    SouthZonePython(b, zone);
  }

  /** `case _`: `zone *= 9`, `data1 >>= zone`, and the free cells of the zone. */
  method NorthZoneMoves(b: Board, zone: nat) returns (moveList: seq<int>)
    requires ZoneField(b.share) == zone && zone < 7
    ensures moveList == OpenCells(b)
  {
    var base := zone * 9;
    moveList := ScanZone(base, Shr(Or(b.us, b.them), base));
    NorthZonePython(b, zone);
  }

  /** `move_list.extend(zone + i for i in range(9) if not ((data >> i) & 1))`. */
  method ScanZone(base: nat, data: Word) returns (moveList: seq<int>)
    ensures moveList == Rules.Select(base, base + 9, m => base <= m < base + 9 && !data[m - base])
  {
    moveList := [];
    var i := 0;
    while i < 9
      invariant 0 <= i <= 9
      invariant moveList == Rules.Select(base, base + i, m => base <= m < base + 9 && !data[m - base])
    {
      if !Shr(data, i)[0] {
        moveList := moveList + [base + i];
      }
      i := i + 1;
    }
  }

  // ---------------------------------------------------------------------
  // play_move

  /**
   * The first block of `play_move`: the mover's bit of cell `move` set in
   * `share`, `us` or `them`, and `line_occupy`, the `lines` of the mover's
   * nine bits of zone move // 9, searched for a full group. The answer is
   * whether the mover now holds a line in that zone.
   */
  method PlaceStone(b: Board, move: nat, side: bool)
    returns (us: Word, them: Word, share: Word, lineWon: bool)
    requires move < 81
    ensures Board(us, them, share) == Placed(b, move, SideOf(side))
    ensures lineWon == Rules.HasLine(GridOf(ZoneWord(Placed(b, move, SideOf(side)), move / 9, SideOf(side))))
  {
    us, them, share := b.us, b.them, b.share;
    ghost var placed := Placed(b, move, SideOf(side));
    var lineOccupy;
    if move > 62 {
      assert AndEighteen(side) == 18 * SideOf(side) && move / 9 >= 7;
      share := Or(share, Single(move - 63 + AndEighteen(side)));
      assert Board(us, them, share) == placed;
      lineOccupy := Shr(share, 9 * (move / 9) - 63 + AndEighteen(side));
    } else if !side {
      us := Or(us, Single(move));
      assert Board(us, them, share) == placed;
      lineOccupy := Shr(us, 9 * (move / 9));
    } else {
      them := Or(them, Single(move));
      assert Board(us, them, share) == placed;
      lineOccupy := Shr(them, 9 * (move / 9));
    }
    assert lineOccupy == ZoneWord(placed, move / 9, SideOf(side));
    lineWon := ZoneLineWon(lineOccupy);
  }

  /** `any(..)` over the groups of `lines(w & CHUNK)`: whether the low nine bits of w hold a line. */
  method ZoneLineWon(w: Word) returns (won: bool)
    ensures won == Rules.HasLine(GridOf(w))
  {
    var lineOccupy := Lines(And(w, CHUNK));
    won := AnyGroupFull(lineOccupy);
    GroupsOfZone(w);
    LinePresenceSpec(w);
  }

  /** Marking a zone won leaves the cells of every zone as they were. */
  lemma ChunkBeforeWon(b: Board, z: nat, side: Rules.Side, won: bool, t: nat)
    requires z < 9 && t < 9
    ensures OccupiedChunk(WithWon(b, z, side, won), t) == OccupiedChunk(b, t)
  {
    var x, y := OccupiedChunk(WithWon(b, z, side, won), t), OccupiedChunk(b, t);
    assert forall i :: 0 <= i < 64 ==> x[i] == y[i];
  }

  /**
   * `play_move(board, move, side)`: the stone and `line_occupy`; then
   * `next_chunk`, read before the won bit is set; the won bit at
   * `36 + 9 * side + move // 9` when a group of `line_occupy` is full; and
   * the zone the opponent is sent to (9 when that zone is full or won),
   * written over the zone field with `EXCLZONE`. The result is the
   * three-step move shared by the engines, and on a playable board it
   * encodes the rule-level move.
   */
  method PlayMove(b: Board, move: nat, side: bool) returns (r: Board)
    requires move < 81
    ensures r == Moved(b, move, SideOf(side))
    ensures Playable(b, move) ==> r == Encode(Rules.Play(Abs(b), move, SideOf(side)))
  {
    ghost var sd := SideOf(side);
    var us, them, share, lineWon := PlaceStone(b, move, side);
    ghost var b1 := Board(us, them, share);
    var nextChunk := NextChunk(us, them, share, move % 9);
    if lineWon {
      share := Or(share, Single(36 + 9 * SideOf(side) + move / 9));
    }
    ghost var b2 := WithWon(b1, move / 9, sd, lineWon);
    assert Board(us, them, share) == b2;
    ChunkBeforeWon(b1, move / 9, sd, lineWon, move % 9);
    var zone := if nextChunk == CHUNK || Shr(Or(share, Shr(share, 9)), 36 + move % 9)[0] then 9 else move % 9;
    assert zone == ForcedZone(b2, move % 9);
    ExclZone();
    r := Board(us, them, Or(And(share, EXCLZONE_PY), Shl(FromNat(zone), 54)));
    if Playable(b, move) {
      MovedSpec(b, move, sd);
    }
  }

  /**
   * `next_chunk`: the cells of zone t, read from `share | (share >> 18)`
   * for zones 7 and 8 and from `us | them` otherwise.
   */
  method NextChunk(us: Word, them: Word, share: Word, t: nat) returns (nextChunk: Word)
    requires t < 9
    ensures nextChunk == OccupiedChunk(Board(us, them, share), t)
  {
    if t > 6 {
      nextChunk := And(Shr(Or(share, Shr(share, 18)), 9 * (t - 7)), CHUNK);
    } else {
      nextChunk := And(Shr(Or(us, them), 9 * t), CHUNK);
    }
  }

  // ---------------------------------------------------------------------
  // evaluate

  /**
   * `evaluate(board, side, tables=tables)`: the large lookup when it is
   * decisive, the draw score when every zone is won, and otherwise the
   * large lookup plus, in the one loop over zones 0..8, the small lookup
   * of every zone that is neither full nor won, multiplied by
   * `1 - (side << 1)`. It is the shared board evaluation (with tables
   * built by `init`, the evaluation of the position the board encodes, by
   * BoardEval.EvaluateSpec).
   */
  method Evaluate(b: Board, side: bool, evalTableLarge: seq<int>, evalTableSmall: seq<int>) returns (r: int)
    requires |evalTableLarge| == TABLE_SIZE && |evalTableSmall| == TABLE_SIZE
    ensures r == BoardEval.Evaluate(b, SideOf(side), evalTableLarge, evalTableSmall)
  {
    var us, them, share := b.us, b.them, b.share;
    var eval := evalTableLarge[LargeIndex(b)];
    if eval == OUTCOME_WIN || eval == OUTCOME_LOSS {
      SideSign(SideOf(side), eval);
      return eval * (1 - 2 * SideOf(side));
    }
    var large := And(Or(Shr(share, 36), Shr(share, 45)), CHUNK);
    if large == CHUNK {
      return OUTCOME_DRAW;
    }
    var i := 0;
    while i < 9
      invariant 0 <= i <= 9
      invariant eval == evalTableLarge[LargeIndex(b)] + TableSum(b, evalTableSmall, i)
    {
      var usData, themData;
      if i < 7 {
        usData := And(Shr(us, 9 * i), CHUNK);
        themData := And(Shr(them, 9 * i), CHUNK);
      } else {
        usData := And(Shr(share, 9 * i - 63), CHUNK);
        themData := And(Shr(share, 9 * i - 45), CHUNK);
      }
      eval := AddZone(b, evalTableSmall, large, i, usData, themData, eval);
      i := i + 1;
    }
    SideSign(SideOf(side), eval);
    return eval * (1 - 2 * SideOf(side));
  }

  /**
   * The body of the loop of `evaluate`: a zone that is full
   * (`(us_data | them_data) == CHUNK`) or won (bit i of `large`) is
   * skipped, and otherwise its small-table entry is added.
   */
  method AddZone(b: Board, evalTableSmall: seq<int>, large: Word, z: nat, usData: Word, themData: Word, eval: int)
    returns (e: int)
    requires |evalTableSmall| == TABLE_SIZE && z < 9
    requires large == LargeBits(b) && usData == UsData(b, z) && themData == ThemData(b, z)
    ensures e == eval + ZoneTerm(b, evalTableSmall, z)
  {
    if Or(usData, themData) == CHUNK || Shr(large, z)[0] {
      return eval;
    }
    var index := Value(Or(Shl(themData, 9), usData));
    assert index == SmallIndex(b, z);
    e := eval + evalTableSmall[index];
  }

  // ---------------------------------------------------------------------
  // alpha_beta

  /** `generate_moves(board)` as the search reads it: the game's moves, all on the board. */
  method NodeMoves(b: Board, large: seq<int>, small: seq<int>, ghost g: Search.Game<Board>) returns (moves: seq<int>)
    requires ZoneField(b.share) <= 9 && |large| == TABLE_SIZE && |small| == TABLE_SIZE
    requires EngineGame(g, large, small)
    ensures moves == g.moves(b) && Rules.OnBoard(moves)
  {
    moves := GenerateMoves(b);
    GenerateMovesOnBoard(b);
  }

  /** `play_move(board, mv, side)` as the search reads it: the game's move, with a zone field of 0..9. */
  method ChildBoard(b: Board, mv: nat, side: bool, large: seq<int>, small: seq<int>, ghost g: Search.Game<Board>)
    returns (next: Board)
    requires mv < 81 && |large| == TABLE_SIZE && |small| == TABLE_SIZE
    requires EngineGame(g, large, small)
    ensures next == g.play(b, mv, SideOf(side)) && ZoneField(next.share) <= 9
  {
    next := PlayMove(b, mv, side);
    MovedZone(b, mv, SideOf(side));
  }

  /** `evaluate(board, side, tables=tables)` as the search reads it. */
  method LeafEval(b: Board, side: bool, large: seq<int>, small: seq<int>, ghost g: Search.Game<Board>)
    returns (e: int)
    requires |large| == TABLE_SIZE && |small| == TABLE_SIZE
    requires EngineGame(g, large, small)
    ensures e == g.eval(b, SideOf(side))
  {
    e := Evaluate(b, side, large, small);
  }

  /**
   * The score of a node without moves: the large entry times
   * `1 - (side << 1)`, moved inward by `max_depth - depth` when it is a win
   * or a loss, and OUTCOME_DRAW otherwise.
   */
  method NoMovesEval(b: Board, side: bool, depth: nat, maxDepth: nat, large: seq<int>, small: seq<int>,
                     ghost g: Search.Game<Board>) returns (eval: int)
    requires depth <= maxDepth && |large| == TABLE_SIZE && |small| == TABLE_SIZE
    requires EngineGame(g, large, small)
    ensures eval == Search.NoMovesScore(g, b, SideOf(side), depth, maxDepth)
  {
    var index := Value(And(Shr(b.share, 36), DBLCHUNK));
    assert index == LargeIndex(b);
    var entry := large[index];
    SideSign(SideOf(side), entry);
    eval := entry * (1 - 2 * SideOf(side));
    assert eval == g.large(b, SideOf(side));
    if eval == OUTCOME_WIN {
      eval := eval - (maxDepth - depth);
    } else if eval == OUTCOME_LOSS {
      eval := eval + (maxDepth - depth);
    } else {
      eval := OUTCOME_DRAW;
    }
  }

  /**
   * `alpha_beta(board, side, depth, alpha, beta, tables=tables,
   * max_depth=max_depth)`: the fail-hard negamax search over the game of
   * the shared functions. A position without moves is scored first, by
   * mate distance or as a draw, with a line of `max_depth - depth` slots;
   * only then does depth 0 return the static evaluation with a line of
   * `max_depth` slots. Every line is a fresh list into which each caller
   * writes its move at slot `max_depth - depth`.
   */
  method AlphaBeta(b: Board, side: bool, depth: nat, alpha: int, beta: int, large: seq<int>, small: seq<int>,
                   maxDepth: nat, ghost g: Search.Game<Board>) returns (score: int, line: array<int>)
    requires ZoneField(b.share) <= 9 && |large| == TABLE_SIZE && |small| == TABLE_SIZE
    requires EngineGame(g, large, small)
    requires Search.Bounds(Search.PythonPort, depth, maxDepth)
    ensures fresh(line)
    ensures (score, line[..]) == Search.AlphaBeta(g, Search.PythonPort, b, SideOf(side), depth, alpha, beta, maxDepth)
    decreases depth, 2
  {
    ghost var sd := SideOf(side);
    var moveList := NodeMoves(b, large, small, g);
    if moveList == [] {
      Search.NoMovesNode(g, Search.PythonPort, b, sd, depth, alpha, beta, maxDepth);
      var eval := NoMovesEval(b, side, depth, maxDepth, large, small, g);
      line := new int[maxDepth - depth](_ => Rules.NULL_MOVE);
      assert line[..] == Search.NoMovesLine(Search.PythonPort, depth, maxDepth);
      return eval, line;
    }
    if depth == 0 {
      Search.HorizonNode(g, Search.PythonPort, b, sd, depth, alpha, beta, maxDepth);
      var eval := LeafEval(b, side, large, small, g);
      line := new int[maxDepth](_ => Rules.NULL_MOVE);
      assert line[..] == Search.HorizonLine(Search.PythonPort, maxDepth);
      return eval, line;
    }
    Search.InnerNode(g, Search.PythonPort, b, sd, depth, alpha, beta, maxDepth);
    ghost var sweep := Search.Sweep(g, Search.PythonPort, b, sd, depth, moveList, alpha, beta, maxDepth,
                                    Search.HorizonLine(Search.PythonPort, maxDepth));
    var pv := new int[maxDepth](_ => Rules.NULL_MOVE);
    assert pv[..] == Search.HorizonLine(Search.PythonPort, maxDepth);
    var a := alpha;
    var i := 0;
    while i < |moveList|
      invariant 0 <= i <= |moveList| && fresh(pv) && pv.Length > maxDepth - depth
      invariant Search.Sweep(g, Search.PythonPort, b, sd, depth, moveList[i..], a, beta, maxDepth, pv[..]) == sweep
    {
      var cut, a2, pv2 := LoopTurn(b, side, depth, moveList, i, a, beta, large, small, maxDepth, pv, g);
      if cut {
        return a2, pv2;
      }
      a, pv := a2, pv2;
      i := i + 1;
    }
    return a, pv;
  }

  /**
   * One turn of `for mv in move_list`: the child searched with
   * (-beta, -alpha), its score negated, the move written into the child's
   * line at slot `max_depth - depth`; a cutoff returns beta with that line,
   * a strict improvement replaces alpha and the principal line.
   */
  method LoopTurn(b: Board, side: bool, depth: nat, moves: seq<int>, i: nat, alpha: int, beta: int,
                  large: seq<int>, small: seq<int>, maxDepth: nat, pv: array<int>, ghost g: Search.Game<Board>)
    returns (cut: bool, a: int, pv2: array<int>)
    requires ZoneField(b.share) <= 9 && |large| == TABLE_SIZE && |small| == TABLE_SIZE
    requires EngineGame(g, large, small)
    requires 1 <= depth && Search.Bounds(Search.PythonPort, depth, maxDepth)
    requires i < |moves| && 0 <= moves[i] < 81 && pv.Length > maxDepth - depth
    ensures pv2 == pv || fresh(pv2)
    ensures pv2.Length > maxDepth - depth
    ensures Search.Sweep(g, Search.PythonPort, b, SideOf(side), depth, moves[i..], alpha, beta, maxDepth, pv[..])
      == if cut then (a, pv2[..])
         else Search.Sweep(g, Search.PythonPort, b, SideOf(side), depth, moves[i + 1..], a, beta, maxDepth, pv2[..])
    decreases depth, 1
  {
    var mv := moves[i];
    var eval, line := ChildSearch(b, side, depth, mv, alpha, beta, large, small, maxDepth, g);
    Search.SweepTurn(g, Search.PythonPort, b, SideOf(side), depth, moves, i, alpha, beta, maxDepth, pv[..],
                     g.play(b, mv, SideOf(side)), -eval,
                     Search.AlphaBeta(g, Search.PythonPort, g.play(b, mv, SideOf(side)), Rules.Opponent(SideOf(side)),
                                      depth - 1, -beta, -alpha, maxDepth).1);
    if eval >= beta {
      return true, beta, line;
    } else if eval > alpha {
      return false, eval, line;
    }
    return false, alpha, pv;
  }

  /**
   * The child of move mv searched with (-beta, -alpha): its score negated,
   * and its line with the move written at slot `max_depth - depth`.
   */
  method ChildSearch(b: Board, side: bool, depth: nat, mv: nat, alpha: int, beta: int,
                     large: seq<int>, small: seq<int>, maxDepth: nat, ghost g: Search.Game<Board>)
    returns (eval: int, line: array<int>)
    requires ZoneField(b.share) <= 9 && |large| == TABLE_SIZE && |small| == TABLE_SIZE
    requires EngineGame(g, large, small)
    requires 1 <= depth && Search.Bounds(Search.PythonPort, depth, maxDepth) && mv < 81
    ensures fresh(line)
    ensures var r := Search.AlphaBeta(g, Search.PythonPort, g.play(b, mv, SideOf(side)), Rules.Opponent(SideOf(side)),
                                      depth - 1, -beta, -alpha, maxDepth);
      && eval == -r.0 && line.Length == |r.1| > maxDepth - depth && line[..] == r.1[maxDepth - depth := mv]
    decreases depth, 0
  {
    var next := ChildBoard(b, mv, side, large, small, g);
    var score;
    score, line := AlphaBeta(next, !side, depth - 1, -beta, -alpha, large, small, maxDepth, g);
    assert SideOf(!side) == Rules.Opponent(SideOf(side));
    eval := -score;
    line[maxDepth - depth] := mv;
  }
}
