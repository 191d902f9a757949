/**
 * The Java engine (src/Java/Engine.java): an object holding the two
 * evaluation tables, filled by its constructor; the side is an `int` 0 or
 * 1; `generateMoves` fills an ArrayList with loops over the bits;
 * `playMove` and `evaluate` update local copies of the words; and
 * `alphaBeta` returns its principal variation in freshly allocated int
 * arrays that the caller writes its move into.
 *
 * Java's `>>` on `long` is the arithmetic shift, modelled by `Sar`; every
 * value the engine reads from a shifted word lies below the copied sign
 * bits, so each method computes what the shared bitboard functions compute.
 */
module JavaEngine {
  import opened Words
  import opened LineHelpers
  import opened Tables
  import opened Bitboard
  import opened BoardEval
  import opened BoardMoves
  import opened BoardSearch
  import Rules
  import Evaluation
  import Search
  import TableBuilder

  // ---------------------------------------------------------------------
  // The arithmetic shifts read what the logical shifts read.

  /** `(share >> 36) & DBLCHUNK`, with `>>` on `long`, is the large-grid index. */
  lemma JavaLargeIndex(b: Board)
    ensures Value(And(Sar(b.share, 36), DBLCHUNK)) == LargeIndex(b)
  {
    SarMasked(b.share, 36, DBLCHUNK);
  }

  /** `((share >> 36) | (share >> 45)) & CHUNK`, with `>>` on `long`, marks the won zones. */
  lemma JavaLargeBits(b: Board)
    ensures And(Or(Sar(b.share, 36), Sar(b.share, 45)), CHUNK) == LargeBits(b)
  {
    forall i | 0 <= i < 64
      ensures And(Or(Sar(b.share, 36), Sar(b.share, 45)), CHUNK)[i] == LargeBits(b)[i]
    {
    }
  }

  /** `(share >> 54) & 0b1111`, with `>>` on `long`, is the zone field. */
  lemma JavaZoneField(b: Board)
    ensures Value(And(Sar(b.share, 54), Range(0, 4))) == ZoneField(b.share)
  {
    SarMasked(b.share, 54, Range(0, 4));
  }

  /** `usData` and `themData` of zone z, with `>>` on `long`. */
  lemma JavaZoneData(b: Board, z: nat)
    requires z < 9
    ensures z < 7 ==> And(Sar(b.us, 9 * z), CHUNK) == UsData(b, z)
    ensures z < 7 ==> And(Sar(b.them, 9 * z), CHUNK) == ThemData(b, z)
    ensures z >= 7 ==> And(Sar(b.share, 9 * z - 63), CHUNK) == UsData(b, z)
    ensures z >= 7 ==> And(Sar(b.share, 9 * z - 45), CHUNK) == ThemData(b, z)
  {
    if z < 7 {
      SarMasked(b.us, 9 * z, CHUNK);
      SarMasked(b.them, 9 * z, CHUNK);
    } else {
      SarMasked(b.share, 9 * z - 63, CHUNK);
      SarMasked(b.share, 9 * z - 45, CHUNK);
    }
  }

  /** The grid `linePresence` is asked about, with `>>` on `long`. */
  lemma JavaGrid(w: Word, k: nat)
    requires k <= 55
    ensures GridOf(Sar(w, k)) == GridOf(Shr(w, k))
  {
    assert GridOf(Sar(w, k)) == GridOf(Shr(w, k));
  }

  /** `linePresence` of a word shifted with `>>` on `long`. */
  lemma JavaPresence(w: Word, k: nat)
    requires k <= 55
    ensures LinePresence(Sar(w, k)) == LinePresence(Shr(w, k))
  {
    LinePresenceLow(Sar(w, k), Shr(w, k));
  }

  /** `nextChunk` and the won bit of the target zone, with `>>` on `long`. */
  lemma JavaChunk(b: Board, t: nat)
    requires t < 9
    ensures (if t > 6 then And(Sar(Or(b.share, Sar(b.share, 18)), 9 * (t - 7)), CHUNK)
             else And(Sar(Or(b.us, b.them), 9 * t), CHUNK)) == OccupiedChunk(b, t)
    ensures Sar(Or(b.share, Sar(b.share, 9)), 36 + t)[0] == Or(b.share, Shr(b.share, 9))[36 + t]
  {
    if t > 6 {
      var x, y := And(Sar(Or(b.share, Sar(b.share, 18)), 9 * (t - 7)), CHUNK), OccupiedChunk(b, t);
      assert forall i :: 0 <= i < 64 ==> x[i] == y[i];
    } else {
      SarMasked(Or(b.us, b.them), 9 * t, CHUNK);
    }
  }

  /** The cells of `case ZONE_ANY`, read from the arithmetically shifted words, are the open cells. */
  lemma AnyZoneJava(b: Board)
    requires ZoneField(b.share) == ZONE_ANY
    ensures
      var nwToSw := Or(b.us, b.them);
      var sToSe := Or(Sar(b.share, 18), b.share);
      var large := Or(Sar(b.share, 36), Sar(b.share, 45));
      Rules.Select(0, 63, i => 0 <= i < 63 && !nwToSw[i] && !large[i / 9])
      + Rules.Select(63, 81, i => 63 <= i < 81 && !sToSe[i - 63] && !large[i / 9])
      == OpenCells(b)
  {
    var nwToSw := Or(b.us, b.them);
    var sToSe, rsToSe := Or(Sar(b.share, 18), b.share), Or(Shr(b.share, 18), b.share);
    var large, rlarge := Or(Sar(b.share, 36), Sar(b.share, 45)), Or(Shr(b.share, 36), Shr(b.share, 45));
    assert forall i :: 0 <= i < 18 ==> sToSe[i] == rsToSe[i];
    assert forall z :: 0 <= z < 9 ==> large[z] == rlarge[z];
    Rules.SelectCongruent(0, 63, i => 0 <= i < 63 && !nwToSw[i] && !large[i / 9],
                                 i => 0 <= i < 63 && !nwToSw[i] && !rlarge[i / 9]);
    Rules.SelectCongruent(63, 81, i => 63 <= i < 81 && !sToSe[i - 63] && !large[i / 9],
                                  i => 63 <= i < 81 && !rsToSe[i - 63] && !rlarge[i / 9]);
  }

  /** The cells of `case 7: case 8:` are the open cells. */
  lemma SouthZoneJava(b: Board, zone: nat)
    requires ZoneField(b.share) == zone && (zone == 7 || zone == 8)
    ensures
      var base := zone * 9;
      var occupied := Sar(Or(Sar(b.share, 18), b.share), base - 63);
      Rules.Select(base, base + 9, m => base <= m < base + 9 && !occupied[m - base]) == OpenCells(b)
  {
    var base := zone * 9;
    var occupied := Sar(Or(Sar(b.share, 18), b.share), base - 63);
    var sToSe := Or(Shr(b.share, 18), b.share);
    forall c | 0 <= c < 9 ensures occupied[c] == sToSe[base + c - 63] {
      assert occupied[c] == Or(Sar(b.share, 18), b.share)[base + c - 63];
    }
    Rules.SelectCongruent(base, base + 9, m => base <= m < base + 9 && !occupied[m - base],
                          i => 63 <= i < 81 && !sToSe[i - 63]);
  }

  /** The cells of the `default` case are the open cells. */
  lemma NorthZoneJava(b: Board, zone: nat)
    requires ZoneField(b.share) == zone && zone < 7
    ensures
      var base := zone * 9;
      var occupied := Sar(Or(b.us, b.them), base);
      Rules.Select(base, base + 9, m => base <= m < base + 9 && !occupied[m - base]) == OpenCells(b)
  {
    var base := zone * 9;
    var occupied := Sar(Or(b.us, b.them), base);
    var nwToSw := Or(b.us, b.them);
    forall c | 0 <= c < 9 ensures occupied[c] == nwToSw[base + c] {
    }
    Rules.SelectCongruent(base, base + 9, m => base <= m < base + 9 && !occupied[m - base],
                          i => 0 <= i < 63 && !nwToSw[i]);
  }

  class Engine {
    /** `evalTableLarge`, indexed by `(themWon << 9) | usWon`. */
    var evalTableLarge: array<int>
    /** `evalTableSmall`, indexed by `(themData << 9) | usData`. */
    var evalTableSmall: array<int>

    /** Both tables hold 2^18 entries, and they are the tables the constructor builds. */
    ghost predicate Valid()
      reads this, evalTableLarge, evalTableSmall
    {
      && evalTableLarge.Length == TABLE_SIZE && evalTableSmall.Length == TABLE_SIZE
      && TablesHold(evalTableLarge[..], evalTableSmall[..])
    }

    /**
     * `Engine()`: two zeroed tables of 2^18 entries, the popCount table, and
     * the fill over every pair of 9-bit patterns.
     */
    constructor ()
      ensures Valid() && fresh(evalTableLarge) && fresh(evalTableSmall)
    {
      var large := new int[TABLE_SIZE](_ => 0);
      var small := new int[TABLE_SIZE](_ => 0);
      var popCount := TableBuilder.PopCountTable();
      TableBuilder.FillTables(popCount, large, small);
      evalTableLarge := large;
      evalTableSmall := small;
    }

    // -------------------------------------------------------------------
    // generateMoves

    /**
     * `generateMoves(board)`: an empty list once a large-grid word has a
     * line; otherwise, by the `switch (zone)`, the free cells of unwon zones
     * (cells 0..62 from `us | them`, then 63..80 from `share`), the free
     * cells of zone 7 or 8 from `share`, or the free cells of a zone 0..6
     * from `us | them`, each added in ascending order. The list is the one
     * the shared generator describes (on a board that encodes a position,
     * that position's legal moves, by BoardMoves.GenerateMovesSpec).
     */
    method GenerateMoves(b: Board) returns (moveList: seq<int>)
      requires ZoneField(b.share) <= 9
      ensures moveList == BoardMoves.GenerateMoves(b)
    {
      var us, them, share := b.us, b.them, b.share;
      var usLine := LinePresenceOf(share, 36);
      var themLine := LinePresenceOf(share, 45);
      if usLine || themLine {
        return [];
      }
      JavaZoneField(b);
      var zone := Value(And(Sar(share, 54), Range(0, 4)));
      moveList := [];
      if zone == ZONE_ANY {
        moveList := AnyZoneMoves(b);
      } else if zone == 7 || zone == 8 {
        moveList := SouthZoneMoves(b, zone);
      } else {
        moveList := NorthZoneMoves(b, zone);
      }
    }

    /** `linePresence(w >> k)`, with `>>` on `long`. */
    method LinePresenceOf(w: Word, k: nat) returns (present: bool)
      requires k <= 55
      ensures present == LinePresence(Shr(w, k))
    {
      present := LinePresence(Sar(w, k));
      JavaPresence(w, k);
    }

    /** `case ZONE_ANY`: the two loops over cells 0..62 and 63..80, on the words the Java code shifts. */
    method AnyZoneMoves(b: Board) returns (moveList: seq<int>)
      requires ZoneField(b.share) == ZONE_ANY
      ensures moveList == OpenCells(b)
    {
      moveList := ScanAny(Or(b.us, b.them), Or(Sar(b.share, 18), b.share), Or(Sar(b.share, 36), Sar(b.share, 45)));
      AnyZoneJava(b);
    }

    /**
     * The two loops of `case ZONE_ANY`: cell i is added when bit i of
     * `nwToSw` (for i < 63) or bit i - 63 of `sToSe` (for i >= 63) is clear
     * and bit i / 9 of `large` is clear.
     */
    method ScanAny(nwToSw: Word, sToSe: Word, large: Word) returns (moveList: seq<int>)
      ensures moveList == Rules.Select(0, 63, i => 0 <= i < 63 && !nwToSw[i] && !large[i / 9])
                        + Rules.Select(63, 81, i => 63 <= i < 81 && !sToSe[i - 63] && !large[i / 9])
    {
      moveList := [];
      var i := 0;
      while i < 63
        invariant 0 <= i <= 63
        invariant moveList == Rules.Select(0, i, i => 0 <= i < 63 && !nwToSw[i] && !large[i / 9])
      {
        if !Sar(nwToSw, i)[0] && !Sar(large, i / 9)[0] {
          moveList := moveList + [i];
        }
        i := i + 1;
      }
      while i < 81
        invariant 63 <= i <= 81
        invariant moveList == Rules.Select(0, 63, i => 0 <= i < 63 && !nwToSw[i] && !large[i / 9])
                            + Rules.Select(63, i, i => 63 <= i < 81 && !sToSe[i - 63] && !large[i / 9])
      {
        if !Sar(sToSe, i - 63)[0] && !Sar(large, i / 9)[0] {
          moveList := moveList + [i];
        }
        i := i + 1;
      }
    }

    /** `case 7: case 8:`: the free cells of the zone, read from `((share >> 18) | share) >> (zone - 63)`. */
    method SouthZoneMoves(b: Board, zone: nat) returns (moveList: seq<int>)
      requires ZoneField(b.share) == zone && (zone == 7 || zone == 8)
      ensures moveList == OpenCells(b)
    {
      var base := zone * 9;
      moveList := ScanZone(base, Sar(Or(Sar(b.share, 18), b.share), base - 63));
      SouthZoneJava(b, zone);
    }

    /** `default`: the free cells of a zone 0..6, read from `(us | them) >> zone`. */
    method NorthZoneMoves(b: Board, zone: nat) returns (moveList: seq<int>)
      requires ZoneField(b.share) == zone && zone < 7
      ensures moveList == OpenCells(b)
    {
      var base := zone * 9;
      moveList := ScanZone(base, Sar(Or(b.us, b.them), base));
      NorthZoneJava(b, zone);
    }

    /** The nine-cell loop of a single zone: cell base + i is added when bit i of `occupied` is clear. */
    method ScanZone(base: nat, occupied: Word) returns (moveList: seq<int>)
      ensures moveList == Rules.Select(base, base + 9, m => base <= m < base + 9 && !occupied[m - base])
    {
      moveList := [];
      var i := 0;
      while i < 9
        invariant 0 <= i <= 9
        invariant moveList == Rules.Select(base, base + i, m => base <= m < base + 9 && !occupied[m - base])
      {
        if !Sar(occupied, i)[0] {
          moveList := moveList + [base + i];
        }
        i := i + 1;
      }
    }

    // -------------------------------------------------------------------
    // playMove

    /**
     * The first `if` of `playMove`: the mover's bit of cell `move` set in
     * `share`, `us` or `them`, and `linePresence` asked of the mover's word
     * of zone move / 9. The answer is whether the mover now holds a line in
     * that zone.
     */
    method PlaceStone(b: Board, move: nat, side: Rules.Side)
      returns (us: Word, them: Word, share: Word, lineOccupancy: bool)
      requires move < 81
      ensures Board(us, them, share) == Placed(b, move, side)
      ensures lineOccupancy == Rules.HasLine(GridOf(ZoneWord(Placed(b, move, side), move / 9, side)))
    {
      us, them, share := b.us, b.them, b.share;
      if move > 62 {
        share := Or(share, Single(move - 63 + 18 * side));
        lineOccupancy := ZoneLine(share, 9 * (move / 9) - 63 + 18 * side);
      } else if side == 0 {
        us := Or(us, Single(move));
        lineOccupancy := ZoneLine(us, 9 * (move / 9));
      } else {
        them := Or(them, Single(move));
        lineOccupancy := ZoneLine(them, 9 * (move / 9));
      }
    }

    /** `linePresence(w >> k)`, with `>>` on `long`: whether the nine bits from k on hold a line. */
    method ZoneLine(w: Word, k: nat) returns (present: bool)
      requires k <= 55
      ensures present == Rules.HasLine(GridOf(Shr(w, k)))
    {
      JavaGrid(w, k);
      present := LinePresenceCall(Sar(w, k));
    }

    /**
     * `playMove(board, move, side)`: the stone, the won bit when the zone
     * now holds a line, and the zone the opponent is sent to (ZONE_ANY when
     * that zone is full or won), written over the zone field. The result is
     * the three-step move shared by the engines, and on a playable board it
     * encodes the rule-level move.
     */
    method PlayMove(b: Board, move: nat, side: Rules.Side) returns (r: Board)
      requires move < 81
      ensures r == Moved(b, move, side)
      ensures Playable(b, move) ==> r == Encode(Rules.Play(Abs(b), move, side))
    {
      var us, them, share, lineOccupancy := PlaceStone(b, move, side);
      ghost var b1 := Board(us, them, share);
      if lineOccupancy {
        share := Or(share, Single(36 + 9 * side + move / 9));
      }
      ghost var b2 := WithWon(b1, move / 9, side, lineOccupancy);
      assert Board(us, them, share) == b2;
      var zone := NextZone(us, them, share, move % 9);
      r := Board(us, them, Or(And(share, EXCLZONE), Shl(FromNat(zone), 54)));
      if Playable(b, move) {
        MovedSpec(b, move, side);
      }
    }

    /**
     * The `nextChunk` and `zone` of `playMove`: the cells of zone t are read
     * from `share | (share >> 18)` for zones 7 and 8 and from `us | them`
     * otherwise; a full or won zone sends the opponent anywhere.
     */
    method NextZone(us: Word, them: Word, share: Word, t: nat) returns (zone: nat)
      requires t < 9
      ensures zone == ForcedZone(Board(us, them, share), t)
    {
      var nextChunk := if t > 6 then And(Sar(Or(share, Sar(share, 18)), 9 * (t - 7)), CHUNK)
                       else And(Sar(Or(us, them), 9 * t), CHUNK);
      JavaChunk(Board(us, them, share), t);
      zone := if nextChunk == CHUNK || Sar(Or(share, Sar(share, 9)), 36 + t)[0] then ZONE_ANY else t;
    }

    // -------------------------------------------------------------------
    // evaluate

    /**
     * `evaluate(board, side)`: the large lookup when it is decisive, the draw
     * score when every zone is won, and otherwise the large lookup plus the
     * small lookup of every zone that is neither won nor full (the loop over
     * zones 0..6, then 7 and 8), multiplied by `1 - (side << 1)`. It is the
     * shared board evaluation (with the constructor's tables, the evaluation
     * of the position the board encodes, by BoardEval.EvaluateSpec).
     */
    method Evaluate(b: Board, side: Rules.Side) returns (r: int)
      requires Valid()
      ensures r == BoardEval.Evaluate(b, side, evalTableLarge[..], evalTableSmall[..])
    {
      var us, them, share := b.us, b.them, b.share;
      JavaLargeIndex(b);
      var eval := evalTableLarge[Value(And(Sar(share, 36), DBLCHUNK))];
      ghost var e := eval;
      assert e == evalTableLarge[..][LargeIndex(b)];
      if eval == OUTCOME_WIN || eval == OUTCOME_LOSS {
        SideSign(side, eval);
        return eval * (1 - 2 * side);
      }
      JavaLargeBits(b);
      var large := And(Or(Sar(share, 36), Sar(share, 45)), CHUNK);
      if large == CHUNK {
        return OUTCOME_DRAW;
      }
      eval := AddZones(b, large, eval);
      assert eval == e + TableSum(b, evalTableSmall[..], 9);
      SideSign(side, eval);
      return eval * (1 - 2 * side);
    }

    /** The two zone loops of `evaluate`: zones 0..6 read from `us` and `them`, zones 7 and 8 from `share`. */
    method AddZones(b: Board, large: Word, eval0: int) returns (eval: int)
      requires Valid() && large == LargeBits(b)
      ensures eval == eval0 + TableSum(b, evalTableSmall[..], 9)
    {
      var us, them, share := b.us, b.them, b.share;
      eval := eval0;
      var i := 0;
      while i < 7
        invariant 0 <= i <= 7
        invariant eval == eval0 + TableSum(b, evalTableSmall[..], i)
      {
        JavaZoneData(b, i);
        eval := AddZone(b, large, i, And(Sar(us, 9 * i), CHUNK), And(Sar(them, 9 * i), CHUNK), eval);
        i := i + 1;
      }
      while i < 9
        invariant 7 <= i <= 9
        invariant eval == eval0 + TableSum(b, evalTableSmall[..], i)
      {
        JavaZoneData(b, i);
        eval := AddZone(b, large, i, And(Sar(share, 9 * i - 63), CHUNK), And(Sar(share, 9 * i - 45), CHUNK), eval);
        i := i + 1;
      }
    }

    /**
     * The body of either loop of `evaluate`: a zone that is won (bit z of
     * `large`) or full (`(usData | themData) == CHUNK`) is skipped, and
     * otherwise its small-table entry is added.
     */
    method AddZone(b: Board, large: Word, z: nat, usData: Word, themData: Word, eval: int) returns (e: int)
      requires Valid() && z < 9
      requires large == LargeBits(b) && usData == UsData(b, z) && themData == ThemData(b, z)
      ensures e == eval + ZoneTerm(b, evalTableSmall[..], z)
    {
      if large[z] || Or(usData, themData) == CHUNK {
        return eval;
      }
      var index := Value(Or(Shl(themData, 9), usData));
      assert index == SmallIndex(b, z);
      e := eval + evalTableSmall[index];
    }

    // -------------------------------------------------------------------
    // alphaBeta

    /** `generateMoves(board)` as the search reads it: the game's moves, all on the board. */
    method NodeMoves(b: Board, ghost g: Search.Game<Board>) returns (moves: seq<int>)
      requires Valid() && ZoneField(b.share) <= 9
      requires EngineGame(g, evalTableLarge[..], evalTableSmall[..])
      ensures moves == g.moves(b) && Rules.OnBoard(moves)
    {
      moves := GenerateMoves(b);
      GenerateMovesOnBoard(b);
    }

    /** `playMove(board, move, side)` as the search reads it: the game's move, with a zone field of 0..9. */
    method ChildBoard(b: Board, move: nat, side: Rules.Side, ghost g: Search.Game<Board>) returns (next: Board)
      requires Valid() && move < 81
      requires EngineGame(g, evalTableLarge[..], evalTableSmall[..])
      ensures next == g.play(b, move, side) && ZoneField(next.share) <= 9
    {
      next := PlayMove(b, move, side);
      MovedZone(b, move, side);
    }

    /** `evaluate(board, side)` as the search reads it. */
    method LeafEval(b: Board, side: Rules.Side, ghost g: Search.Game<Board>) returns (e: int)
      requires Valid()
      requires EngineGame(g, evalTableLarge[..], evalTableSmall[..])
      ensures e == g.eval(b, side)
    {
      e := Evaluate(b, side);
    }

    /** `evalTableLarge[(int)((board.share() >> 36) & DBLCHUNK)] * (1 - (side << 1))`, as the search reads it. */
    method LargeEval(b: Board, side: Rules.Side, ghost g: Search.Game<Board>) returns (e: int)
      requires Valid()
      requires EngineGame(g, evalTableLarge[..], evalTableSmall[..])
      ensures e == g.large(b, side)
    {
      JavaLargeIndex(b);
      var entry := evalTableLarge[Value(And(Sar(b.share, 36), DBLCHUNK))];
      SideSign(side, entry);
      e := entry * (1 - 2 * side);
    }

    /**
     * `alphaBeta(board, side, depth, alpha, beta, maxDepth)`: the fail-hard
     * negamax search over the game of the shared functions; a sentinel score
     * at the horizon is moved inward by maxDepth, and every line is a fresh
     * int array (unwritten slots hold 0) into which each caller writes its
     * move at slot `maxDepth - depth`.
     */
    method AlphaBeta(b: Board, side: Rules.Side, depth: nat, alpha: int, beta: int, maxDepth: nat,
                     ghost g: Search.Game<Board>) returns (score: int, line: array<int>)
      requires Valid() && ZoneField(b.share) <= 9
      requires EngineGame(g, evalTableLarge[..], evalTableSmall[..])
      requires Search.Bounds(Search.JavaPort, depth, maxDepth)
      ensures fresh(line)
      ensures (score, line[..]) == Search.AlphaBeta(g, Search.JavaPort, b, side, depth, alpha, beta, maxDepth)
      decreases depth, 2
    {
      if depth == 0 {
        Search.HorizonNode(g, Search.JavaPort, b, side, depth, alpha, beta, maxDepth);
        var adjustedEval := LeafEval(b, side, g);
        line := new int[maxDepth](_ => 0);
        assert line[..] == Search.HorizonLine(Search.JavaPort, maxDepth);
        return Search.Shifted(adjustedEval, maxDepth - depth), line;
      }
      var moveList := NodeMoves(b, g);
      if moveList == [] {
        Search.NoMovesNode(g, Search.JavaPort, b, side, depth, alpha, beta, maxDepth);
        var eval := LargeEval(b, side, g);
        line := new int[maxDepth - depth](_ => 0);
        assert line[..] == Search.NoMovesLine(Search.JavaPort, depth, maxDepth);
        if eval == OUTCOME_WIN || eval == OUTCOME_LOSS {
          return Search.Shifted(eval, maxDepth - depth), line;
        }
        return OUTCOME_DRAW, line;
      }
      Search.InnerNode(g, Search.JavaPort, b, side, depth, alpha, beta, maxDepth);
      ghost var sweep := Search.Sweep(g, Search.JavaPort, b, side, depth, moveList, alpha, beta, maxDepth,
                                      Search.HorizonLine(Search.JavaPort, maxDepth));
      var pv := new int[maxDepth](_ => 0);
      assert pv[..] == Search.HorizonLine(Search.JavaPort, maxDepth);
      var a := alpha;
      var i := 0;
      while i < |moveList|
        invariant 0 <= i <= |moveList| && fresh(pv) && pv.Length > maxDepth - depth
        invariant Search.Sweep(g, Search.JavaPort, b, side, depth, moveList[i..], a, beta, maxDepth, pv[..]) == sweep
      {
        var cut, a2, pv2 := LoopTurn(b, side, depth, moveList, i, a, beta, maxDepth, pv, g);
        if cut {
          return a2, pv2;
        }
        a, pv := a2, pv2;
        i := i + 1;
      }
      return a, pv;
    }

    /**
     * One turn of the `for (int move : moveList)` loop: the child searched
     * with (-beta, -alpha), its score negated, the move written into the
     * child's line at slot `maxDepth - depth`; a cutoff returns beta with
     * that line, a strict improvement replaces alpha and the principal line.
     */
    method LoopTurn(b: Board, side: Rules.Side, depth: nat, moves: seq<int>, i: nat, alpha: int, beta: int,
                    maxDepth: nat, pv: array<int>, ghost g: Search.Game<Board>)
      returns (cut: bool, a: int, pv2: array<int>)
      requires Valid() && ZoneField(b.share) <= 9
      requires EngineGame(g, evalTableLarge[..], evalTableSmall[..])
      requires 1 <= depth && Search.Bounds(Search.JavaPort, depth, maxDepth)
      requires i < |moves| && 0 <= moves[i] < 81 && pv.Length > maxDepth - depth
      ensures pv2 == pv || fresh(pv2)
      ensures pv2.Length > maxDepth - depth
      ensures Search.Sweep(g, Search.JavaPort, b, side, depth, moves[i..], alpha, beta, maxDepth, pv[..])
        == if cut then (a, pv2[..])
           else Search.Sweep(g, Search.JavaPort, b, side, depth, moves[i + 1..], a, beta, maxDepth, pv2[..])
      decreases depth, 1
    {
      var move := moves[i];
      var eval, line := ChildSearch(b, side, depth, move, alpha, beta, maxDepth, g);
      Search.SweepTurn(g, Search.JavaPort, b, side, depth, moves, i, alpha, beta, maxDepth, pv[..],
                       g.play(b, move, side), -eval,
                       Search.AlphaBeta(g, Search.JavaPort, g.play(b, move, side), Rules.Opponent(side),
                                        depth - 1, -beta, -alpha, maxDepth).1);
      if eval >= beta {
        return true, beta, line;
      } else if eval > alpha {
        return false, eval, line;
      }
      return false, alpha, pv;
    }

    /**
     * The child of the move searched with (-beta, -alpha): its score negated,
     * and its line with the move written at slot `maxDepth - depth`.
     */
    method ChildSearch(b: Board, side: Rules.Side, depth: nat, move: nat, alpha: int, beta: int,
                       maxDepth: nat, ghost g: Search.Game<Board>) returns (eval: int, line: array<int>)
      requires Valid() && ZoneField(b.share) <= 9
      requires EngineGame(g, evalTableLarge[..], evalTableSmall[..])
      requires 1 <= depth && Search.Bounds(Search.JavaPort, depth, maxDepth) && move < 81
      ensures fresh(line)
      ensures var r := Search.AlphaBeta(g, Search.JavaPort, g.play(b, move, side), Rules.Opponent(side),
                                        depth - 1, -beta, -alpha, maxDepth);
        && eval == -r.0 && line.Length == |r.1| > maxDepth - depth && line[..] == r.1[maxDepth - depth := move]
      decreases depth, 0
    {
      var next := ChildBoard(b, move, side, g);
      var score;
      score, line := AlphaBeta(next, Rules.Opponent(side), depth - 1, -beta, -alpha, maxDepth, g);
      eval := -score;
      line[maxDepth - depth] := move;
    }
  }
}
