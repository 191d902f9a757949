/**
 * The table lookups the three bitboard evaluators make, on the words of a
 * board, and what each lookup is in terms of the rule-level evaluation.
 */
module BoardEval {
  import opened Words
  import opened LineHelpers
  import opened Tables
  import opened Bitboard
  import Rules
  import Evaluation

  /** `x * (1 - (side << 1))`, as Java and Python write it: the score x turned to the point of view of `side`. */
  lemma SideSign(side: Rules.Side, x: int)
    ensures x * (1 - 2 * side) == Evaluation.ForSide(side, x)
  {
    if side == 1 {
      assert x * (1 - 2 * side) == -x;
    }
  }

  /** `(share >> 36) & DBLCHUNK`: the large grid as a table index. */
  function LargeIndex(b: Board): (idx: nat)
    ensures idx < TABLE_SIZE
  {
    DoubleChunkIndex(Shr(b.share, 36));
    Value(And(Shr(b.share, 36), DBLCHUNK))
  }

  /** `((share >> 36) | (share >> 45)) & CHUNK`: the zones won by someone. */
  function LargeBits(b: Board): Word {
    And(Or(Shr(b.share, 36), Shr(b.share, 45)), CHUNK)
  }

  /** `usData` of zone z: `(us >> 9z) & CHUNK`, or `(share >> (9z - 63)) & CHUNK` for zones 7 and 8. */
  function UsData(b: Board, z: nat): Word
    requires z < 9
  {
    if z < 7 then And(Shr(b.us, 9 * z), CHUNK) else And(Shr(b.share, 9 * z - 63), CHUNK)
  }

  /** `themData` of zone z: `(them >> 9z) & CHUNK`, or `(share >> (9z - 45)) & CHUNK` for zones 7 and 8. */
  function ThemData(b: Board, z: nat): Word
    requires z < 9
  {
    if z < 7 then And(Shr(b.them, 9 * z), CHUNK) else And(Shr(b.share, 9 * z - 45), CHUNK)
  }

  /** `(themData << 9) | usData`: the small-table index of zone z. */
  function SmallIndex(b: Board, z: nat): (idx: nat)
    requires z < 9
    ensures idx < TABLE_SIZE
  {
    TableIndex(UsData(b, z), ThemData(b, z));
    Value(Or(Shl(ThemData(b, z), 9), UsData(b, z)))
  }

  /** `((large >> z) & 1) == 1 || (usData | themData) == CHUNK`: zone z is not scored. */
  predicate Skipped(b: Board, z: nat)
    requires z < 9
  {
    LargeBits(b)[z] || Or(UsData(b, z), ThemData(b, z)) == CHUNK
  }

  /** The contribution of zone z: its small-table entry, or 0 when it is skipped. */
  function ZoneTerm(b: Board, small: seq<int>, z: nat): int
    requires |small| == TABLE_SIZE && z < 9
  {
    if Skipped(b, z) then 0 else small[SmallIndex(b, z)]
  }

  /** The contributions of zones 0..n-1. */
  function TableSum(b: Board, small: seq<int>, n: nat): int
    requires |small| == TABLE_SIZE && n <= 9
  {
    if n == 0 then 0 else TableSum(b, small, n - 1) + ZoneTerm(b, small, n - 1)
  }

  // ---------------------------------------------------------------------
  // What the lookups are.

  /** The large lookup is the large-table entry of the large grid. */
  lemma LargeLookup(b: Board, large: seq<int>, small: seq<int>)
    requires Encoded(b) && TablesHold(large, small)
    ensures large[LargeIndex(b)] == Evaluation.LargeScore(Abs(b))
  {
    var w := Shr(b.share, 36);
    DoubleChunkIndex(w);
    WonGridWord(b, 0);
    WonGridWord(b, 1);
    assert GridOf(Shr(w, 9)) == GridOf(Shr(b.share, 45));
  }

  /** Bit z of `large` is set exactly when zone z is won; all nine are set exactly when every zone is won. */
  lemma LargeBitsWon(b: Board)
    requires Encoded(b)
    ensures forall z :: 0 <= z < 9 ==> (LargeBits(b)[z] <==> Abs(b).won[z] != Rules.Empty)
    ensures (LargeBits(b) == CHUNK) == Evaluation.Decided(Abs(b))
  {
    if Evaluation.Decided(Abs(b)) {
      forall i | 0 <= i < 64 ensures LargeBits(b)[i] == CHUNK[i] {
        if i < 9 {
          assert Abs(b).won[i] != Rules.Empty;
        }
      }
    }
    if LargeBits(b) == CHUNK {
      forall z | 0 <= z < 9 ensures Abs(b).won[z] != Rules.Empty {
        assert LargeBits(b)[z];
      }
    }
  }

  /** The grids of usData and themData are the zone's cells held by each player. */
  lemma ZoneData(b: Board, z: nat)
    requires Encoded(b) && z < 9
    ensures GridOf(UsData(b, z)) == Rules.ZoneGrid(Abs(b).cells, z, Rules.First)
    ensures GridOf(ThemData(b, z)) == Rules.ZoneGrid(Abs(b).cells, z, Rules.Second)
  {
    ZoneGridWord(b, z, 0);
    ZoneGridWord(b, z, 1);
    assert GridOf(UsData(b, z)) == GridOf(ZoneWord(b, z, 0));
    assert GridOf(ThemData(b, z)) == GridOf(ZoneWord(b, z, 1));
  }

  /** The contribution of a zone is its score in the rule-level evaluation. */
  lemma ZoneTermSpec(b: Board, large: seq<int>, small: seq<int>, z: nat)
    requires Encoded(b) && TablesHold(large, small) && z < 9
    ensures ZoneTerm(b, small, z) == Evaluation.ZoneScore(Abs(b), z)
  {
    var u, t := UsData(b, z), ThemData(b, z);
    ZoneData(b, z);
    LargeBitsWon(b);
    FullChunk(Or(u, t), Abs(b).cells, z);
    TableIndex(u, t);
  }

  lemma {:induction false} TableSumSpec(b: Board, large: seq<int>, small: seq<int>, n: nat)
    requires Encoded(b) && TablesHold(large, small) && n <= 9
    ensures TableSum(b, small, n) == Evaluation.ZonesScore(Abs(b), n)
  {
    if n > 0 {
      TableSumSpec(b, large, small, n - 1);
      ZoneTermSpec(b, large, small, n - 1);
    }
  }

  // ---------------------------------------------------------------------
  // The evaluation of a board.

  /**
   * The evaluation the three bitboard engines compute: the large lookup when
   * it is decisive, the draw score when every zone is won, and otherwise the
   * sum of the nine zone terms added to the large lookup, turned to `side`.
   */
  function Evaluate(b: Board, side: Rules.Side, large: seq<int>, small: seq<int>): int
    requires |large| == TABLE_SIZE && |small| == TABLE_SIZE
  {
    var eval := large[LargeIndex(b)];
    if eval == OUTCOME_WIN || eval == OUTCOME_LOSS then Evaluation.ForSide(side, eval)
    else if LargeBits(b) == CHUNK then OUTCOME_DRAW
    else Evaluation.ForSide(side, eval + TableSum(b, small, 9))
  }

  /**
   * With the tables the initialisation builds, the board evaluation is the
   * evaluation of the position the board encodes; the two sides'
   * evaluations are opposite.
   */
  lemma EvaluateSpec(b: Board, side: Rules.Side, large: seq<int>, small: seq<int>)
    requires Encoded(b) && TablesHold(large, small)
    ensures Evaluate(b, side, large, small) == Evaluation.Eval(Abs(b), side)
    ensures Evaluate(b, Rules.Opponent(side), large, small) == -Evaluate(b, side, large, small)
  {
    LargeLookup(b, large, small);
    LargeBitsWon(b);
    TableSumSpec(b, large, small, 9);
    EvaluateOf(b, side, large, small, Abs(b));
    EvaluateOpposite(b, side, large, small);
  }

  /** The board evaluation is the evaluation of any state whose three parts the lookups give. */
  lemma EvaluateOf(b: Board, side: Rules.Side, large: seq<int>, small: seq<int>, s: Rules.State)
    requires |large| == TABLE_SIZE && |small| == TABLE_SIZE && Rules.WellFormed(s)
    requires large[LargeIndex(b)] == Evaluation.LargeScore(s)
    requires (LargeBits(b) == CHUNK) == Evaluation.Decided(s)
    requires TableSum(b, small, 9) == Evaluation.ZonesScore(s, 9)
    ensures Evaluate(b, side, large, small) == Evaluation.Eval(s, side)
  {
  }

  /** Turning the board evaluation to the other side negates it. */
  lemma EvaluateOpposite(b: Board, side: Rules.Side, large: seq<int>, small: seq<int>)
    requires |large| == TABLE_SIZE && |small| == TABLE_SIZE
    ensures Evaluate(b, Rules.Opponent(side), large, small) == -Evaluate(b, side, large, small)
  {
    var e := large[LargeIndex(b)];
    var t := TableSum(b, small, 9);
    assert Evaluation.ForSide(Rules.Opponent(side), e) == -Evaluation.ForSide(side, e);
    assert Evaluation.ForSide(Rules.Opponent(side), e + t) == -Evaluation.ForSide(side, e + t);
  }
}
