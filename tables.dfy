/**
 * The evaluation tables of the bitboard engines, specified entry by entry.
 *
 * For every pair of 3x3 occupancy patterns (`us`, `them`) the engines store
 * a large-grid score and a small-grid score at index `(them << 9) | us`.
 * The lines of the grid are scanned in the order of `lines` (columns, rows,
 * diagonals); a line in which both sides hold a cell is skipped; the first
 * uncontested line that one side holds completely decides the entry.
 * Otherwise each uncontested line scores for the side holding cells in it,
 * and corner, edge and centre cells add a positional score.
 */
module Tables {
  import opened Words
  import opened LineHelpers
  import Rules

  const OUTCOME_WIN: int := 1000000
  const OUTCOME_DRAW: int := 0
  const OUTCOME_LOSS: int := -1000000

  const BIG_TWO_COUNT: int := 90
  const BIG_ONE_COUNT: int := 20
  const SMALL_TWO_COUNT: int := 8
  const SMALL_ONE_COUNT: int := 1

  const CENTRE: int := 9
  const CORNER: int := 7
  const EDGE: int := 5
  const SQ_BIG: int := 25

  const CORNER_MASK: Word := Bits({0, 2, 6, 8})  // 0b101_000_101
  const EDGE_MASK: Word := Bits({1, 3, 5, 7})    // 0b010_101_010
  const CENTRE_MASK: Word := Bits({4})           // 0b000_010_000

  /** The number of entries of each table: one per pair of 9-bit patterns. */
  const TABLE_SIZE: int := 262144

  /** The 3x3 grid of a 9-bit pattern (cell c is bit c). */
  function Pattern(i: nat): (g: seq<bool>)
    ensures |g| == 9
  {
    GridOf(FromNat(i))
  }

  /** Who decides a pattern pair. */
  datatype Decision = UsLine | ThemLine | Undecided

  function SwapDecision(d: Decision): Decision {
    match d
    case UsLine => ThemLine
    case ThemLine => UsLine
    case Undecided => Undecided
  }

  /** Both sides hold a cell of line k: neither can complete it. */
  predicate Contested(u: seq<bool>, t: seq<bool>, k: nat)
    requires |u| == 9 && |t| == 9 && k < 8
  {
    LineCount(u, k) != 0 && LineCount(t, k) != 0
  }

  /**
   * The decision of the first uncontested line, from line k on, that one
   * side holds completely; `us` is looked at before `them`.
   */
  function FirstDecisive(u: seq<bool>, t: seq<bool>, k: nat): Decision
    requires |u| == 9 && |t| == 9 && k <= 8
    decreases 8 - k
  {
    if k == 8 then Undecided
    else if Contested(u, t, k) then FirstDecisive(u, t, k + 1)
    else if LineCount(u, k) == 3 then UsLine
    else if LineCount(t, k) == 3 then ThemLine
    else FirstDecisive(u, t, k + 1)
  }

  /** The score of holding `count` cells of an uncontested line. */
  function Weight(count: nat, two: int, one: int): int {
    if count == 2 then two else if count == 1 then one else 0
  }

  /** The line score of lines k..7: each uncontested line scores for us and against them. */
  function LineScore(u: seq<bool>, t: seq<bool>, k: nat, two: int, one: int): int
    requires |u| == 9 && |t| == 9 && k <= 8
    decreases 8 - k
  {
    if k == 8 then 0
    else
      (if Contested(u, t, k) then 0 else Weight(LineCount(u, k), two, one) - Weight(LineCount(t, k), two, one))
      + LineScore(u, t, k + 1, two, one)
  }

  /** The cells of g selected by a mask word. */
  function Masked(g: seq<bool>, mask: Word): (r: seq<bool>)
    requires |g| == 9
    ensures |r| == 9
    ensures forall c :: 0 <= c < 9 ==> r[c] == (g[c] && mask[c])
  {
    seq(9, c requires 0 <= c < 9 => g[c] && mask[c])
  }

  /** The positional score: 7 per corner, 5 per edge, 9 for the centre, ours minus theirs. */
  function PositionScore(u: seq<bool>, t: seq<bool>): int
    requires |u| == 9 && |t| == 9
  {
    CORNER * (Count(Masked(u, CORNER_MASK)) - Count(Masked(t, CORNER_MASK)))
    + EDGE * (Count(Masked(u, EDGE_MASK)) - Count(Masked(t, EDGE_MASK)))
    + CENTRE * (Count(Masked(u, CENTRE_MASK)) - Count(Masked(t, CENTRE_MASK)))
  }

  /** The cells held by either side. */
  function Union(u: seq<bool>, t: seq<bool>): (r: seq<bool>)
    requires |u| == 9 && |t| == 9
    ensures |r| == 9
    ensures forall c :: 0 <= c < 9 ==> r[c] == (u[c] || t[c])
  {
    seq(9, c requires 0 <= c < 9 => u[c] || t[c])
  }

  /** The large-grid table entry for the pair (us, them). */
  function LargeEntry(u: seq<bool>, t: seq<bool>): int
    requires |u| == 9 && |t| == 9
  {
    match FirstDecisive(u, t, 0)
    case UsLine => OUTCOME_WIN
    case ThemLine => OUTCOME_LOSS
    case Undecided =>
      if Count(Union(u, t)) == 9 then OUTCOME_DRAW
      else LineScore(u, t, 0, BIG_TWO_COUNT, BIG_ONE_COUNT) + PositionScore(u, t) * SQ_BIG
  }

  /** The small-grid table entry: left at 0 for decided or full patterns. */
  function SmallEntry(u: seq<bool>, t: seq<bool>): int
    requires |u| == 9 && |t| == 9
  {
    if FirstDecisive(u, t, 0) != Undecided || Count(Union(u, t)) == 9 then 0
    else LineScore(u, t, 0, SMALL_TWO_COUNT, SMALL_ONE_COUNT) + PositionScore(u, t)
  }

  /** Both tables hold their specified entry at every index `them * 512 + us`. */
  predicate TablesHold(large: seq<int>, small: seq<int>) {
    && |large| == TABLE_SIZE && |small| == TABLE_SIZE
    && (forall i :: 0 <= i < TABLE_SIZE ==> large[i] == LargeEntry(Pattern(i % 512), Pattern(i / 512)))
    && (forall i :: 0 <= i < TABLE_SIZE ==> small[i] == SmallEntry(Pattern(i % 512), Pattern(i / 512)))
  }

  // ---------------------------------------------------------------------
  // What an entry means.

  /** No cell is held by both sides, as in every position reached by play. */
  predicate Disjoint(u: seq<bool>, t: seq<bool>)
    requires |u| == 9 && |t| == 9
  {
    forall c :: 0 <= c < 9 ==> !(u[c] && t[c])
  }

  /** A decision names a line that its side holds completely and the other side does not touch. */
  lemma {:induction false} DecisionWitness(u: seq<bool>, t: seq<bool>, k: nat)
    requires |u| == 9 && |t| == 9 && k <= 8
    ensures FirstDecisive(u, t, k) == UsLine ==> Rules.HasLine(u)
    ensures FirstDecisive(u, t, k) == ThemLine ==> Rules.HasLine(t)
    ensures FirstDecisive(u, t, k) == Undecided ==>
      forall j :: k <= j < 8 ==> !(Rules.LineFull(u, j) && LineCount(t, j) == 0) && !(Rules.LineFull(t, j) && LineCount(u, j) == 0)
    decreases 8 - k
  {
    if k < 8 {
      DecisionWitness(u, t, k + 1);
    }
  }

  /**
   * For disjoint patterns: the pair is undecided exactly when neither side
   * has a line, and a side that alone has a line decides it.
   */
  lemma FirstDecisiveMeaning(u: seq<bool>, t: seq<bool>)
    requires |u| == 9 && |t| == 9 && Disjoint(u, t)
    ensures FirstDecisive(u, t, 0) == Undecided <==> !Rules.HasLine(u) && !Rules.HasLine(t)
    ensures Rules.HasLine(u) && !Rules.HasLine(t) ==> FirstDecisive(u, t, 0) == UsLine
    ensures Rules.HasLine(t) && !Rules.HasLine(u) ==> FirstDecisive(u, t, 0) == ThemLine
  {
    DecisionWitness(u, t, 0);
    if Rules.HasLine(u) {
      var j :| 0 <= j < 8 && Rules.LineFull(u, j);
      assert LineCount(t, j) == 0;
    }
    if Rules.HasLine(t) {
      var j :| 0 <= j < 8 && Rules.LineFull(t, j);
      assert LineCount(u, j) == 0;
    }
  }

  /** Exchanging the sides exchanges the decision. */
  lemma {:induction false} FirstDecisiveSwap(u: seq<bool>, t: seq<bool>, k: nat)
    requires |u| == 9 && |t| == 9 && k <= 8
    ensures FirstDecisive(t, u, k) == SwapDecision(FirstDecisive(u, t, k))
    decreases 8 - k
  {
    if k < 8 {
      FirstDecisiveSwap(u, t, k + 1);
    }
  }

  /** Exchanging the sides negates the line score. */
  lemma {:induction false} LineScoreSwap(u: seq<bool>, t: seq<bool>, k: nat, two: int, one: int)
    requires |u| == 9 && |t| == 9 && k <= 8
    ensures LineScore(t, u, k, two, one) == -LineScore(u, t, k, two, one)
    decreases 8 - k
  {
    if k < 8 {
      LineScoreSwap(u, t, k + 1, two, one);
    }
  }

  /** The tables are antisymmetric: the entry for (them, us) is minus the entry for (us, them). */
  lemma EntriesAntisymmetric(u: seq<bool>, t: seq<bool>)
    requires |u| == 9 && |t| == 9
    ensures LargeEntry(t, u) == -LargeEntry(u, t)
    ensures SmallEntry(t, u) == -SmallEntry(u, t)
  {
    FirstDecisiveSwap(u, t, 0);
    UnionSwap(u, t);
    PositionScoreSwap(u, t);
    LargeEntrySwap(u, t);
    LineScoreSwap(u, t, 0, SMALL_TWO_COUNT, SMALL_ONE_COUNT);
  }

  /** The large entry of the exchanged pair, from the exchanged decision and scores. */
  lemma LargeEntrySwap(u: seq<bool>, t: seq<bool>)
    requires |u| == 9 && |t| == 9
    requires FirstDecisive(t, u, 0) == SwapDecision(FirstDecisive(u, t, 0))
    requires Union(t, u) == Union(u, t) && PositionScore(t, u) == -PositionScore(u, t)
    ensures LargeEntry(t, u) == -LargeEntry(u, t)
  {
    if FirstDecisive(u, t, 0) == Undecided {
      LineScoreSwap(u, t, 0, BIG_TWO_COUNT, BIG_ONE_COUNT);
    }
  }

  /** Exchanging the sides leaves the union. */
  lemma UnionSwap(u: seq<bool>, t: seq<bool>)
    requires |u| == 9 && |t| == 9
    ensures Union(t, u) == Union(u, t)
  {
  }

  /** Exchanging the sides negates the positional score. */
  lemma PositionScoreSwap(u: seq<bool>, t: seq<bool>)
    requires |u| == 9 && |t| == 9
    ensures PositionScore(t, u) == -PositionScore(u, t)
  {
  }

  /** Each uncontested line scores at most `two` either way. */
  lemma LineTermBound(u: seq<bool>, t: seq<bool>, k: nat, two: int, one: int)
    requires |u| == 9 && |t| == 9 && k < 8
    requires 0 <= one <= two
    ensures var d := LineScore(u, t, k, two, one) - LineScore(u, t, k + 1, two, one); -two <= d <= two
  {
  }

  /** Lines k..7 score at most `(8 - k) * two` either way. */
  lemma {:induction false} LineScoreBound(u: seq<bool>, t: seq<bool>, k: nat, two: int, one: int)
    requires |u| == 9 && |t| == 9 && k <= 8
    requires 0 <= one <= two
    ensures -(8 - k) * two <= LineScore(u, t, k, two, one) <= (8 - k) * two
    decreases 8 - k
  {
    if k < 8 {
      LineScoreBound(u, t, k + 1, two, one);
      LineTermBound(u, t, k, two, one);
      assert (8 - k) * two == two + (8 - (k + 1)) * two;
    }
  }

  lemma MaskedCount(g: seq<bool>, mask: Word, n: nat)
    requires |g| == 9
    requires n == (if mask[0] then 1 else 0) + (if mask[1] then 1 else 0) + (if mask[2] then 1 else 0)
                + (if mask[3] then 1 else 0) + (if mask[4] then 1 else 0) + (if mask[5] then 1 else 0)
                + (if mask[6] then 1 else 0) + (if mask[7] then 1 else 0) + (if mask[8] then 1 else 0)
    ensures Count(Masked(g, mask)) <= n
  {
    CountNine(Masked(g, mask));
  }

  /** The positional score is at most 4 * 7 + 4 * 5 + 9 = 57 either way. */
  lemma PositionScoreBound(u: seq<bool>, t: seq<bool>)
    requires |u| == 9 && |t| == 9
    ensures -57 <= PositionScore(u, t) <= 57
  {
    MaskedCount(u, CORNER_MASK, 4);
    MaskedCount(t, CORNER_MASK, 4);
    MaskedCount(u, EDGE_MASK, 4);
    MaskedCount(t, EDGE_MASK, 4);
    MaskedCount(u, CENTRE_MASK, 1);
    MaskedCount(t, CENTRE_MASK, 1);
  }

  /**
   * A large entry is the win sentinel exactly when us decides, the loss
   * sentinel exactly when them decides, and otherwise at most
   * 8 * 90 + 57 * 25 = 2145 in magnitude.
   */
  lemma LargeEntryRange(u: seq<bool>, t: seq<bool>)
    requires |u| == 9 && |t| == 9
    ensures LargeEntry(u, t) == OUTCOME_WIN <==> FirstDecisive(u, t, 0) == UsLine
    ensures LargeEntry(u, t) == OUTCOME_LOSS <==> FirstDecisive(u, t, 0) == ThemLine
    ensures FirstDecisive(u, t, 0) == Undecided ==> -2145 <= LargeEntry(u, t) <= 2145
  {
    LineScoreBound(u, t, 0, BIG_TWO_COUNT, BIG_ONE_COUNT);
    PositionScoreBound(u, t);
  }

  /** A small entry is at most 8 * 8 + 57 = 121 in magnitude. */
  lemma SmallEntryBound(u: seq<bool>, t: seq<bool>)
    requires |u| == 9 && |t| == 9
    ensures -121 <= SmallEntry(u, t) <= 121
  {
    LineScoreBound(u, t, 0, SMALL_TWO_COUNT, SMALL_ONE_COUNT);
    PositionScoreBound(u, t);
  }

  /** A full pattern in which neither side has a line is a draw, and its small entry is 0. */
  lemma FullPatternIsDrawn(u: seq<bool>, t: seq<bool>)
    requires |u| == 9 && |t| == 9 && Disjoint(u, t)
    requires !Rules.HasLine(u) && !Rules.HasLine(t)
    requires forall c :: 0 <= c < 9 ==> u[c] || t[c]
    ensures LargeEntry(u, t) == OUTCOME_DRAW && SmallEntry(u, t) == 0
  {
    FirstDecisiveMeaning(u, t);
    CountNine(Union(u, t));
  }

  // ---------------------------------------------------------------------
  // Table indices.

  /** `(CHUNK << 9) | CHUNK`: the 18 bits of a table index. */
  const DBLCHUNK: Word := Range(0, 18)

  /** A word whose bits from 9 up are clear, such as `(x >> k) & CHUNK`. */
  predicate NineBits(w: Word) {
    forall i :: 9 <= i < 64 ==> !w[i]
  }

  /** A word of nine bits is a pattern below 512, with the same cells. */
  lemma PatternOfWord(w: Word)
    requires NineBits(w)
    ensures Value(w) < 512 && Pattern(Value(w)) == GridOf(w)
  {
    ValueFromNat(w);
    LowHigh(w, 9, 64);
    LowBound(w, 9);
  }

  lemma DivMod512(a: int, b: int)
    requires 0 <= a && 0 <= b < 512
    ensures (512 * a + b) % 512 == b && (512 * a + b) / 512 == a
  {
  }

  /** The value of `(t << 9) | u` for two nine-bit words, and the patterns it indexes. */
  lemma TableIndex(u: Word, t: Word)
    requires NineBits(u) && NineBits(t)
    ensures var idx := Value(Or(Shl(t, 9), u));
      && idx == 512 * Value(t) + Value(u) && idx < TABLE_SIZE
      && Pattern(idx % 512) == GridOf(u) && Pattern(idx / 512) == GridOf(t)
  {
    var x := Or(Shl(t, 9), u);
    LowSplit(x, 9, 55);
    assert Pow2(9) == 512;
    LowCongruent(x, u, 9);
    LowHigh(u, 9, 64);
    LowCongruent(Shr(x, 9), t, 55);
    LowHigh(t, 9, 55);
    LowHigh(t, 9, 64);
    PatternOfWord(u);
    PatternOfWord(t);
    DivMod512(Value(t), Value(u));
  }

  /** The value of `w & DBLCHUNK`, and the patterns of its two nine-bit halves. */
  lemma DoubleChunkIndex(w: Word)
    ensures var idx := Value(And(w, DBLCHUNK));
      && idx < TABLE_SIZE
      && Pattern(idx % 512) == GridOf(w) && Pattern(idx / 512) == GridOf(Shr(w, 9))
  {
    var u := And(w, CHUNK);
    var t := And(Shr(w, 9), CHUNK);
    DoubleChunkValue(w);
    PatternOfWord(u);
    PatternOfWord(t);
    DivMod512(Value(t), Value(u));
    var idx := Value(And(w, DBLCHUNK));
    assert idx % 512 == Value(u) && idx / 512 == Value(t);
    assert GridOf(u) == GridOf(w);
    assert GridOf(t) == GridOf(Shr(w, 9));
  }

  /** `w & DBLCHUNK` is the low half `w & CHUNK` plus 512 times the high half `(w >> 9) & CHUNK`. */
  lemma DoubleChunkValue(w: Word)
    ensures NineBits(And(w, CHUNK)) && NineBits(And(Shr(w, 9), CHUNK))
    ensures Value(And(w, DBLCHUNK)) == Value(And(w, CHUNK)) + 512 * Value(And(Shr(w, 9), CHUNK))
  {
    var x := And(w, DBLCHUNK);
    var u := And(w, CHUNK);
    var t := And(Shr(w, 9), CHUNK);
    LowHigh(x, 18, 64);
    LowSplit(x, 9, 9);
    assert Pow2(9) == 512;
    LowCongruent(x, u, 9);
    LowHigh(u, 9, 64);
    LowCongruent(Shr(x, 9), t, 9);
    LowHigh(t, 9, 64);
  }
}
