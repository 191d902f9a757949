/**
 * The two line helpers shared by the three bitboard engines, on the low nine
 * bits of a word (a 3x3 grid, cell c at bit c):
 *   `lines` spreads the grid into eight 3-bit groups, one per line, and
 *   `linePresence` tells whether some line is fully set.
 * Also the population count that the evaluation tables are built with.
 */
module LineHelpers {
  import opened Words
  import Rules

  const LINE: Word := Range(0, 3)
  const CHUNK: Word := Range(0, 9)

  /** The low nine bits of a word, as a 3x3 grid. */
  function GridOf(g: Word): (r: seq<bool>)
    ensures |r| == 9
    ensures forall c :: 0 <= c < 9 ==> r[c] == g[c]
  {
    g[..9]
  }

  /** `(g >> k) & 1`. */
  function BitAt(g: Word, k: nat): (x: Word)
    requires k < 64
    ensures IsBit(x) && x[0] == g[k]
  {
    BitOfShr(g, k);
    And(Shr(g, k), Single(0))
  }

  /** The constant `lines` multiplies bit c of the grid by: one bit in each group of a line through c. */
  function Spread(c: nat): Word
    requires c < 9
  {
    if c == 0 then Bits({2, 11, 20})           // 0b000_100_000_000_100_000_000_100
    else if c == 1 then Bits({5, 10})          // 0b000_000_000_000_010_000_100_000
    else if c == 2 then Bits({8, 9, 23})       // 0b100_000_000_000_001_100_000_000
    else if c == 3 then Bits({1, 14})          // 0b000_000_000_100_000_000_000_010
    else if c == 4 then Bits({4, 13, 19, 22})  // 0b010_010_000_010_000_000_010_000
    else if c == 5 then Bits({7, 12})          // 0b000_000_000_001_000_010_000_000
    else if c == 6 then Bits({0, 17, 21})      // 0b001_000_100_000_000_000_000_001
    else if c == 7 then Bits({3, 16})          // 0b000_000_010_000_000_000_001_000
    else Bits({6, 15, 18})                     // 0b000_001_001_000_000_001_000_000
  }

  /** `((grid >> c) & 1) * Spread(c)`. */
  function Term(grid: Word, c: nat): Word
    requires c < 9
  {
    Times(BitAt(grid, c), Spread(c))
  }

  /** `lines(grid)`: the sum of the nine terms. */
  function Lines(grid: Word): Word {
    Add(Add(Add(Add(Add(Add(Add(Add(
      Term(grid, 0), Term(grid, 1)), Term(grid, 2)), Term(grid, 3)), Term(grid, 4)),
      Term(grid, 5)), Term(grid, 6)), Term(grid, 7)), Term(grid, 8))
  }

  /** The cell whose term sets bit j of `lines(g)`, or -1 for bits 24 and up. */
  function LinesSource(j: nat): (c: int)
    ensures -1 <= c < 9
  {
    if j == 0 then 6 else if j == 1 then 3 else if j == 2 then 0
    else if j == 3 then 7 else if j == 4 then 4 else if j == 5 then 1
    else if j == 6 then 8 else if j == 7 then 5 else if j == 8 then 2
    else if j == 9 then 2 else if j == 10 then 1 else if j == 11 then 0
    else if j == 12 then 5 else if j == 13 then 4 else if j == 14 then 3
    else if j == 15 then 8 else if j == 16 then 7 else if j == 17 then 6
    else if j == 18 then 8 else if j == 19 then 4 else if j == 20 then 0
    else if j == 21 then 6 else if j == 22 then 4 else if j == 23 then 2
    else -1
  }

  lemma SpreadSource(c: nat)
    requires c < 9
    ensures forall j :: 0 <= j < 64 ==> Spread(c)[j] == (LinesSource(j) == c)
  {
  }

  /** The first n terms have no common bit, and their sum holds the bits sourced from cells below n. */
  lemma {:induction false} PartialLines(g: Word, n: nat)
    requires 1 <= n <= 9
    ensures forall j :: 0 <= j < 64 ==> PartialSum(g, n)[j] == (0 <= LinesSource(j) < n && g[LinesSource(j)])
  {
    SpreadSource(n - 1);
    if n > 1 {
      PartialLines(g, n - 1);
      AddDisjoint(PartialSum(g, n - 1), Term(g, n - 1));
    }
  }

  /** `Term(g, 0) + ... + Term(g, n - 1)`, summed left to right. */
  function PartialSum(g: Word, n: nat): Word
    requires 1 <= n <= 9
  {
    if n == 1 then Term(g, 0) else Add(PartialSum(g, n - 1), Term(g, n - 1))
  }

  /** Each bit of `lines(g)` is the cell of g routed there. */
  lemma LinesBits(g: Word)
    ensures LinesOf(Lines(g), g)
  {
    PartialLines(g, 9);
    assert PartialSum(g, 2) == Add(Term(g, 0), Term(g, 1));
    assert PartialSum(g, 3) == Add(PartialSum(g, 2), Term(g, 2));
    assert PartialSum(g, 4) == Add(PartialSum(g, 3), Term(g, 3));
    assert PartialSum(g, 5) == Add(PartialSum(g, 4), Term(g, 4));
    assert PartialSum(g, 6) == Add(PartialSum(g, 5), Term(g, 5));
    assert PartialSum(g, 7) == Add(PartialSum(g, 6), Term(g, 6));
    assert PartialSum(g, 8) == Add(PartialSum(g, 7), Term(g, 7));
    assert Lines(g) == Add(PartialSum(g, 8), Term(g, 8)) == PartialSum(g, 9);
  }

  /** The 3-bit group at offset i: `(x >> i) & LINE`. */
  function Group(x: Word, i: nat): Word
    requires i < 64
  {
    And(Shr(x, i), LINE)
  }

  /** x has the bits of `lines(g)`. */
  predicate LinesOf(x: Word, g: Word) {
    forall j :: 0 <= j < 64 ==> x[j] == (LinesSource(j) >= 0 && g[LinesSource(j)])
  }

  /**
   * Group k of `lines(g)` (offset 3k) holds line k of the grid: its first
   * cell at bit 2, its second at bit 1, its last at bit 0.
   */
  lemma LinesGroup(g: Word, k: nat)
    requires k < 8
    ensures var w := Group(Lines(g), 3 * k); var l := Rules.Line(k);
      && w[2] == g[l.0] && w[1] == g[l.1] && w[0] == g[l.2]
      && forall j :: 3 <= j < 64 ==> !w[j]
  {
    LinesBits(g);
    GroupOfLines(Lines(g), g, k);
  }

  lemma GroupOfLines(x: Word, g: Word, k: nat)
    requires k < 8 && LinesOf(x, g)
    ensures var w := Group(x, 3 * k); var l := Rules.Line(k);
      && w[2] == g[l.0] && w[1] == g[l.1] && w[0] == g[l.2]
      && forall j :: 3 <= j < 64 ==> !w[j]
  {
    var l := Rules.Line(k);
    assert LinesSource(3 * k + 2) == l.0 && LinesSource(3 * k + 1) == l.1 && LinesSource(3 * k) == l.2;
    var w := Group(x, 3 * k);
    assert w[2] == x[3 * k + 2] && w[1] == x[3 * k + 1] && w[0] == x[3 * k];
  }

  /** The number of cells a grid holds. */
  function Count(g: seq<bool>): (n: nat)
    ensures n <= |g|
  {
    CountBelow(g, |g|)
  }

  /** The number of cells below n a grid holds. */
  function CountBelow(g: seq<bool>, n: nat): (r: nat)
    requires n <= |g|
    ensures r <= n
  {
    if n == 0 then 0 else CountBelow(g, n - 1) + (if g[n - 1] then 1 else 0)
  }

  /** The number of cells of line k a grid holds. */
  function LineCount(g: seq<bool>, k: nat): (n: nat)
    requires |g| == 9 && k < 8
    ensures n <= 3
    ensures n == 3 <==> Rules.LineFull(g, k)
  {
    var l := Rules.Line(k);
    (if g[l.0] then 1 else 0) + (if g[l.1] then 1 else 0) + (if g[l.2] then 1 else 0)
  }

  /** The constant `linePresence` ors with the cell-c factor: every presence bit except those of lines through c. */
  function PresenceMask(c: nat): Word
    requires c < 9
  {
    if c == 0 then Bits({1, 2, 4, 5, 7})          // 0b10110110
    else if c == 1 then Bits({1, 2, 3, 5, 6, 7})  // 0b11101110
    else if c == 2 then Bits({1, 2, 3, 4, 6})     // 0b01011110
    else if c == 3 then Bits({0, 2, 4, 5, 6, 7})  // 0b11110101
    else if c == 4 then Bits({0, 2, 3, 5})        // 0b00101101
    else if c == 5 then Bits({0, 2, 3, 4, 6, 7})  // 0b11011101
    else if c == 6 then Bits({0, 1, 4, 5, 6})     // 0b01110011
    else if c == 7 then Bits({0, 1, 3, 5, 6, 7})  // 0b11101011
    else Bits({0, 1, 3, 4, 7})                    // 0b10011011
  }

  /** `PresenceMask(c) | (((grid >> c) & 1) * 0xff)`. */
  function Factor(grid: Word, c: nat): Word
    requires c < 9
  {
    Or(PresenceMask(c), Times(BitAt(grid, c), Range(0, 8)))
  }

  /**
   * `linePresence(grid)`: the and of the nine factors keeps presence bit b
   * exactly when every cell of line b is set; true when one survives.
   */
  function LinePresence(grid: Word): bool {
    Zero() != And(And(And(And(And(And(And(And(
      Factor(grid, 0), Factor(grid, 1)), Factor(grid, 2)), Factor(grid, 3)), Factor(grid, 4)),
      Factor(grid, 5)), Factor(grid, 6)), Factor(grid, 7)), Factor(grid, 8))
  }

  function PartialAnd(g: Word, n: nat): Word
    requires 1 <= n <= 9
  {
    if n == 1 then Factor(g, 0) else And(PartialAnd(g, n - 1), Factor(g, n - 1))
  }

  /** Presence bit b survives the first n factors. */
  predicate Survives(g: Word, n: nat, b: nat)
    requires n <= 9 && b < 64
  {
    if n == 0 then b < 8 else Survives(g, n - 1, b) && (PresenceMask(n - 1)[b] || g[n - 1])
  }

  lemma {:induction false} PartialAndBits(g: Word, n: nat)
    requires 1 <= n <= 9
    ensures forall b :: 0 <= b < 64 ==> PartialAnd(g, n)[b] == Survives(g, n, b)
  {
    FactorBits(g, n - 1);
    if n > 1 {
      PartialAndBits(g, n - 1);
    }
  }

  /** Bit b of the cell-c factor: a presence bit of the mask, or any presence bit when cell c is set. */
  lemma FactorBits(g: Word, c: nat)
    requires c < 9
    ensures forall b :: 0 <= b < 64 ==> Factor(g, c)[b] == (PresenceMask(c)[b] || (b < 8 && g[c]))
    ensures forall b :: 8 <= b < 64 ==> !PresenceMask(c)[b]
  {
  }

  /** Presence bit b stands for this line. */
  function LineOfBit(b: nat): (k: nat)
    requires b < 8
    ensures k < 8
  {
    if b < 3 then b + 3 else if b < 6 then b - 3 else b
  }

  /** Presence bit b survives the first n factors exactly when each of them keeps it. */
  lemma {:induction false} SurvivesAll(g: Word, n: nat, b: nat)
    requires n <= 9 && b < 64
    ensures Survives(g, n, b) == (b < 8 && forall c :: 0 <= c < n ==> PresenceMask(c)[b] || g[c])
  {
    if n > 0 {
      SurvivesAll(g, n - 1, b);
    }
  }

  /** Cell c lies on line k. */
  predicate OnLine(c: nat, k: nat)
    requires k < 8
  {
    c == Rules.Line(k).0 || c == Rules.Line(k).1 || c == Rules.Line(k).2
  }

  /** The mask of cell c clears exactly the presence bits of the lines through c. */
  lemma MaskOffLine(c: nat, b: nat)
    requires c < 9 && b < 8
    ensures PresenceMask(c)[b] == !OnLine(c, LineOfBit(b))
  {
    if c == 0 {
    } else if c == 1 {
    } else if c == 2 {
    } else if c == 3 {
    } else if c == 4 {
    } else if c == 5 {
    } else if c == 6 {
    } else if c == 7 {
    } else {
    }
  }

  /** Presence bit b survives all nine factors exactly when line `LineOfBit(b)` is full. */
  lemma SurvivesLine(g: Word, b: nat)
    requires b < 64
    ensures Survives(g, 9, b) == (b < 8 && Rules.LineFull(GridOf(g), LineOfBit(b)))
  {
    SurvivesAll(g, 9, b);
    if b < 8 {
      forall c | 0 <= c < 9 {
        MaskOffLine(c, b);
      }
      var l := Rules.Line(LineOfBit(b));
      assert OnLine(l.0, LineOfBit(b)) && OnLine(l.1, LineOfBit(b)) && OnLine(l.2, LineOfBit(b));
    }
  }

  /** The bits of the word `linePresence` compares with zero. */
  lemma PresenceBits(g: Word, x: Word)
    requires x == PartialAnd(g, 9)
    ensures forall b :: 0 <= b < 64 ==> x[b] == (b < 8 && Rules.LineFull(GridOf(g), LineOfBit(b)))
  {
    PartialAndBits(g, 9);
    forall b | 0 <= b < 64 ensures x[b] == (b < 8 && Rules.LineFull(GridOf(g), LineOfBit(b))) {
      SurvivesLine(g, b);
    }
  }

  /** The chain of ands in `linePresence` is the ninth partial and. */
  lemma LinePresenceUnfold(g: Word)
    ensures LinePresence(g) == (Zero() != PartialAnd(g, 9))
  {
    assert PartialAnd(g, 2) == And(Factor(g, 0), Factor(g, 1));
    assert PartialAnd(g, 3) == And(PartialAnd(g, 2), Factor(g, 2));
    assert PartialAnd(g, 4) == And(PartialAnd(g, 3), Factor(g, 3));
    assert PartialAnd(g, 5) == And(PartialAnd(g, 4), Factor(g, 4));
    assert PartialAnd(g, 6) == And(PartialAnd(g, 5), Factor(g, 5));
    assert PartialAnd(g, 7) == And(PartialAnd(g, 6), Factor(g, 6));
    assert PartialAnd(g, 8) == And(PartialAnd(g, 7), Factor(g, 7));
  }

  /** `linePresence` answers whether some line of the low nine bits is fully set. */
  lemma LinePresenceSpec(g: Word)
    ensures LinePresence(g) == Rules.HasLine(GridOf(g))
  {
    LinePresenceUnfold(g);
    SurvivorSpec(g);
  }

  /** Some presence bit survives the nine factors exactly when the low nine bits hold a line. */
  lemma SurvivorSpec(g: Word)
    ensures (Zero() != PartialAnd(g, 9)) == Rules.HasLine(GridOf(g))
  {
    var x := PartialAnd(g, 9);
    PresenceBits(g, x);
    var G := GridOf(g);
    if Rules.HasLine(G) {
      var k :| 0 <= k < 8 && Rules.LineFull(G, k);
      var b := if 3 <= k < 6 then k - 3 else if k < 3 then k + 3 else k;
      assert LineOfBit(b) == k;
      assert x[b];
    }
    if x != Zero() {
      var b :| 0 <= b < 64 && x[b];
      assert Rules.LineFull(G, LineOfBit(b));
    }
  }

  /** `linePresence` reads only the low nine bits. */
  lemma LinePresenceLow(g: Word, h: Word)
    requires forall c :: 0 <= c < 9 ==> g[c] == h[c]
    ensures LinePresence(g) == LinePresence(h)
  {
    LinePresenceSpec(g);
    LinePresenceSpec(h);
    assert GridOf(g) == GridOf(h);
  }

  /** A call `linePresence(grid)` in a method of an engine: it answers whether the low nine bits hold a line. */
  method LinePresenceCall(grid: Word) returns (present: bool)
    ensures present == Rules.HasLine(GridOf(grid))
  {
    present := LinePresence(grid);
    LinePresenceSpec(grid);
  }

  /** The 3-bit group of `lines(g)` for line k equals LINE exactly when the line is full. */
  lemma LinesGroupFull(g: Word, k: nat)
    requires k < 8
    ensures (Group(Lines(g), 3 * k) == LINE) == Rules.LineFull(GridOf(g), k)
  {
    LinesBits(g);
    GroupFullOf(Lines(g), g, k);
  }

  lemma GroupFullOf(x: Word, g: Word, k: nat)
    requires k < 8 && LinesOf(x, g)
    ensures (Group(x, 3 * k) == LINE) == Rules.LineFull(GridOf(g), k)
  {
    GroupOfLines(x, g, k);
    var w := Group(x, 3 * k);
    if Rules.LineFull(GridOf(g), k) {
      assert forall j :: 0 <= j < 64 ==> w[j] == LINE[j];
    }
    if w == LINE {
      assert w[0] && w[1] && w[2];
    }
  }

  /** Some group of `lines(g)` equals LINE exactly when `linePresence(g)` holds. */
  lemma LinesAgreeWithPresence(g: Word)
    ensures (exists k :: 0 <= k < 8 && Group(Lines(g), 3 * k) == LINE) == LinePresence(g)
  {
    LinePresenceSpec(g);
    forall k | 0 <= k < 8 ensures (Group(Lines(g), 3 * k) == LINE) == Rules.LineFull(GridOf(g), k) {
      LinesGroupFull(g, k);
    }
  }

  // ---------------------------------------------------------------------
  // Population counts.

  /** `(i >> j) & 1` on a nonnegative integer. */
  function BitOfInt(i: nat, j: nat): (d: nat)
    ensures d <= 1
    ensures d == 1 <==> Digit(i, j)
  {
    if Digit(i, j) then 1 else 0
  }

  /** The count of a 9-cell grid, cell by cell. */
  lemma CountNine(g: seq<bool>)
    requires |g| == 9
    ensures Count(g) == (if g[0] then 1 else 0) + (if g[1] then 1 else 0) + (if g[2] then 1 else 0)
                      + (if g[3] then 1 else 0) + (if g[4] then 1 else 0) + (if g[5] then 1 else 0)
                      + (if g[6] then 1 else 0) + (if g[7] then 1 else 0) + (if g[8] then 1 else 0)
  {
    assert CountBelow(g, 1) == (if g[0] then 1 else 0);
    assert CountBelow(g, 2) == CountBelow(g, 1) + (if g[1] then 1 else 0);
    assert CountBelow(g, 3) == CountBelow(g, 2) + (if g[2] then 1 else 0);
    assert CountBelow(g, 4) == CountBelow(g, 3) + (if g[3] then 1 else 0);
    assert CountBelow(g, 5) == CountBelow(g, 4) + (if g[4] then 1 else 0);
    assert CountBelow(g, 6) == CountBelow(g, 5) + (if g[5] then 1 else 0);
    assert CountBelow(g, 7) == CountBelow(g, 6) + (if g[6] then 1 else 0);
    assert CountBelow(g, 8) == CountBelow(g, 7) + (if g[7] then 1 else 0);
    assert CountBelow(g, 9) == CountBelow(g, 8) + (if g[8] then 1 else 0);
  }

  /** The nine-term sum of the popCount loop counts the low nine bits of i. */
  lemma PopCountSum(i: nat)
    ensures BitOfInt(i, 0) + BitOfInt(i, 1) + BitOfInt(i, 2) + BitOfInt(i, 3) + BitOfInt(i, 4)
          + BitOfInt(i, 5) + BitOfInt(i, 6) + BitOfInt(i, 7) + BitOfInt(i, 8) == Count(GridOf(FromNat(i)))
  {
    CountNine(GridOf(FromNat(i)));
  }
}
