/**
 * Building the evaluation tables, as the Java constructor, the Rust `init`
 * and the Python `init` do it with the same nested loops: a popCount table
 * for 0..511, then, for every pair (us, them) of 9-bit patterns, a scan of
 * the eight line groups of `lines(us)` and `lines(them)` and a store into
 * both tables at `(them << 9) | us`.
 */
module TableBuilder {
  import opened Words
  import opened LineHelpers
  import opened Tables

  /** The popCount table: entry i counts the set bits of i. */
  predicate PopCountsHold(p: seq<int>) {
    |p| == 512 && forall i :: 0 <= i < 512 ==> p[i] == Count(Pattern(i))
  }

  /** Fills `popCount[i]` with `(i & 1) + ((i >> 1) & 1) + ... + ((i >> 8) & 1)`. */
  method PopCountTable() returns (popCount: array<int>)
    ensures fresh(popCount)
    ensures PopCountsHold(popCount[..])
  {
    popCount := new int[512];
    for i := 0 to 512
      invariant forall j :: 0 <= j < i ==> popCount[j] == Count(Pattern(j))
    {
      PopCountSum(i);
      popCount[i] := BitOfInt(i, 0) + BitOfInt(i, 1) + BitOfInt(i, 2) + BitOfInt(i, 3) + BitOfInt(i, 4)
                   + BitOfInt(i, 5) + BitOfInt(i, 6) + BitOfInt(i, 7) + BitOfInt(i, 8);
    }
  }

  /** `lines(grid)`, as a method: each bit of the result is the cell of the grid routed there. */
  method LinesMethod(grid: Word) returns (x: Word)
    ensures LinesOf(x, grid)
  {
    x := Lines(grid);
    LinesBits(grid);
  }

  /** Looking up group 3k of a word holding `lines(g)` in the popCount table counts line k. */
  lemma GroupCount(p: seq<int>, x: Word, g: Word, k: nat)
    requires PopCountsHold(p) && LinesOf(x, g) && k < 8
    ensures Value(Group(x, 3 * k)) < 512
    ensures p[Value(Group(x, 3 * k))] == LineCount(GridOf(g), k)
  {
    var w := Group(x, 3 * k);
    GroupOfLines(x, g, k);
    PatternOfWord(w);
    CountNine(GridOf(w));
  }

  /** Looking up a nine-bit word in the popCount table counts its cells. */
  lemma WordCount(p: seq<int>, w: Word)
    requires PopCountsHold(p) && NineBits(w)
    ensures Value(w) < 512 && p[Value(w)] == Count(GridOf(w))
  {
    PatternOfWord(w);
  }

  /** `popCount[(int)((x >> i) & LINE)]` for a word x holding `lines(g)`: the cells of line i/3. */
  method CountAt(popCount: array<int>, x: Word, ghost g: Word, i: nat, ghost k: nat) returns (n: int)
    requires PopCountsHold(popCount[..]) && LinesOf(x, g) && k < 8 && i == 3 * k
    ensures n == LineCount(GridOf(g), k)
  {
    GroupCount(popCount[..], x, g, k);
    n := popCount[Value(Group(x, i))];
  }

  /**
   * The inner line loop for one pair: scans the groups at offsets 0, 3, ..., 21,
   * skipping contested lines, stopping at the first completed one, and
   * accumulating the large and small line scores.
   */
  method ScanLines(popCount: array<int>, us: nat, them: nat)
    returns (usWon: bool, themWon: bool, evalLarge: int, evalSmall: int)
    requires PopCountsHold(popCount[..])
    ensures usWon <==> FirstDecisive(Pattern(us), Pattern(them), 0) == UsLine
    ensures themWon <==> FirstDecisive(Pattern(us), Pattern(them), 0) == ThemLine
    ensures FirstDecisive(Pattern(us), Pattern(them), 0) == Undecided ==>
      && evalLarge == LineScore(Pattern(us), Pattern(them), 0, BIG_TWO_COUNT, BIG_ONE_COUNT)
      && evalSmall == LineScore(Pattern(us), Pattern(them), 0, SMALL_TWO_COUNT, SMALL_ONE_COUNT)
  {
    var u, t := FromNat(us), FromNat(them);
    ghost var U, T := GridOf(u), GridOf(t);
    evalLarge, evalSmall := 0, 0;
    var usLines := LinesMethod(u);
    var themLines := LinesMethod(t);
    usWon, themWon := false, false;
    var i, k := 0, 0;
    while i < 24
      invariant 0 <= k <= 8 && i == 3 * k
      invariant Scanned(U, T, k, evalLarge, evalSmall)
      decreases 24 - i
    {
      var usCount := CountAt(popCount, usLines, u, i, k);
      var themCount := CountAt(popCount, themLines, t, i, k);

      if usCount != 0 && themCount != 0 {
        ScanContested(U, T, k, evalLarge, evalSmall);
        i, k := i + 3, k + 1;
        continue;
      }
      if usCount == 3 {
        ScanFull(U, T, k, evalLarge, evalSmall);
        usWon := true;
        break;
      }
      if themCount == 3 {
        ScanFull(U, T, k, evalLarge, evalSmall);
        themWon := true;
        break;
      }

      ScanScored(U, T, k, evalLarge, evalSmall);
      evalLarge := evalLarge + (if usCount == 2 then BIG_TWO_COUNT else if usCount == 1 then BIG_ONE_COUNT else 0);
      evalLarge := evalLarge - (if themCount == 2 then BIG_TWO_COUNT else if themCount == 1 then BIG_ONE_COUNT else 0);
      evalSmall := evalSmall + (if usCount == 2 then SMALL_TWO_COUNT else if usCount == 1 then SMALL_ONE_COUNT else 0);
      evalSmall := evalSmall - (if themCount == 2 then SMALL_TWO_COUNT else if themCount == 1 then SMALL_ONE_COUNT else 0);
      i, k := i + 3, k + 1;
    }
    if !usWon && !themWon {
      ScanEnd(U, T, evalLarge, evalSmall);
    }
  }

  /**
   * After lines 0..k-1 of the scan: no line so far decided, and the two
   * scores plus those of lines k..7 are the scores of all eight lines.
   */
  predicate Scanned(u: seq<bool>, t: seq<bool>, k: nat, evalLarge: int, evalSmall: int)
    requires |u| == 9 && |t| == 9 && k <= 8
  {
    && FirstDecisive(u, t, k) == FirstDecisive(u, t, 0)
    && evalLarge + LineScore(u, t, k, BIG_TWO_COUNT, BIG_ONE_COUNT) == LineScore(u, t, 0, BIG_TWO_COUNT, BIG_ONE_COUNT)
    && evalSmall + LineScore(u, t, k, SMALL_TWO_COUNT, SMALL_ONE_COUNT)
       == LineScore(u, t, 0, SMALL_TWO_COUNT, SMALL_ONE_COUNT)
  }

  /** A contested line is passed over. */
  lemma ScanContested(u: seq<bool>, t: seq<bool>, k: nat, evalLarge: int, evalSmall: int)
    requires |u| == 9 && |t| == 9 && k < 8 && Scanned(u, t, k, evalLarge, evalSmall) && Contested(u, t, k)
    ensures Scanned(u, t, k + 1, evalLarge, evalSmall)
  {
  }

  /** An uncontested full line decides: us first, then them. */
  lemma ScanFull(u: seq<bool>, t: seq<bool>, k: nat, evalLarge: int, evalSmall: int)
    requires |u| == 9 && |t| == 9 && k < 8 && Scanned(u, t, k, evalLarge, evalSmall) && !Contested(u, t, k)
    ensures LineCount(u, k) == 3 ==> FirstDecisive(u, t, 0) == UsLine
    ensures LineCount(u, k) != 3 && LineCount(t, k) == 3 ==> FirstDecisive(u, t, 0) == ThemLine
  {
  }

  /** Any other line adds its weights to both scores. */
  lemma ScanScored(u: seq<bool>, t: seq<bool>, k: nat, evalLarge: int, evalSmall: int)
    requires |u| == 9 && |t| == 9 && k < 8 && Scanned(u, t, k, evalLarge, evalSmall) && !Contested(u, t, k)
    requires LineCount(u, k) != 3 && LineCount(t, k) != 3
    ensures var cu, ct := LineCount(u, k), LineCount(t, k);
      Scanned(u, t, k + 1,
              evalLarge + Weight(cu, BIG_TWO_COUNT, BIG_ONE_COUNT) - Weight(ct, BIG_TWO_COUNT, BIG_ONE_COUNT),
              evalSmall + Weight(cu, SMALL_TWO_COUNT, SMALL_ONE_COUNT) - Weight(ct, SMALL_TWO_COUNT, SMALL_ONE_COUNT))
  {
  }

  /** A scan through all eight lines found no decision and has both scores. */
  lemma ScanEnd(u: seq<bool>, t: seq<bool>, evalLarge: int, evalSmall: int)
    requires |u| == 9 && |t| == 9 && Scanned(u, t, 8, evalLarge, evalSmall)
    ensures FirstDecisive(u, t, 0) == Undecided
    ensures evalLarge == LineScore(u, t, 0, BIG_TWO_COUNT, BIG_ONE_COUNT)
    ensures evalSmall == LineScore(u, t, 0, SMALL_TWO_COUNT, SMALL_ONE_COUNT)
  {
  }

  /** Looking up `w & mask` in the popCount table counts the masked cells of w. */
  lemma MaskLookup(p: seq<int>, w: Word, mask: Word)
    requires PopCountsHold(p) && NineBits(mask)
    ensures Value(And(w, mask)) < 512
    ensures p[Value(And(w, mask))] == Count(Masked(GridOf(w), mask))
  {
    WordCount(p, And(w, mask));
    assert GridOf(And(w, mask)) == Masked(GridOf(w), mask);
  }

  /** The positional score of a pair, from three popCount lookups per side. */
  method PositionalScore(popCount: array<int>, us: nat, them: nat) returns (evalPos: int)
    requires PopCountsHold(popCount[..])
    ensures evalPos == PositionScore(Pattern(us), Pattern(them))
  {
    var u, t := FromNat(us), FromNat(them);
    assert NineBits(CORNER_MASK) && NineBits(EDGE_MASK) && NineBits(CENTRE_MASK);
    MaskLookup(popCount[..], u, CORNER_MASK);
    MaskLookup(popCount[..], t, CORNER_MASK);
    MaskLookup(popCount[..], u, EDGE_MASK);
    MaskLookup(popCount[..], t, EDGE_MASK);
    MaskLookup(popCount[..], u, CENTRE_MASK);
    MaskLookup(popCount[..], t, CENTRE_MASK);
    evalPos := CORNER * (popCount[Value(And(u, CORNER_MASK))] - popCount[Value(And(t, CORNER_MASK))])
             + EDGE * (popCount[Value(And(u, EDGE_MASK))] - popCount[Value(And(t, EDGE_MASK))])
             + CENTRE * (popCount[Value(And(u, CENTRE_MASK))] - popCount[Value(And(t, CENTRE_MASK))]);
  }

  /** The store index `(them << 9) | us` of a pair: them * 512 + us. */
  method PairIndex(us: nat, them: nat) returns (idx: int)
    requires us < 512 && them < 512
    ensures idx == Index(us, them)
  {
    assert Pow2(9) == 512;
    FromNatValue(us, 9);
    FromNatValue(them, 9);
    TableIndex(FromNat(us), FromNat(them));
    idx := Value(Or(Shl(FromNat(them), 9), FromNat(us)));
  }

  /** The table index of the pair (us, them). */
  function Index(us: int, them: int): int {
    512 * them + us
  }

  /** `popCount[us | them] == 9`: every cell of the pair is held. */
  method PairFull(popCount: array<int>, us: nat, them: nat) returns (full: bool)
    requires PopCountsHold(popCount[..]) && us < 512 && them < 512
    ensures full == (Count(Union(Pattern(us), Pattern(them))) == 9)
  {
    assert Pow2(9) == 512;
    FromNatValue(us, 9);
    FromNatValue(them, 9);
    WordCount(popCount[..], Or(FromNat(us), FromNat(them)));
    assert GridOf(Or(FromNat(us), FromNat(them))) == Union(Pattern(us), Pattern(them));
    full := popCount[Value(Or(FromNat(us), FromNat(them)))] == 9;
  }

  /**
   * The if-chain at the end of the pair body: the win or loss sentinel, the
   * draw value for a full pattern, or the line score plus the scaled
   * positional score; the small-table entry is written only in that last,
   * scored case.
   */
  method Entries(ghost u: seq<bool>, ghost t: seq<bool>, usWon: bool, themWon: bool, full: bool,
                 evalLarge: int, evalSmall: int, evalPos: int)
    returns (entryLarge: int, scored: bool, entrySmall: int)
    requires |u| == 9 && |t| == 9
    requires usWon <==> FirstDecisive(u, t, 0) == UsLine
    requires themWon <==> FirstDecisive(u, t, 0) == ThemLine
    requires FirstDecisive(u, t, 0) == Undecided ==>
      && evalLarge == LineScore(u, t, 0, BIG_TWO_COUNT, BIG_ONE_COUNT)
      && evalSmall == LineScore(u, t, 0, SMALL_TWO_COUNT, SMALL_ONE_COUNT)
    requires evalPos == PositionScore(u, t) && full == (Count(Union(u, t)) == 9)
    ensures entryLarge == LargeEntry(u, t)
    ensures entrySmall == SmallEntry(u, t)
    ensures !scored ==> entrySmall == 0
  {
    scored, entrySmall := false, 0;
    if usWon {
      entryLarge := OUTCOME_WIN;
    } else if themWon {
      entryLarge := OUTCOME_LOSS;
    } else if full {
      entryLarge := OUTCOME_DRAW;
    } else {
      entryLarge := evalLarge + evalPos * SQ_BIG;
      scored, entrySmall := true, evalSmall + evalPos;
    }
  }

  /** The body of the nested loops for one pair (us, them): both entries of the pair. */
  method PairEntries(popCount: array<int>, us: nat, them: nat) returns (entryLarge: int, scored: bool, entrySmall: int)
    requires PopCountsHold(popCount[..]) && us < 512 && them < 512
    ensures entryLarge == LargeEntry(Pattern(us), Pattern(them))
    ensures entrySmall == SmallEntry(Pattern(us), Pattern(them))
    ensures !scored ==> entrySmall == 0
  {
    var usWon, themWon, evalLarge, evalSmall := ScanLines(popCount, us, them);
    var evalPos := PositionalScore(popCount, us, them);
    var full := PairFull(popCount, us, them);
    entryLarge, scored, entrySmall := Entries(Pattern(us), Pattern(them), usWon, themWon, full, evalLarge, evalSmall, evalPos);
  }

  /** The entries written for `us`, in the order of `them`, are the specified ones. */
  ghost predicate ColumnOk(us: nat, column: seq<(int, int)>) {
    && |column| <= 512
    && forall t {:trigger LargeEntry(Pattern(us), Pattern(t))} :: 0 <= t < |column| ==>
      column[t] == (LargeEntry(Pattern(us), Pattern(t)), SmallEntry(Pattern(us), Pattern(t)))
  }

  /** Writing the specified entry for the next `them` keeps the column correct. */
  lemma ColumnOkAppend(us: nat, column: seq<(int, int)>, entryLarge: int, entrySmall: int)
    requires ColumnOk(us, column) && |column| < 512
    requires entryLarge == LargeEntry(Pattern(us), Pattern(|column|))
    requires entrySmall == SmallEntry(Pattern(us), Pattern(|column|))
    ensures ColumnOk(us, column + [(entryLarge, entrySmall)])
  {
    var c := column + [(entryLarge, entrySmall)];
    forall t | 0 <= t < |c|
      ensures c[t] == (LargeEntry(Pattern(us), Pattern(t)), SmallEntry(Pattern(us), Pattern(t)))
    {
      if t < |column| {
        assert c[t] == column[t];
      }
    }
  }

  /**
   * The tables L and S, started from L0 and S0, hold the column of `us` at
   * its first |column| entries and still hold 0 after them in `small`; every
   * other column is untouched.
   */
  ghost predicate Written(L: seq<int>, S: seq<int>, L0: seq<int>, S0: seq<int>, us: nat, column: seq<(int, int)>) {
    && |L| == TABLE_SIZE && |S| == TABLE_SIZE && |L0| == TABLE_SIZE && |S0| == TABLE_SIZE
    && us < 512 && |column| <= 512
    && (forall t :: 0 <= t < |column| ==> L[Index(us, t)] == column[t].0 && S[Index(us, t)] == column[t].1)
    && (forall t :: |column| <= t < 512 ==> S[Index(us, t)] == 0)
    && (forall i :: 0 <= i < TABLE_SIZE && i % 512 != us ==> L[i] == L0[i] && S[i] == S0[i])
  }

  /** `large[idx] = entryLarge`, and `small[idx] = entrySmall` when the pair is scored. */
  method StoreEntry(large: array<int>, small: array<int>, us: nat, them: nat, entryLarge: int, scored: bool, entrySmall: int,
                    ghost L0: seq<int>, ghost S0: seq<int>, ghost column: seq<(int, int)>)
    requires large != small && |column| == them < 512
    requires Written(large[..], small[..], L0, S0, us, column)
    requires !scored ==> entrySmall == 0
    modifies large, small
    ensures Written(large[..], small[..], L0, S0, us, column + [(entryLarge, entrySmall)])
  {
    var idx := PairIndex(us, them);
    DivMod512(them, us);
    large[idx] := entryLarge;
    if scored {
      small[idx] := entrySmall;
    }
    ghost var c := column + [(entryLarge, entrySmall)];
    forall t | 0 <= t < |c| ensures large[Index(us, t)] == c[t].0 && small[Index(us, t)] == c[t].1 {
      if t < them {
        assert c[t] == column[t];
      }
    }
  }

  /** The inner loop: fills the entries of one `us` for every `them`. */
  method FillColumn(popCount: array<int>, large: array<int>, small: array<int>, us: nat)
    returns (ghost column: seq<(int, int)>)
    requires PopCountsHold(popCount[..]) && us < 512
    requires large.Length == TABLE_SIZE && small.Length == TABLE_SIZE
    requires large != popCount && small != popCount && large != small
    requires forall i :: 0 <= i < TABLE_SIZE && i % 512 == us ==> small[i] == 0
    modifies large, small
    ensures |column| == 512 && ColumnOk(us, column)
    ensures forall i :: 0 <= i < TABLE_SIZE && i % 512 == us ==>
      large[i] == column[i / 512].0 && small[i] == column[i / 512].1
    ensures forall i :: 0 <= i < TABLE_SIZE && i % 512 != us ==> large[i] == old(large[i]) && small[i] == old(small[i])
  {
    column := [];
    forall t | 0 <= t < 512 ensures small[Index(us, t)] == 0 {
      DivMod512(t, us);
    }
    ghost var L0, S0 := large[..], small[..];
    var them := 0;
    while them < 512
      invariant 0 <= them <= 512 && |column| == them && ColumnOk(us, column)
      invariant Written(large[..], small[..], L0, S0, us, column)
    {
      var entryLarge, scored, entrySmall := PairEntries(popCount, us, them);
      StoreEntry(large, small, us, them, entryLarge, scored, entrySmall, L0, S0, column);
      ColumnOkAppend(us, column, entryLarge, entrySmall);
      column := column + [(entryLarge, entrySmall)];
      them := them + 1;
    }
    forall i | 0 <= i < TABLE_SIZE && i % 512 == us
      ensures large[i] == column[i / 512].0 && small[i] == column[i / 512].1
    {
      assert i == Index(us, i / 512);
      assert large[..][Index(us, i / 512)] == column[i / 512].0;
    }
  }

  /** Fills both tables, for every `us` and, inside, every `them`. */
  method FillTables(popCount: array<int>, large: array<int>, small: array<int>)
    requires PopCountsHold(popCount[..])
    requires large.Length == TABLE_SIZE && small.Length == TABLE_SIZE
    requires large != popCount && small != popCount && large != small
    requires forall i :: 0 <= i < TABLE_SIZE ==> small[i] == 0
    modifies large, small
    ensures TablesHold(large[..], small[..])
  {
    ghost var columns: seq<seq<(int, int)>> := [];
    var us := 0;
    while us < 512
      invariant 0 <= us <= 512 && |columns| == us
      invariant forall u :: 0 <= u < us ==> |columns[u]| == 512 && ColumnOk(u, columns[u])
      invariant forall i :: 0 <= i < TABLE_SIZE && i % 512 < us ==>
        large[i] == columns[i % 512][i / 512].0 && small[i] == columns[i % 512][i / 512].1
      invariant forall i :: 0 <= i < TABLE_SIZE && i % 512 >= us ==> small[i] == 0
    {
      var column := FillColumn(popCount, large, small, us);
      columns := columns + [column];
      assert columns[us] == column;
      us := us + 1;
    }
    forall i | 0 <= i < TABLE_SIZE
      ensures large[i] == LargeEntry(Pattern(i % 512), Pattern(i / 512))
      ensures small[i] == SmallEntry(Pattern(i % 512), Pattern(i / 512))
    {
      var u, t := i % 512, i / 512;
      assert ColumnOk(u, columns[u]);
      assert columns[u][t] == (LargeEntry(Pattern(u), Pattern(t)), SmallEntry(Pattern(u), Pattern(t)));
    }
  }

  /**
   * The Rust and Python `init`: a popCount table, two zeroed tables of
   * 2^18 entries, and the fill.
   */
  method Init() returns (large: array<int>, small: array<int>)
    ensures fresh(large) && fresh(small)
    ensures TablesHold(large[..], small[..])
  {
    large := new int[TABLE_SIZE](_ => 0);
    small := new int[TABLE_SIZE](_ => 0);
    var popCount := PopCountTable();
    FillTables(popCount, large, small);
  }
}
