/**
 * The list-based engine of UltimateTicTacToe_Python/ultimate-tictactoe-new.py.
 *
 * A position is `(small, large, zone)`: nine lists of nine cells, the
 * large grid of zone winners and the forced zone (9 for any zone). A cell
 * holds 1 for X, the player who moves first (side True), -1 for O (side
 * False) and 0 when empty.
 */
module ListEngine {
  import opened PyLines
  import Rules
  import LineHelpers
  import Tables
  import Text
  import Search

  datatype ListBoard = ListBoard(small: seq<seq<int>>, large: seq<int>, zone: int)

  predicate IsCell(v: int) {
    -1 <= v <= 1
  }

  /** Nine zones of nine cells, a 9-cell large grid, every value -1, 0 or 1, and a zone 0..9. */
  predicate WellFormed(b: ListBoard) {
    && |b.small| == 9
    && (forall z :: 0 <= z < 9 ==> |b.small[z]| == 9)
    && (forall z, c :: 0 <= z < 9 && 0 <= c < 9 ==> IsCell(b.small[z][c]))
    && |b.large| == 9
    && (forall z :: 0 <= z < 9 ==> IsCell(b.large[z]))
    && 0 <= b.zone <= 9
  }

  // ---------------------------------------------------------------------
  // The encoding.

  function MarkOf(v: int): Rules.Mark {
    if v == 1 then Rules.First else if v == -1 then Rules.Second else Rules.Empty
  }

  function ValueOf(m: Rules.Mark): (v: int)
    ensures IsCell(v) && MarkOf(v) == m
  {
    match m
    case First => 1
    case Second => -1
    case Empty => 0
  }

  /** The rule-level position a list board stands for. */
  function Abs(b: ListBoard): (s: Rules.State)
    requires WellFormed(b)
    ensures Rules.WellFormed(s)
  {
    Rules.State(CellsOf(b.small), WonOf(b.large), b.zone)
  }

  /** The 81 cells of nine 9-cell zones, zone after zone. */
  function CellsOf(small: seq<seq<int>>): (cells: seq<Rules.Mark>)
    requires |small| == 9 && forall z :: 0 <= z < 9 ==> |small[z]| == 9
    ensures |cells| == 81
  {
    seq(81, m requires 0 <= m < 81 => MarkOf(small[m / 9][m % 9]))
  }

  /** The marks of a grid of values. */
  function WonOf(large: seq<int>): (won: seq<Rules.Mark>)
    ensures |won| == |large|
    ensures forall z :: 0 <= z < |large| ==> won[z] == MarkOf(large[z])
  {
    seq(|large|, z requires 0 <= z < |large| => MarkOf(large[z]))
  }

  /** The list board of a rule-level position. */
  function Encode(s: Rules.State): (b: ListBoard)
    requires Rules.WellFormed(s)
    ensures WellFormed(b)
  {
    ListBoard(seq(9, z requires 0 <= z < 9 => EncodeZone(s.cells, z)),
              seq(9, z requires 0 <= z < 9 => ValueOf(s.won[z])),
              s.zone)
  }

  /** The list of zone z's cells. */
  function EncodeZone(cells: seq<Rules.Mark>, z: int): (r: seq<int>)
    requires |cells| == 81 && 0 <= z < 9
    ensures |r| == 9
    ensures forall c :: 0 <= c < 9 ==> r[c] == ValueOf(cells[9 * z + c]) && IsCell(r[c])
  {
    seq(9, c requires 0 <= c < 9 => ValueOf(cells[9 * z + c]))
  }

  lemma MarkValue(v: int)
    requires IsCell(v)
    ensures ValueOf(MarkOf(v)) == v
  {
  }

  lemma CellOf(small: seq<seq<int>>, z: int, c: int)
    requires |small| == 9 && (forall z :: 0 <= z < 9 ==> |small[z]| == 9) && 0 <= z < 9 && 0 <= c < 9
    ensures CellsOf(small)[9 * z + c] == MarkOf(small[z][c])
  {
    assert (9 * z + c) / 9 == z && (9 * z + c) % 9 == c;
  }

  /** Encoding and abstraction are inverse. */
  lemma AbsEncode(s: Rules.State)
    requires Rules.WellFormed(s)
    ensures Abs(Encode(s)) == s
  {
    var r := Abs(Encode(s));
    forall m | 0 <= m < 81 ensures r.cells[m] == s.cells[m] {
      assert 9 * (m / 9) + m % 9 == m;
      assert Encode(s).small[m / 9][m % 9] == ValueOf(s.cells[m]);
    }
  }

  lemma EncodeAbs(b: ListBoard)
    requires WellFormed(b)
    ensures Encode(Abs(b)) == b
  {
    var r := Encode(Abs(b));
    forall z | 0 <= z < 9 ensures r.small[z] == b.small[z] {
      forall c | 0 <= c < 9 ensures r.small[z][c] == b.small[z][c] {
        CellOf(b.small, z, c);
        MarkValue(b.small[z][c]);
      }
    }
  }

  /** The board `main` starts from: every cell 0, any zone. */
  function StartBoard(): (b: ListBoard)
    ensures WellFormed(b)
  {
    ListBoard(seq(9, _ => seq(9, _ => 0)), seq(9, _ => 0), 9)
  }

  lemma StartBoardIsStart()
    ensures Abs(StartBoard()) == Rules.Start()
  {
  }

  /** The side True is the first player. */
  function SideOf(side: bool): Rules.Side {
    if side then 0 else 1
  }

  /** `1 if side else -1`: the value a side writes, and its `us` in the evaluation. */
  function Stone(side: bool): (v: int)
    ensures v == 1 || v == -1
    ensures MarkOf(v) == Rules.MarkOf(SideOf(side))
  {
    if side then 1 else -1
  }

  /** The cells of zone z holding v are the zone's cells of v's mark. */
  lemma ZoneOfCells(small: seq<seq<int>>, z: int, v: int)
    requires |small| == 9 && (forall z :: 0 <= z < 9 ==> |small[z]| == 9) && 0 <= z < 9 && (v == 1 || v == -1)
    ensures Holding(small[z], v) == Rules.ZoneGrid(CellsOf(small), z, MarkOf(v))
  {
    forall c | 0 <= c < 9 ensures (small[z][c] == v) == (CellsOf(small)[9 * z + c] == MarkOf(v)) {
      CellOf(small, z, c);
    }
  }

  lemma LargeOfAbs(b: ListBoard, v: int)
    requires WellFormed(b) && (v == 1 || v == -1)
    ensures Holding(b.large, v) == Rules.WonGrid(Abs(b).won, MarkOf(v))
  {
  }

  /** `0 not in small[z]`: the zone is full. */
  lemma FullOfCells(small: seq<seq<int>>, z: int)
    requires |small| == 9 && (forall z :: 0 <= z < 9 ==> |small[z]| == 9) && 0 <= z < 9
    requires forall c :: 0 <= c < 9 ==> IsCell(small[z][c])
    ensures 0 !in small[z] <==> Rules.ZoneFull(CellsOf(small), z)
  {
    var cells := CellsOf(small);
    forall c | 0 <= c < 9 ensures cells[9 * z .. 9 * z + 9][c] == MarkOf(small[z][c]) {
      CellOf(small, z, c);
    }
    if 0 in small[z] {
      var c :| 0 <= c < 9 && small[z][c] == 0;
      assert cells[9 * z .. 9 * z + 9][c] == Rules.Empty;
    }
  }

  // ---------------------------------------------------------------------
  // Lines.

  /** `any(x == [v, v, v] for x in lines)` over the lines of a grid. */
  predicate Three(g: seq<int>, v: int)
    requires |g| == 9
  {
    exists k :: 0 <= k < 8 && LINES[k].step > 0 && Take(g, LINES[k]) == [v, v, v]
  }

  /** A grid shows `[v, v, v]` on some line exactly when the cells holding v have three in a row. */
  lemma ThreeIsLine(g: seq<int>, v: int)
    requires |g| == 9
    ensures Three(g, v) <==> Rules.HasLine(Holding(g, v))
  {
    LinesAreRuleLines();
    forall k | 0 <= k < 8 ensures Take(g, LINES[k]) == [v, v, v] <==> Rules.LineFull(Holding(g, v), k) {
      ThreeOfLine(g, v, k);
    }
  }

  /** The list of a grid's lines, compared with `[v, v, v]`, finds a line exactly when `Three` does. */
  lemma LinesThree(g: seq<int>, lines: seq<seq<int>>, v: int)
    requires |g| == 9 && |lines| == 8
    requires forall k :: 0 <= k < 8 ==> LINES[k].step > 0 && lines[k] == Take(g, LINES[k])
    ensures (exists k :: 0 <= k < 8 && lines[k] == [v, v, v]) <==> Three(g, v)
  {
    if exists k :: 0 <= k < 8 && lines[k] == [v, v, v] {
      var k :| 0 <= k < 8 && lines[k] == [v, v, v];
      assert LINES[k].step > 0 && Take(g, LINES[k]) == [v, v, v];
    }
    if Three(g, v) {
      var k :| 0 <= k < 8 && LINES[k].step > 0 && Take(g, LINES[k]) == [v, v, v];
      assert lines[k] == [v, v, v];
    }
  }

  /** A line of the large grid has three of a side's value exactly when the game is over. */
  lemma ThreeIsGameOver(b: ListBoard)
    requires WellFormed(b)
    ensures Three(b.large, 1) || Three(b.large, -1) <==> Rules.GameOver(Abs(b))
  {
    ThreeIsLine(b.large, 1);
    ThreeIsLine(b.large, -1);
    LargeOfAbs(b, 1);
    LargeOfAbs(b, -1);
  }

  // ---------------------------------------------------------------------
  // move_gen.

  /**
   * `move_gen`: nothing once the large grid has a line of 1 or of -1; with
   * zone 9, the empty cells of the zones whose large cell is 0, ascending;
   * otherwise the empty cells of the forced zone.
   */
  function MoveGen(b: ListBoard): (r: seq<int>)
    requires WellFormed(b)
    ensures Rules.OnBoard(r) && Rules.StrictlyAscending(r)
  {
    if Three(b.large, 1) || Three(b.large, -1) then []
    else if b.zone == 9 then OpenMoves(b)
    else ZoneMoves(b)
  }

  /** Cell m is empty and its zone's large cell is 0. */
  predicate OpenCell(b: ListBoard, m: int)
    requires WellFormed(b)
  {
    0 <= m < 81 && b.small[m / 9][m % 9] == 0 && b.large[m / 9] == 0
  }

  /** Cell m lies in the forced zone and is empty. */
  predicate ZoneCell(b: ListBoard, m: int)
    requires WellFormed(b) && b.zone != 9
  {
    0 <= m < 81 && b.small[m / 9][m % 9] == 0 && m / 9 == b.zone
  }

  /** The comprehension over all 81 cells: the empty cells of zones whose large cell is 0, in order. */
  function OpenMoves(b: ListBoard): (r: seq<int>)
    requires WellFormed(b)
    ensures Rules.OnBoard(r) && Rules.StrictlyAscending(r)
    ensures forall m :: m in r <==> OpenCell(b, m)
  {
    var p := m => OpenCell(b, m);
    Rules.SelectSpec(0, 81, p);
    Rules.Select(0, 81, p)
  }

  /** The comprehension over the forced zone: its empty cells, in order. */
  function ZoneMoves(b: ListBoard): (r: seq<int>)
    requires WellFormed(b) && b.zone != 9
    ensures Rules.OnBoard(r) && Rules.StrictlyAscending(r)
    ensures forall m :: m in r <==> ZoneCell(b, m)
  {
    var z := b.zone;
    var p := m => 9 * z <= m < 9 * z + 9 && b.small[z][m - 9 * z] == 0;
    Rules.SelectSpec(9 * z, 9 * z + 9, p);
    forall m ensures p(m) <==> ZoneCell(b, m) {
      if 0 <= m < 81 {
        DivMod9Zone(m, z);
      }
    }
    Rules.Select(9 * z, 9 * z + 9, p)
  }

  /** Cell m lies in zone z exactly when 9 * z <= m < 9 * z + 9, at place m - 9 * z. */
  lemma DivMod9Zone(m: int, z: int)
    requires 0 <= m < 81 && 0 <= z < 9
    ensures (9 * z <= m < 9 * z + 9) == (m / 9 == z)
    ensures m / 9 == z ==> m % 9 == m - 9 * z
  {
  }

  /**
   * A move is listed exactly when the large grid has no line, its cell is
   * 0, and either any zone may be played and its zone's large cell is 0,
   * or it lies in the forced zone.
   */
  lemma MoveGenMembers(b: ListBoard)
    requires WellFormed(b)
    ensures forall m :: m in MoveGen(b) <==>
      && !Three(b.large, 1) && !Three(b.large, -1)
      && 0 <= m < 81 && b.small[m / 9][m % 9] == 0
      && (if b.zone == 9 then b.large[m / 9] == 0 else m / 9 == b.zone)
  {
  }

  /** The moves `move_gen` lists are the legal moves of the rules, in the same order. */
  lemma MoveGenIsRules(b: ListBoard)
    requires WellFormed(b)
    ensures MoveGen(b) == Rules.Moves(Abs(b))
  {
    ThreeIsGameOver(b);
    if !Rules.GameOver(Abs(b)) {
      if b.zone == 9 {
        OpenMovesAreRules(b);
      } else {
        ZoneMovesAreRules(b);
      }
    }
  }

  /** With no forced zone, the open cells are the rules' moves of an unfinished game. */
  lemma OpenMovesAreRules(b: ListBoard)
    requires WellFormed(b) && b.zone == 9 && !Rules.GameOver(Abs(b))
    ensures OpenMoves(b) == Rules.Moves(Abs(b))
  {
    var s := Abs(b);
    var p := m => OpenCell(b, m);
    var q := m => 0 <= m < 81 && s.cells[m] == Rules.Empty && s.won[m / 9] == Rules.Empty;
    Rules.SelectCongruent(0, 81, p, q);
  }

  /** With a forced zone, its empty cells are the rules' moves of an unfinished game. */
  lemma ZoneMovesAreRules(b: ListBoard)
    requires WellFormed(b) && b.zone != 9 && !Rules.GameOver(Abs(b))
    ensures ZoneMoves(b) == Rules.Moves(Abs(b))
  {
    var s := Abs(b);
    var zone := b.zone;
    var p := m => 9 * zone <= m < 9 * zone + 9 && b.small[zone][m - 9 * zone] == 0;
    var q := m => 0 <= m < 81 && s.cells[m] == Rules.Empty;
    forall m | 9 * zone <= m < 9 * zone + 9 ensures p(m) == q(m) {
      CellOf(b.small, zone, m - 9 * zone);
    }
    Rules.SelectCongruent(9 * zone, 9 * zone + 9, p, q);
    assert s.zone == zone && !Rules.GameOver(s);
    assert ZoneMoves(b) == Rules.Select(9 * zone, 9 * zone + 9, p);
    assert Rules.Moves(s) == Rules.Select(9 * zone, 9 * zone + 9, q);
  }

  // ---------------------------------------------------------------------
  // play_move.

  /** The board after `side` plays `move`, as the rules have it. */
  function Played(b: ListBoard, move: int, side: bool): (r: ListBoard)
    requires WellFormed(b) && 0 <= move < 81
    ensures WellFormed(r)
  {
    Encode(Rules.Play(Abs(b), move, SideOf(side)))
  }

  /**
   * `play_move`: on copies of the lists, the cell takes the side's value;
   * the zone's large cell takes it too when the side now has a line there;
   * the next zone is the cell's index, or 9 when that zone is full or won.
   * The input board is a value and so is left as it was.
   */
  method PlayMove(b: ListBoard, move: int, side: bool) returns (r: ListBoard)
    requires WellFormed(b) && 0 <= move < 81
    ensures WellFormed(r)
    ensures Abs(r) == Rules.Play(Abs(b), move, SideOf(side))
    ensures r == Played(b, move, side)
  {
    var small, large := b.small, b.large;
    var z, c := move / 9, move % 9;
    small := small[z := small[z][c := Stone(side)]];
    LinesStep();
    var lines := seq(8, k requires 0 <= k < 8 => Take(small[z], LINES[k]));
    if side && exists k :: 0 <= k < 8 && lines[k] == [1, 1, 1] {
      large := large[z := 1];
    } else if !side && exists k :: 0 <= k < 8 && lines[k] == [-1, -1, -1] {
      large := large[z := -1];
    }
    LinesThree(small[z], lines, Stone(side));
    var zone := if 0 !in small[c] || large[c] != 0 then 9 else c;
    r := ListBoard(small, large, zone);
    assert Builds(b, move, side, r);
    PlayMoveMeaning(b, move, side, r);
  }

  /** The cells after the move are the old cells with the value's mark at `move`. */
  lemma CellsAfter(small: seq<seq<int>>, move: int, v: int)
    requires |small| == 9 && (forall z :: 0 <= z < 9 ==> |small[z]| == 9) && 0 <= move < 81
    ensures CellsOf(small[move / 9 := small[move / 9][move % 9 := v]]) == CellsOf(small)[move := MarkOf(v)]
  {
    var after := small[move / 9 := small[move / 9][move % 9 := v]];
    forall m | 0 <= m < 81 ensures CellsOf(after)[m] == CellsOf(small)[move := MarkOf(v)][m] {
      assert 9 * (m / 9) + m % 9 == m && 9 * (move / 9) + move % 9 == move;
    }
  }

  /**
   * r is what `play_move` builds: the side's value at the cell, the zone's
   * large cell taken on a line there, and the next zone as `play_move`
   * chooses it.
   */
  predicate Builds(b: ListBoard, move: int, side: bool, r: ListBoard)
    requires WellFormed(b) && 0 <= move < 81
  {
    var z, c := move / 9, move % 9;
    var small := b.small[z := b.small[z][c := Stone(side)]];
    var large := if Three(small[z], Stone(side)) then b.large[z := Stone(side)] else b.large;
    r == ListBoard(small, large, if 0 !in small[c] || large[c] != 0 then 9 else c)
  }

  /** What `play_move` builds is the rules' position after the move. */
  lemma PlayMoveMeaning(b: ListBoard, move: int, side: bool, r: ListBoard)
    requires WellFormed(b) && 0 <= move < 81 && Builds(b, move, side, r)
    ensures WellFormed(r)
    ensures Abs(r) == Rules.Play(Abs(b), move, SideOf(side))
    ensures r == Played(b, move, side)
  {
    var t := Rules.Play(Abs(b), move, SideOf(side));
    BuiltGrids(b, move, side, r);
    BuiltZone(b, move, side, r);
    assert Abs(r) == t;
    EncodeAbs(r);
  }

  /** The cells and the large grid that `play_move` builds are the rules' after the move. */
  lemma BuiltGrids(b: ListBoard, move: int, side: bool, r: ListBoard)
    requires WellFormed(b) && 0 <= move < 81 && Builds(b, move, side, r)
    ensures WellFormed(r)
    ensures var t := Rules.Play(Abs(b), move, SideOf(side));
      CellsOf(r.small) == t.cells && WonOf(r.large) == t.won
  {
    var z, v := move / 9, Stone(side);
    var small := b.small[z := b.small[z][move % 9 := v]];
    assert r.small == small;
    assert WellFormed(r);
    CellsAfter(b.small, move, v);
    var cells := CellsOf(small);
    assert cells == Abs(b).cells[move := Rules.MarkOf(SideOf(side))];
    ZoneOfCells(small, z, v);
    ThreeIsLine(small[z], v);
    assert Three(small[z], v) == Rules.HasLine(Rules.ZoneGrid(cells, z, Rules.MarkOf(SideOf(side))));
    WonAfterOf(b.large, z, v, Three(small[z], v), r.large);
  }

  /** The marks of a large grid with z set to v, or left alone, are its marks updated alike. */
  lemma WonAfterOf(large: seq<int>, z: int, v: int, taken: bool, after: seq<int>)
    requires 0 <= z < |large| && after == (if taken then large[z := v] else large)
    ensures WonOf(after) == if taken then WonOf(large)[z := MarkOf(v)] else WonOf(large)
  {
  }

  /** The next zone that `play_move` chooses is the rules' next zone. */
  lemma BuiltZone(b: ListBoard, move: int, side: bool, r: ListBoard)
    requires WellFormed(b) && 0 <= move < 81 && Builds(b, move, side, r)
    ensures WellFormed(r) && Abs(r).zone == Rules.Play(Abs(b), move, SideOf(side)).zone
  {
    BuiltGrids(b, move, side, r);
    FullOfCells(r.small, move % 9);
  }

  // ---------------------------------------------------------------------
  // evaluate.

  /** The sentinel of a decided large grid. */
  const WIN: int := 10000000

  /** The cells of a grid holding the side's own value, and the opponent's. */
  function Ours(g: seq<int>, side: bool): (r: seq<bool>)
    ensures |r| == |g|
  {
    Holding(g, Stone(side))
  }

  function Theirs(g: seq<int>, side: bool): (r: seq<bool>)
    ensures |r| == |g|
  {
    Holding(g, Stone(!side))
  }

  /** Who has the first uncontested complete line of the large grid, us checked before them. */
  function LargeDecision(b: ListBoard, side: bool): Tables.Decision
    requires WellFormed(b)
  {
    Tables.FirstDecisive(Ours(b.large, side), Theirs(b.large, side), 0)
  }

  /** The large-grid lines: 90 for two and 20 for one cell of an uncontested line, ours minus theirs. */
  function LargeLines(b: ListBoard, side: bool): int
    requires WellFormed(b)
  {
    Tables.LineScore(Ours(b.large, side), Theirs(b.large, side), 0, 90, 20)
  }

  /** A full zone, or one whose large cell is taken, is skipped. */
  predicate Skipped(b: ListBoard, z: int)
    requires WellFormed(b) && 0 <= z < 9
  {
    0 !in b.small[z] || b.large[z] != 0
  }

  /** The lines of a zone: 8 for two cells, 1 for one, ours minus theirs, uncontested lines only. */
  function ZoneScore(zone: seq<int>, side: bool): int
    requires |zone| == 9
  {
    Tables.LineScore(Ours(zone, side), Theirs(zone, side), 0, 8, 1)
  }

  /** The lines of zone z, 0 for a skipped zone. */
  function ZoneLines(b: ListBoard, side: bool, z: int): int
    requires WellFormed(b) && 0 <= z < 9
  {
    if Skipped(b, z) then 0 else ZoneScore(b.small[z], side)
  }

  /** The zone lines of zones 0..n-1. */
  function ZonesLines(b: ListBoard, side: bool, n: nat): int
    requires WellFormed(b) && n <= 9
  {
    if n == 0 then 0 else ZonesLines(b, side, n - 1) + ZoneLines(b, side, n - 1)
  }

  /** 7 per corner, 5 per edge, 9 for the centre, of the cell values themselves (X positive). */
  function Weighted(g: seq<int>): int
    requires |g| == 9
  {
    7 * (g[0] + g[2] + g[6] + g[8]) + 5 * (g[1] + g[3] + g[5] + g[7]) + 9 * g[4]
  }

  /** The positional weights of zones 0..n-1 summed. */
  function SmallWeighted(b: ListBoard, n: nat): int
    requires WellFormed(b) && n <= 9
  {
    if n == 0 then 0 else SmallWeighted(b, n - 1) + Weighted(b.small[n - 1])
  }

  /**
   * `sq_score`: the positional weights of every cell of every zone, open or
   * not (the three sums of the source, regrouped zone by zone), plus 25
   * times those of the large grid. X counts positive.
   */
  function SquareScore(b: ListBoard): int
    requires WellFormed(b)
  {
    SmallWeighted(b, 9) + 25 * Weighted(b.large)
  }

  /** What `evaluate` gives back: a score, or the undefined name it stopped at. */
  datatype Outcome = Score(value: int) | Undefined(name: string)

  /**
   * `evaluate` as written: the first decisive large line ends it with
   * +-10000000; a large grid without a 0 then reaches `return OUTCOME_DRAW`,
   * a name this file never defines; otherwise the large lines, the lines of
   * the open zones and the positional score, negated for side False.
   */
  function EvalAsWritten(b: ListBoard, side: bool): Outcome
    requires WellFormed(b)
  {
    match LargeDecision(b, side)
    case UsLine => Score(WIN)
    case ThemLine => Score(-WIN)
    case Undecided =>
      if 0 !in b.large then Undefined("OUTCOME_DRAW")
      else
        var sq := SquareScore(b);
        Score(LargeLines(b, side) + ZonesLines(b, side, 9) + (if side then sq else -sq))
  }

  /** `evaluate` with `OUTCOME_DRAW` read as 0, the draw score of every other engine. */
  function Eval(b: ListBoard, side: bool): int
    requires WellFormed(b)
  {
    match EvalAsWritten(b, side)
    case Score(v) => v
    case Undefined(_) => 0
  }

  /**
   * The large-line loop, on the large grid: it stops at the first decisive
   * line, and otherwise sums the line scores.
   */
  method ScoreLargeLines(large: seq<int>, side: bool) returns (decision: Tables.Decision, eval: int)
    requires |large| == 9
    ensures decision == Tables.FirstDecisive(Ours(large, side), Theirs(large, side), 0)
    ensures decision == Tables.UsLine ==> eval == WIN
    ensures decision == Tables.ThemLine ==> eval == -WIN
    ensures decision == Tables.Undecided ==> eval == Tables.LineScore(Ours(large, side), Theirs(large, side), 0, 90, 20)
  {
    var us, them := Stone(side), Stone(!side);
    LinesStep();
    var lines := seq(8, k requires 0 <= k < 8 => Take(large, LINES[k]));
    ghost var u, t := Ours(large, side), Theirs(large, side);
    eval := 0;
    for i := 0 to 8
      invariant Tables.FirstDecisive(u, t, i) == Tables.FirstDecisive(u, t, 0)
      invariant eval + Tables.LineScore(u, t, i, 90, 20) == Tables.LineScore(u, t, 0, 90, 20)
    {
      CountOfLine(large, us, i);
      CountOfLine(large, them, i);
      var lineUs := CountOf(lines[i], us);
      var lineThem := CountOf(lines[i], them);
      if lineUs > 0 && lineThem > 0 {
        continue;
      }
      if lineUs == 3 {
        return Tables.UsLine, WIN;
      } else if lineUs == 2 {
        eval := eval + 90;
      } else if lineUs == 1 {
        eval := eval + 20;
      }
      if lineThem == 3 {
        return Tables.ThemLine, -WIN;
      } else if lineThem == 2 {
        eval := eval - 90;
      } else if lineThem == 1 {
        eval := eval - 20;
      }
    }
    return Tables.Undecided, eval;
  }

  /** The zone loop: from `eval0`, it adds the line scores of every zone it does not skip. */
  method ScoreZones(b: ListBoard, side: bool, eval0: int) returns (eval: int)
    requires WellFormed(b)
    ensures eval == eval0 + ZonesLines(b, side, 9)
  {
    eval := eval0;
    for i := 0 to 9
      invariant eval == eval0 + ZonesLines(b, side, i)
    {
      assert ZonesLines(b, side, i + 1) == ZonesLines(b, side, i) + ZoneLines(b, side, i);
      if 0 !in b.small[i] || b.large[i] != 0 {
        continue;
      }
      eval := ScoreZoneLines(b.small[i], side, eval);
    }
  }

  /** The lines of one zone, added to `eval0`: 8 for two cells, 1 for one, ours minus theirs. */
  method ScoreZoneLines(zone: seq<int>, side: bool, eval0: int) returns (eval: int)
    requires |zone| == 9
    ensures eval == eval0 + ZoneScore(zone, side)
  {
    var us, them := Stone(side), Stone(!side);
    LinesStep();
    var lines := seq(8, k requires 0 <= k < 8 => Take(zone, LINES[k]));
    ghost var u, t := Ours(zone, side), Theirs(zone, side);
    eval := eval0;
    for j := 0 to 8
      invariant eval + Tables.LineScore(u, t, j, 8, 1) == eval0 + Tables.LineScore(u, t, 0, 8, 1)
    {
      var lineUs, lineThem := LinePair(lines[j], zone, side, j);
      assert Tables.LineScore(u, t, j, 8, 1) == Tables.LineScore(u, t, j + 1, 8, 1)
        + (if lineUs > 0 && lineThem > 0 then 0 else Tables.Weight(lineUs, 8, 1) - Tables.Weight(lineThem, 8, 1));
      if lineUs > 0 && lineThem > 0 {
        continue;
      }
      if lineUs == 2 {
        eval := eval + 8;
      } else if lineUs == 1 {
        eval := eval + 1;
      }
      if lineThem == 2 {
        eval := eval - 8;
      } else if lineThem == 1 {
        eval := eval - 1;
      }
    }
  }

  /** `line.count(us)` and `line.count(them)` for line j of a zone: its cells of each side. */
  method LinePair(line: seq<int>, zone: seq<int>, side: bool, j: nat) returns (lineUs: nat, lineThem: nat)
    requires |zone| == 9 && j < 8 && LINES[j].step > 0 && line == Take(zone, LINES[j])
    ensures lineUs == LineHelpers.LineCount(Ours(zone, side), j)
    ensures lineThem == LineHelpers.LineCount(Theirs(zone, side), j)
  {
    CountOfLine(zone, Stone(side), j);
    CountOfLine(zone, Stone(!side), j);
    lineUs := CountOf(line, Stone(side));
    lineThem := CountOf(line, Stone(!side));
  }

  /** `evaluate`, with the draw score where the source names `OUTCOME_DRAW`. */
  method Evaluate(b: ListBoard, side: bool) returns (r: int)
    requires WellFormed(b)
    ensures r == Eval(b, side)
  {
    var decision, eval := ScoreLargeLines(b.large, side);
    if decision != Tables.Undecided {
      return eval;
    }
    if 0 !in b.large {
      return 0;
    }
    eval := ScoreZones(b, side, eval);
    var sqScore := SquareScore(b);
    return eval + (if side then sqScore else -sqScore);
  }

  // ---------------------------------------------------------------------
  // What the evaluation means.

  /** The cells of one value never overlap the cells of another. */
  lemma HoldingDisjoint(g: seq<int>, side: bool)
    requires |g| == 9
    ensures Tables.Disjoint(Ours(g, side), Theirs(g, side))
  {
  }

  /**
   * The sentinels report the large grid: +10000000 exactly when only the
   * side to move has a line (or it has the first decisive one), and the
   * sentinel is never reached without a line.
   */
  lemma EvalSentinels(b: ListBoard, side: bool)
    requires WellFormed(b)
    ensures LargeDecision(b, side) == Tables.Undecided <==> !Three(b.large, 1) && !Three(b.large, -1)
    ensures Three(b.large, Stone(side)) && !Three(b.large, Stone(!side)) ==> Eval(b, side) == WIN
    ensures Three(b.large, Stone(!side)) && !Three(b.large, Stone(side)) ==> Eval(b, side) == -WIN
  {
    HoldingDisjoint(b.large, side);
    ThreeIsLine(b.large, Stone(side));
    ThreeIsLine(b.large, Stone(!side));
    Tables.FirstDecisiveMeaning(Ours(b.large, side), Theirs(b.large, side));
  }

  /** The evaluation for side False is minus the evaluation for side True, sentinels and errors alike. */
  lemma EvalAntisymmetric(b: ListBoard)
    requires WellFormed(b)
    ensures EvalAsWritten(b, true).Undefined? <==> EvalAsWritten(b, false).Undefined?
    ensures Eval(b, false) == -Eval(b, true)
  {
    LargeSwap(b);
    ZonesLinesSwap(b, 9);
  }

  /** For side False the large grid's decision is exchanged and its line score negated. */
  lemma LargeSwap(b: ListBoard)
    requires WellFormed(b)
    ensures LargeDecision(b, false) == Tables.SwapDecision(LargeDecision(b, true))
    ensures LargeLines(b, false) == -LargeLines(b, true)
  {
    var u, t := Ours(b.large, true), Theirs(b.large, true);
    assert Ours(b.large, false) == t && Theirs(b.large, false) == u;
    Tables.FirstDecisiveSwap(u, t, 0);
    Tables.LineScoreSwap(u, t, 0, 90, 20);
  }

  lemma {:induction false} ZonesLinesSwap(b: ListBoard, n: nat)
    requires WellFormed(b) && n <= 9
    ensures ZonesLines(b, false, n) == -ZonesLines(b, true, n)
  {
    if n > 0 {
      ZonesLinesSwap(b, n - 1);
      Tables.LineScoreSwap(Ours(b.small[n - 1], true), Theirs(b.small[n - 1], true), 0, 8, 1);
    }
  }

  lemma WeightedBound(g: seq<int>)
    requires |g| == 9 && forall c :: 0 <= c < 9 ==> IsCell(g[c])
    ensures -57 <= Weighted(g) <= 57
  {
  }

  lemma {:induction false} SmallWeightedBound(b: ListBoard, n: nat)
    requires WellFormed(b) && n <= 9
    ensures -57 * n <= SmallWeighted(b, n) <= 57 * n
  {
    if n > 0 {
      SmallWeightedBound(b, n - 1);
      WeightedBound(b.small[n - 1]);
    }
  }

  lemma {:induction false} ZonesLinesBound(b: ListBoard, side: bool, n: nat)
    requires WellFormed(b) && n <= 9
    ensures -64 * n <= ZonesLines(b, side, n) <= 64 * n
  {
    if n > 0 {
      ZonesLinesBound(b, side, n - 1);
      if !Skipped(b, n - 1) {
        Tables.LineScoreBound(Ours(b.small[n - 1], side), Theirs(b.small[n - 1], side), 0, 8, 1);
      }
    }
  }

  /**
   * Without a line in the large grid the evaluation is a heuristic score of
   * at most 8*90 + 9*8*8 + 9*57 + 25*57 = 3234 in magnitude, far from the
   * sentinels.
   */
  lemma EvalBound(b: ListBoard, side: bool)
    requires WellFormed(b) && !Three(b.large, 1) && !Three(b.large, -1)
    ensures -3234 <= Eval(b, side) <= 3234
  {
    EvalSentinels(b, side);
    PartsBound(b, side);
  }

  /** The three parts of an undecided evaluation, each within its bound. */
  lemma PartsBound(b: ListBoard, side: bool)
    requires WellFormed(b)
    ensures -720 <= LargeLines(b, side) <= 720
    ensures -576 <= ZonesLines(b, side, 9) <= 576
    ensures -1938 <= SquareScore(b) <= 1938
  {
    Tables.LineScoreBound(Ours(b.large, side), Theirs(b.large, side), 0, 90, 20);
    ZonesLinesBound(b, side, 9);
    SmallWeightedBound(b, 9);
    WeightedBound(b.large);
  }

  /**
   * On every position the rules allow, a node that has moves has a 0 in its
   * large grid, so the search never reaches the undefined name: the
   * corrected evaluation changes nothing there.
   */
  lemma EvalAsWrittenReached(b: ListBoard, side: bool)
    requires WellFormed(b) && Rules.Valid(Abs(b)) && MoveGen(b) != []
    ensures EvalAsWritten(b, side) == Score(Eval(b, side))
  {
    OpenZone(b);
  }

  /** A valid position with moves has a zone whose large cell is 0. */
  lemma OpenZone(b: ListBoard)
    requires WellFormed(b) && Rules.Valid(Abs(b)) && MoveGen(b) != []
    ensures 0 in b.large
  {
    if b.zone == 9 {
      MoveGenMembers(b);
      var m := MoveGen(b)[0];
      assert b.large[m / 9] == 0;
    } else {
      assert Abs(b).won[b.zone] == Rules.Empty;
      assert b.large[b.zone] == 0;
    }
  }

  /**
   * A large grid whose nine zones are all won, without a line for either
   * side, makes `evaluate` stop at `OUTCOME_DRAW`, which is not defined:
   * a NameError instead of the draw score.
   */
  lemma UndefinedDraw()
    ensures var b := DrawnBoard();
      && WellFormed(b) && !Rules.GameOver(Abs(b))
      && EvalAsWritten(b, true) == Undefined("OUTCOME_DRAW") && Eval(b, true) == 0
  {
    var b := DrawnBoard();
    DrawnGrids();
    LargeOfAbs(b, 1);
    LargeOfAbs(b, -1);
    DrawnUndecided();
    assert 0 !in b.large;
    FullUndecided(b, true);
  }

  /** An undecided large grid without a 0 makes `evaluate` reach the undefined name. */
  lemma FullUndecided(b: ListBoard, side: bool)
    requires WellFormed(b) && LargeDecision(b, side) == Tables.Undecided && 0 !in b.large
    ensures EvalAsWritten(b, side) == Undefined("OUTCOME_DRAW") && Eval(b, side) == 0
  {
  }

  /** Empty zones under a large grid won 1, -1, 1 / 1, -1, -1 / -1, 1, 1, with any zone to play. */
  function DrawnBoard(): ListBoard {
    var e := [0, 0, 0, 0, 0, 0, 0, 0, 0];
    ListBoard([e, e, e, e, e, e, e, e, e], [1, -1, 1, 1, -1, -1, -1, 1, 1], 9)
  }

  /** The drawn board is well formed, and neither side holds a line of its large grid. */
  lemma DrawnGrids()
    ensures WellFormed(DrawnBoard())
    ensures Ours(DrawnBoard().large, true) == [true, false, true, true, false, false, false, true, true]
    ensures Theirs(DrawnBoard().large, true) == [false, true, false, false, true, true, true, false, false]
    ensures !Rules.HasLine(Ours(DrawnBoard().large, true)) && !Rules.HasLine(Theirs(DrawnBoard().large, true))
    ensures !Rules.HasLine(Holding(DrawnBoard().large, 1)) && !Rules.HasLine(Holding(DrawnBoard().large, -1))
  {
    var b := DrawnBoard();
    var u, t := Ours(b.large, true), Theirs(b.large, true);
    assert u == [true, false, true, true, false, false, false, true, true];
    assert t == [false, true, false, false, true, true, true, false, false];
    NoLine(u);
    NoLine(t);
  }

  /** No side decides the drawn large grid, so `evaluate` goes on to its full-grid test. */
  lemma DrawnUndecided()
    ensures WellFormed(DrawnBoard()) && LargeDecision(DrawnBoard(), true) == Tables.Undecided
  {
    var b := DrawnBoard();
    DrawnGrids();
    HoldingDisjoint(b.large, true);
    Tables.FirstDecisiveMeaning(Ours(b.large, true), Theirs(b.large, true));
  }

  /** Neither grid of the drawn large grid above has three in a row. */
  lemma NoLine(g: seq<bool>)
    requires g == [true, false, true, true, false, false, false, true, true]
          || g == [false, true, false, false, true, true, true, false, false]
    ensures !Rules.HasLine(g)
  {
    forall k | 0 <= k < 8 ensures !Rules.LineFull(g, k) {
      var l := Rules.Line(k);
      assert g[l.0] != g[l.1] || g[l.1] != g[l.2] || !g[l.0];
    }
  }

  // ---------------------------------------------------------------------
  // alpha_beta.

  /**
   * What `alpha_beta` consults about a board: the moves `move_gen` lists,
   * the board `play_move` returns, `evaluate`, and who has a large line
   * (1 the side to move, -1 the opponent, 0 no one).
   */
  datatype Game = Game(
    moves: ListBoard -> seq<int>,
    play: (ListBoard, int, bool) -> ListBoard,
    eval: (ListBoard, bool) -> int,
    winner: (ListBoard, bool) -> int)

  /** 1 when the side to move has a large line, -1 when only the opponent has, 0 otherwise. */
  function Winner(b: ListBoard, side: bool): int
    requires WellFormed(b)
  {
    if Three(b.large, Stone(side)) then 1 else if Three(b.large, Stone(!side)) then -1 else 0
  }

  /** The game of this engine; boards that are not well formed are never reached and get fixed answers. */
  function ListGame(): Game {
    Game(
      b => if WellFormed(b) then MoveGen(b) else [],
      (b, m, side) => if WellFormed(b) && 0 <= m < 81 then Played(b, m, side) else b,
      (b, side) => if WellFormed(b) then Eval(b, side) else 0,
      (b, side) => if WellFormed(b) then Winner(b, side) else 0)
  }

  /**
   * A node without moves: a win for the side to move scores less the
   * deeper it is found, a loss more; no line is a draw, 0.
   */
  function NoMovesScore(g: Game, b: ListBoard, side: bool, depth: int, searchDepth: int): int {
    var w := g.winner(b, side);
    if w == 1 then WIN + depth - searchDepth else if w == -1 then -WIN - depth + searchDepth else 0
  }

  /**
   * `alpha_beta(board, side, depth, alpha, beta)`, with `SEARCHING_DEPTH`
   * as the parameter `searchDepth`: the score and the line.
   */
  function AlphaBetaSpec(g: Game, b: ListBoard, side: bool, depth: nat, alpha: int, beta: int, searchDepth: int)
    : (int, seq<int>)
    decreases depth, 1
  {
    var moves := g.moves(b);
    if moves == [] then (NoMovesScore(g, b, side, depth, searchDepth), [])
    else if depth == 0 then (g.eval(b, side), [])
    else Sweep(g, b, side, depth, moves, alpha, beta, searchDepth, [])
  }

  /**
   * The loop over the remaining moves, from the current alpha and line:
   * each child is searched with (-beta, -alpha) and its line gets the move
   * in front; a score of at least beta returns beta with that line, and a
   * score above alpha replaces alpha and the line.
   */
  function Sweep(g: Game, b: ListBoard, side: bool, depth: nat, moves: seq<int>, alpha: int, beta: int,
                 searchDepth: int, pv: seq<int>): (int, seq<int>)
    requires depth >= 1
    decreases depth, 0, |moves|
  {
    if moves == [] then (alpha, pv)
    else
      var child := AlphaBetaSpec(g, g.play(b, moves[0], side), !side, depth - 1, -beta, -alpha, searchDepth);
      var eval := -child.0;
      var line := [moves[0]] + child.1;
      if eval >= beta then (beta, line)
      else if eval > alpha then Sweep(g, b, side, depth, moves[1..], eval, beta, searchDepth, line)
      else Sweep(g, b, side, depth, moves[1..], alpha, beta, searchDepth, pv)
  }

  /**
   * A game answers as this engine does on every well-formed board: its
   * moves are `move_gen`'s, its play is `play_move`, its scores are
   * `evaluate`'s and its large-line check is the one of `alpha_beta`.
   */
  ghost predicate Implements(g: Game) {
    && (forall b {:trigger MoveGen(b)} :: WellFormed(b) ==> g.moves(b) == MoveGen(b))
    && (forall b, m, side {:trigger Played(b, m, side)} ::
          WellFormed(b) && 0 <= m < 81 ==> g.play(b, m, side) == Played(b, m, side))
    && (forall b, side {:trigger Eval(b, side)} :: WellFormed(b) ==> g.eval(b, side) == Eval(b, side))
    && (forall b, side {:trigger Winner(b, side)} :: WellFormed(b) ==> g.winner(b, side) == Winner(b, side))
  }

  lemma ListGameImplements()
    ensures Implements(ListGame())
  {
  }

  /**
   * The node without moves of `alpha_beta`: +10000000 for a line of the side
   * to move, adjusted by the depth left, -10000000 for one of the opponent,
   * and 0 otherwise.
   */
  method ScoreNoMoves(large: seq<int>, side: bool, depth: int, searchDepth: int) returns (score: int)
    requires |large| == 9
    ensures score == if Three(large, Stone(side)) then WIN + depth - searchDepth
                     else if Three(large, Stone(!side)) then -WIN - depth + searchDepth
                     else 0
  {
    var us, them := Stone(side), Stone(!side);
    LinesStep();
    var largeLines := seq(8, k requires 0 <= k < 8 => Take(large, LINES[k]));
    LinesThree(large, largeLines, us);
    LinesThree(large, largeLines, them);
    if exists k :: 0 <= k < 8 && largeLines[k] == [us, us, us] {
      return WIN + depth - searchDepth;
    } else if exists k :: 0 <= k < 8 && largeLines[k] == [them, them, them] {
      return -WIN - depth + searchDepth;
    } else {
      return 0;
    }
  }

  /** The score and line `alpha_beta` returns. */
  function Searched(g: Game, b: ListBoard, side: bool, depth: nat, alpha: int, beta: int, searchDepth: int)
    : (int, seq<int>)
  {
    AlphaBetaSpec(g, b, side, depth, alpha, beta, searchDepth)
  }

  /** What the loop of `alpha_beta` returns from the remaining moves. */
  function Swept(g: Game, b: ListBoard, side: bool, depth: nat, moves: seq<int>, alpha: int, beta: int,
                 searchDepth: int, pv: seq<int>): (int, seq<int>)
    requires depth >= 1
  {
    Sweep(g, b, side, depth, moves, alpha, beta, searchDepth, pv)
  }

  /** One turn of the loop: the child's score and line decide what the rest of the loop starts from. */
  lemma SweepStep(g: Game, b: ListBoard, side: bool, depth: nat, moves: seq<int>, alpha: int, beta: int,
                  searchDepth: int, pv: seq<int>, child: ListBoard, childScore: int, childLine: seq<int>)
    requires depth >= 1 && moves != [] && child == g.play(b, moves[0], side)
    requires (childScore, childLine) == Searched(g, child, !side, depth - 1, -beta, -alpha, searchDepth)
    ensures Swept(g, b, side, depth, moves, alpha, beta, searchDepth, pv)
         == if -childScore >= beta then (beta, [moves[0]] + childLine)
            else if -childScore > alpha then Swept(g, b, side, depth, moves[1..], -childScore, beta, searchDepth, [moves[0]] + childLine)
            else Swept(g, b, side, depth, moves[1..], alpha, beta, searchDepth, pv)
  {
  }

  /** `alpha_beta`. */
  method AlphaBeta(ghost g: Game, b: ListBoard, side: bool, depth: nat, alpha: int, beta: int, searchDepth: int)
    returns (score: int, line: seq<int>)
    requires Implements(g) && WellFormed(b)
    ensures (score, line) == Searched(g, b, side, depth, alpha, beta, searchDepth)
    decreases depth, 2
  {
    var moveList := MoveGen(b);
    if |moveList| == 0 {
      score := ScoreNoMoves(b.large, side, depth, searchDepth);
      assert g.winner(b, side) == Winner(b, side);
      return score, [];
    }
    if depth == 0 {
      var e := Evaluate(b, side);
      return e, [];
    }
    score, line := SearchMoves(g, b, side, depth, moveList, alpha, beta, searchDepth);
  }

  /** The loop of `alpha_beta` over the moves of a node, from the window (alpha, beta) and an empty line. */
  method SearchMoves(ghost g: Game, b: ListBoard, side: bool, depth: nat, moveList: seq<int>, alpha: int, beta: int,
                     searchDepth: int) returns (score: int, line: seq<int>)
    requires Implements(g) && WellFormed(b) && depth >= 1 && Rules.OnBoard(moveList)
    ensures (score, line) == Swept(g, b, side, depth, moveList, alpha, beta, searchDepth, [])
    decreases depth, 1
  {
    var pv: seq<int> := [];
    var a := alpha;
    for i := 0 to |moveList|
      invariant Swept(g, b, side, depth, moveList[i..], a, beta, searchDepth, pv)
             == Swept(g, b, side, depth, moveList, alpha, beta, searchDepth, [])
    {
      var move := moveList[i];
      var eval, childLine := SearchChild(g, b, side, depth, move, a, beta, searchDepth);
      ghost var rest := moveList[i..];
      assert rest[0] == move && rest[1..] == moveList[i + 1..];
      SweepStep(g, b, side, depth, rest, a, beta, searchDepth, pv, g.play(b, move, side), eval, childLine);
      eval := -eval;
      var l := [move] + childLine;
      if eval >= beta {
        return beta, l;
      } else if eval > a {
        a := eval;
        pv := l;
      }
    }
    assert moveList[|moveList|..] == [];
    return a, pv;
  }

  /** One child of the loop: `alpha_beta` on the board after the move, with the window negated and swapped. */
  method SearchChild(ghost g: Game, b: ListBoard, side: bool, depth: nat, move: int, alpha: int, beta: int,
                     searchDepth: int) returns (eval: int, childLine: seq<int>)
    requires Implements(g) && WellFormed(b) && depth >= 1 && 0 <= move < 81
    ensures (eval, childLine) == Searched(g, g.play(b, move, side), !side, depth - 1, -beta, -alpha, searchDepth)
    decreases depth, 0
  {
    var child := PlayMove(b, move, side);
    eval, childLine := AlphaBeta(g, child, !side, depth - 1, -beta, -alpha, searchDepth);
  }

  // ---------------------------------------------------------------------
  // What the search computes.

  /** The negamax value of a node searched `depth` plies deep, with the same leaves as the search. */
  function Value(g: Game, b: ListBoard, side: bool, depth: nat, searchDepth: int): int
    decreases depth, 1
  {
    var moves := g.moves(b);
    if moves == [] then NoMovesScore(g, b, side, depth, searchDepth)
    else if depth == 0 then g.eval(b, side)
    else Best(g, b, side, depth, moves, searchDepth)
  }

  /** The best of the negated child values over a nonempty list of moves. */
  function Best(g: Game, b: ListBoard, side: bool, depth: nat, moves: seq<int>, searchDepth: int): int
    requires depth >= 1 && moves != []
    decreases depth, 0, |moves|
  {
    var e := -Value(g, g.play(b, moves[0], side), !side, depth - 1, searchDepth);
    if |moves| == 1 then e else Search.Max(e, Best(g, b, side, depth, moves[1..], searchDepth))
  }

  /**
   * Fail-hard alpha-beta is exact inside the window: for alpha < beta the
   * score and the negamax value agree once limited to [alpha, beta].
   */
  lemma {:induction false} AlphaBetaValue(g: Game, b: ListBoard, side: bool, depth: nat, alpha: int, beta: int,
                                          searchDepth: int)
    requires alpha < beta
    ensures Search.Clamp(AlphaBetaSpec(g, b, side, depth, alpha, beta, searchDepth).0, alpha, beta)
         == Search.Clamp(Value(g, b, side, depth, searchDepth), alpha, beta)
    decreases depth, 1
  {
    if g.moves(b) != [] && depth > 0 {
      SweepValue(g, b, side, depth, g.moves(b), alpha, beta, searchDepth, []);
    }
  }

  lemma {:induction false} SweepValue(g: Game, b: ListBoard, side: bool, depth: nat, moves: seq<int>, alpha: int,
                                      beta: int, searchDepth: int, pv: seq<int>)
    requires depth >= 1 && alpha < beta
    ensures Sweep(g, b, side, depth, moves, alpha, beta, searchDepth, pv).0
         == if moves == [] then alpha else Search.Clamp(Best(g, b, side, depth, moves, searchDepth), alpha, beta)
    decreases depth, 0, |moves|
  {
    if moves != [] {
      var c := g.play(b, moves[0], side);
      var child := AlphaBetaSpec(g, c, !side, depth - 1, -beta, -alpha, searchDepth);
      var v := Value(g, c, !side, depth - 1, searchDepth);
      AlphaBetaValue(g, c, !side, depth - 1, -beta, -alpha, searchDepth);
      Search.ClampNegated(child.0, v, alpha, beta);
      var eval := -child.0;
      var line := [moves[0]] + child.1;
      if eval >= beta {
      } else if eval > alpha {
        SweepValue(g, b, side, depth, moves[1..], eval, beta, searchDepth, line);
      } else {
        SweepValue(g, b, side, depth, moves[1..], alpha, beta, searchDepth, pv);
      }
    }
  }

  /** Every move of a line is one the game generates when it is played, the sides alternating. */
  ghost predicate PlayableLine(g: Game, b: ListBoard, side: bool, line: seq<int>)
    decreases |line|
  {
    line == [] || (line[0] in g.moves(b) && PlayableLine(g, g.play(b, line[0], side), !side, line[1..]))
  }

  /** The line `alpha_beta` returns is a playable line of at most `depth` moves from the node. */
  lemma {:induction false} AlphaBetaLine(g: Game, b: ListBoard, side: bool, depth: nat, alpha: int, beta: int,
                                         searchDepth: int)
    ensures var line := AlphaBetaSpec(g, b, side, depth, alpha, beta, searchDepth).1;
      |line| <= depth && PlayableLine(g, b, side, line)
    decreases depth, 1
  {
    if g.moves(b) != [] && depth > 0 {
      SweepLine(g, b, side, depth, g.moves(b), alpha, beta, searchDepth, []);
    }
  }

  lemma {:induction false} SweepLine(g: Game, b: ListBoard, side: bool, depth: nat, moves: seq<int>, alpha: int,
                                     beta: int, searchDepth: int, pv: seq<int>)
    requires depth >= 1
    requires forall m :: m in moves ==> m in g.moves(b)
    requires |pv| <= depth && PlayableLine(g, b, side, pv)
    ensures var line := Sweep(g, b, side, depth, moves, alpha, beta, searchDepth, pv).1;
      |line| <= depth && PlayableLine(g, b, side, line)
    decreases depth, 0, |moves|
  {
    if moves != [] {
      var c := g.play(b, moves[0], side);
      AlphaBetaLine(g, c, !side, depth - 1, -beta, -alpha, searchDepth);
      var child := AlphaBetaSpec(g, c, !side, depth - 1, -beta, -alpha, searchDepth);
      var eval := -child.0;
      var line := [moves[0]] + child.1;
      assert line[0] == moves[0] && line[1..] == child.1;
      assert PlayableLine(g, b, side, line);
      if eval >= beta {
      } else if eval > alpha {
        SweepLine(g, b, side, depth, moves[1..], eval, beta, searchDepth, line);
      } else {
        SweepLine(g, b, side, depth, moves[1..], alpha, beta, searchDepth, pv);
      }
    }
  }

  /** A move `move_gen` lists is legal, and playing it keeps the position valid. */
  lemma MoveStep(b: ListBoard, side: bool, m: int)
    requires WellFormed(b) && Rules.Valid(Abs(b)) && m in MoveGen(b)
    ensures 0 <= m < 81 && Rules.Legal(Abs(b), m)
    ensures Abs(Played(b, m, side)) == Rules.Play(Abs(b), m, SideOf(side))
    ensures Rules.Valid(Abs(Played(b, m, side)))
  {
    MoveGenIsRules(b);
    Rules.MovesAreLegal(Abs(b));
    AbsEncode(Rules.Play(Abs(b), m, SideOf(side)));
    Rules.PlayPreservesValid(Abs(b), m, SideOf(side));
  }

  /** A playable line of a game that implements this engine is a legal line of the rules. */
  lemma {:induction false} PlayableIsLegal(g: Game, b: ListBoard, side: bool, line: seq<int>)
    requires Implements(g) && WellFormed(b) && Rules.Valid(Abs(b)) && PlayableLine(g, b, side, line)
    ensures Rules.OnBoard(line) && Rules.LegalSequence(Abs(b), line, SideOf(side))
    decreases |line|
  {
    if line != [] {
      var m := line[0];
      assert g.moves(b) == MoveGen(b);
      MoveStep(b, side, m);
      var c := Played(b, m, side);
      assert g.play(b, m, side) == c;
      assert SideOf(!side) == Rules.Opponent(SideOf(side));
      PlayableIsLegal(g, c, !side, line[1..]);
    }
  }

  /** The heuristic score of every node with moves lies within 3234 of zero. */
  ghost predicate Bounded(g: Game) {
    forall b, side :: g.moves(b) != [] ==> -3234 <= g.eval(b, side) <= 3234
  }

  lemma ListGameBounded()
    ensures Bounded(ListGame())
  {
    forall b, side | ListGame().moves(b) != [] ensures -3234 <= ListGame().eval(b, side) <= 3234 {
      if WellFormed(b) {
        assert MoveGen(b) != [];
        EvalBound(b, side);
      }
    }
  }

  /**
   * Below the root (depth < searchDepth) every value lies strictly between
   * the sentinels -10000000 and 10000000.
   */
  lemma {:induction false} ValueInside(g: Game, b: ListBoard, side: bool, depth: nat, searchDepth: int)
    requires Bounded(g) && depth < searchDepth < WIN - 3234
    ensures -WIN < Value(g, b, side, depth, searchDepth) < WIN
    decreases depth, 1
  {
    if g.moves(b) != [] && depth > 0 {
      BestInside(g, b, side, depth, g.moves(b), searchDepth);
    }
  }

  lemma {:induction false} BestInside(g: Game, b: ListBoard, side: bool, depth: nat, moves: seq<int>, searchDepth: int)
    requires Bounded(g) && 1 <= depth <= searchDepth < WIN - 3234 && moves != []
    ensures -WIN < Best(g, b, side, depth, moves, searchDepth) < WIN
    decreases depth, 0, |moves|
  {
    ValueInside(g, g.play(b, moves[0], side), !side, depth - 1, searchDepth);
    if |moves| > 1 {
      BestInside(g, b, side, depth, moves[1..], searchDepth);
    }
  }

  /**
   * The call `main` makes, with the window (-10000000, 10000000) and
   * `depth == SEARCHING_DEPTH`, on a node with moves, scores the negamax
   * value exactly and returns a line that starts with one of them, so
   * `line[0]` exists: the first generated move worth that value.
   */
  lemma RootSearch(g: Game, b: ListBoard, side: bool, searchDepth: nat)
    requires Bounded(g) && g.moves(b) != [] && 1 <= searchDepth < WIN - 3234
    ensures var r := AlphaBetaSpec(g, b, side, searchDepth, -WIN, WIN, searchDepth);
      && r.1 != [] && r.1[0] in g.moves(b)
      && r.0 == Value(g, b, side, searchDepth, searchDepth)
      && exists i :: FirstBest(g, b, side, searchDepth, searchDepth, g.moves(b), i, r.0) && g.moves(b)[i] == r.1[0]
  {
    var moves := g.moves(b);
    AlphaBetaBestMove(g, b, side, searchDepth, -WIN, WIN, searchDepth);
    var c := g.play(b, moves[0], side);
    var child := AlphaBetaSpec(g, c, !side, searchDepth - 1, -WIN, WIN, searchDepth);
    ValueInside(g, c, !side, searchDepth - 1, searchDepth);
    AlphaBetaValue(g, c, !side, searchDepth - 1, -WIN, WIN, searchDepth);
    assert -WIN < -child.0 < WIN;
    SweepFirstAdopted(g, b, side, searchDepth, moves[1..], -child.0, WIN, searchDepth, [moves[0]] + child.1);
    BestInside(g, b, side, searchDepth, moves, searchDepth);
    SweepValue(g, b, side, searchDepth, moves, -WIN, WIN, searchDepth, []);
  }

  /** Once the line is nonempty and starts with a generated move, the loop keeps it so. */
  lemma {:induction false} SweepFirstAdopted(g: Game, b: ListBoard, side: bool, depth: nat, moves: seq<int>, alpha: int,
                                             beta: int, searchDepth: int, pv: seq<int>)
    requires depth >= 1
    requires forall m :: m in moves ==> m in g.moves(b)
    requires pv != [] && pv[0] in g.moves(b)
    ensures var line := Sweep(g, b, side, depth, moves, alpha, beta, searchDepth, pv).1;
      line != [] && line[0] in g.moves(b)
    decreases |moves|
  {
    if moves != [] {
      var child := AlphaBetaSpec(g, g.play(b, moves[0], side), !side, depth - 1, -beta, -alpha, searchDepth);
      var eval := -child.0;
      var line := [moves[0]] + child.1;
      assert line[0] == moves[0];
      if eval >= beta {
      } else if eval > alpha {
        SweepFirstAdopted(g, b, side, depth, moves[1..], eval, beta, searchDepth, line);
      } else {
        SweepFirstAdopted(g, b, side, depth, moves[1..], alpha, beta, searchDepth, pv);
      }
    }
  }

  // ---------------------------------------------------------------------
  // The move the search returns.

  /** What move m is worth to the side at the node: the negated value of the child it leads to. */
  function ChildValue(g: Game, b: ListBoard, side: bool, depth: nat, searchDepth: int, m: int): int
    requires depth >= 1
  {
    -Value(g, g.play(b, m, side), !side, depth - 1, searchDepth)
  }

  /** moves[i] is worth `score` and every move before it is worth less. */
  predicate FirstWorth(g: Game, b: ListBoard, side: bool, depth: nat, searchDepth: int, moves: seq<int>, i: int,
                       score: int)
    requires depth >= 1
  {
    && 0 <= i < |moves|
    && ChildValue(g, b, side, depth, searchDepth, moves[i]) == score
    && forall j :: 0 <= j < i ==> ChildValue(g, b, side, depth, searchDepth, moves[j]) < score
  }

  /** moves[i] is the first of the moves worth `score`, and no move is worth more. */
  predicate FirstBest(g: Game, b: ListBoard, side: bool, depth: nat, searchDepth: int, moves: seq<int>, i: int,
                      score: int)
    requires depth >= 1
  {
    && FirstWorth(g, b, side, depth, searchDepth, moves, i, score)
    && forall j :: 0 <= j < |moves| ==> ChildValue(g, b, side, depth, searchDepth, moves[j]) <= score
  }

  /** The best child value is at least what every move is worth. */
  lemma {:induction false} BestBounds(g: Game, b: ListBoard, side: bool, depth: nat, moves: seq<int>, searchDepth: int)
    requires depth >= 1 && moves != []
    ensures forall j :: 0 <= j < |moves| ==>
      ChildValue(g, b, side, depth, searchDepth, moves[j]) <= Best(g, b, side, depth, moves, searchDepth)
    decreases |moves|
  {
    if |moves| > 1 {
      BestBounds(g, b, side, depth, moves[1..], searchDepth);
      forall j | 1 <= j < |moves|
        ensures ChildValue(g, b, side, depth, searchDepth, moves[j]) <= Best(g, b, side, depth, moves, searchDepth)
      {
        assert moves[j] == moves[1..][j - 1];
      }
    }
  }

  /** A move worth less than `score`, put in front of a list whose first move worth it is i, makes that i + 1. */
  lemma FirstWorthShift(g: Game, b: ListBoard, side: bool, depth: nat, searchDepth: int, moves: seq<int>, i: int,
                        score: int)
    requires depth >= 1 && moves != []
    requires FirstWorth(g, b, side, depth, searchDepth, moves[1..], i, score)
    requires ChildValue(g, b, side, depth, searchDepth, moves[0]) < score
    ensures FirstWorth(g, b, side, depth, searchDepth, moves, i + 1, score)
  {
    forall j | 0 <= j < i + 1 ensures ChildValue(g, b, side, depth, searchDepth, moves[j]) < score {
      if j > 0 {
        assert moves[j] == moves[1..][j - 1];
      }
    }
  }

  /** The loop never scores below alpha, and scoring alpha it returns the line it started from. */
  lemma {:induction false} SweepUnraised(g: Game, b: ListBoard, side: bool, depth: nat, moves: seq<int>, alpha: int,
                                         beta: int, searchDepth: int, pv: seq<int>)
    requires depth >= 1 && alpha < beta
    ensures var r := Sweep(g, b, side, depth, moves, alpha, beta, searchDepth, pv);
      alpha <= r.0 && (r.0 == alpha ==> r.1 == pv)
    decreases |moves|
  {
    if moves != [] {
      var child := AlphaBetaSpec(g, g.play(b, moves[0], side), !side, depth - 1, -beta, -alpha, searchDepth);
      var eval := -child.0;
      var line := [moves[0]] + child.1;
      if eval >= beta {
      } else if eval > alpha {
        SweepUnraised(g, b, side, depth, moves[1..], eval, beta, searchDepth, line);
      } else {
        SweepUnraised(g, b, side, depth, moves[1..], alpha, beta, searchDepth, pv);
      }
    }
  }

  /**
   * A loop that ends strictly inside its window has raised alpha to its
   * score: its line starts with the first of the moves worth that score, as
   * `eval > alpha` keeps the earliest of equal moves.
   */
  lemma {:induction false} SweepBest(g: Game, b: ListBoard, side: bool, depth: nat, moves: seq<int>, alpha: int,
                                     beta: int, searchDepth: int, pv: seq<int>)
    requires depth >= 1 && alpha < beta
    ensures var r := Sweep(g, b, side, depth, moves, alpha, beta, searchDepth, pv);
      alpha < r.0 < beta ==>
        r.1 != [] && exists i :: FirstWorth(g, b, side, depth, searchDepth, moves, i, r.0) && moves[i] == r.1[0]
    decreases |moves|
  {
    var r := Sweep(g, b, side, depth, moves, alpha, beta, searchDepth, pv);
    if moves != [] && alpha < r.0 < beta {
      var c := g.play(b, moves[0], side);
      var child := AlphaBetaSpec(g, c, !side, depth - 1, -beta, -alpha, searchDepth);
      AlphaBetaValue(g, c, !side, depth - 1, -beta, -alpha, searchDepth);
      Search.ClampNegated(child.0, Value(g, c, !side, depth - 1, searchDepth), alpha, beta);
      var eval := -child.0;
      var line := [moves[0]] + child.1;
      var rest := moves[1..];
      var v0 := ChildValue(g, b, side, depth, searchDepth, moves[0]);
      assert Search.Clamp(eval, alpha, beta) == Search.Clamp(v0, alpha, beta);
      if eval > alpha {
        assert r == Sweep(g, b, side, depth, rest, eval, beta, searchDepth, line);
        assert v0 == eval;
        SweepUnraised(g, b, side, depth, rest, eval, beta, searchDepth, line);
        if r.0 == eval {
          assert FirstWorth(g, b, side, depth, searchDepth, moves, 0, r.0) && moves[0] == r.1[0];
        } else {
          SweepBest(g, b, side, depth, rest, eval, beta, searchDepth, line);
          var i :| FirstWorth(g, b, side, depth, searchDepth, rest, i, r.0) && rest[i] == r.1[0];
          FirstWorthShift(g, b, side, depth, searchDepth, moves, i, r.0);
          assert moves[i + 1] == r.1[0];
        }
      } else {
        assert r == Sweep(g, b, side, depth, rest, alpha, beta, searchDepth, pv);
        assert v0 <= alpha;
        SweepBest(g, b, side, depth, rest, alpha, beta, searchDepth, pv);
        var i :| FirstWorth(g, b, side, depth, searchDepth, rest, i, r.0) && rest[i] == r.1[0];
        FirstWorthShift(g, b, side, depth, searchDepth, moves, i, r.0);
        assert moves[i + 1] == r.1[0];
      }
    }
  }

  /**
   * A node with moves, searched at least one ply deep, that scores strictly
   * inside its window scores its negamax value, and its line starts with the
   * first generated move worth that value; no move is worth more.
   */
  lemma AlphaBetaBestMove(g: Game, b: ListBoard, side: bool, depth: nat, alpha: int, beta: int, searchDepth: int)
    requires alpha < beta && g.moves(b) != [] && depth >= 1
    ensures var r := AlphaBetaSpec(g, b, side, depth, alpha, beta, searchDepth);
      alpha < r.0 < beta ==>
        && r.0 == Value(g, b, side, depth, searchDepth)
        && r.1 != []
        && exists i :: FirstBest(g, b, side, depth, searchDepth, g.moves(b), i, r.0) && g.moves(b)[i] == r.1[0]
  {
    AlphaBetaValue(g, b, side, depth, alpha, beta, searchDepth);
    SweepBest(g, b, side, depth, g.moves(b), alpha, beta, searchDepth, []);
    BestBounds(g, b, side, depth, g.moves(b), searchDepth);
  }

  // ---------------------------------------------------------------------
  // eval_string.

  /**
   * `eval_string(eval)`: "L" and the plies to the loss within
   * SEARCHING_DEPTH of -10000000, "W" and the plies to the win, "D0" for 0,
   * and otherwise the number with its sign ('{:+d}').
   */
  function EvalString(eval: int, searchDepth: int): string {
    if eval <= searchDepth - WIN then "L" + Text.IntString(eval + WIN)
    else if eval >= WIN - searchDepth then "W" + Text.IntString(WIN - eval)
    else if eval == 0 then "D0"
    else if eval > 0 then "+" + Text.IntString(eval)
    else Text.IntString(eval)
  }

  /** The band a score falls in: loss, win, draw, positive, negative. */
  function Band(eval: int, searchDepth: int): nat {
    if eval <= searchDepth - WIN then 0
    else if eval >= WIN - searchDepth then 1
    else if eval == 0 then 2
    else if eval > 0 then 3
    else 4
  }

  /** The first character of a score string names its band. */
  lemma EvalStringBand(eval: int, searchDepth: int)
    ensures |EvalString(eval, searchDepth)| >= 2
    ensures EvalString(eval, searchDepth)[0] == "LWD+-"[Band(eval, searchDepth)]
  {
    var n := if eval <= searchDepth - WIN then eval + WIN
             else if eval >= WIN - searchDepth then WIN - eval
             else eval;
    if Band(eval, searchDepth) == 4 {
      assert Text.IntString(eval) == "-" + Text.NatString(-eval);
    } else if Band(eval, searchDepth) != 2 {
      assert |Text.IntString(n)| >= 1;
    }
  }

  /** Different scores have different strings. */
  lemma EvalStringInjective(e1: int, e2: int, searchDepth: int)
    requires EvalString(e1, searchDepth) == EvalString(e2, searchDepth)
    ensures e1 == e2
  {
    EvalStringBand(e1, searchDepth);
    EvalStringBand(e2, searchDepth);
    var s := EvalString(e1, searchDepth);
    var band := Band(e1, searchDepth);
    assert band == Band(e2, searchDepth);
    if band == 0 {
      assert s[1..] == Text.IntString(e1 + WIN) == Text.IntString(e2 + WIN);
      Text.IntStringInjective(e1 + WIN, e2 + WIN);
    } else if band == 1 {
      assert s[1..] == Text.IntString(WIN - e1) == Text.IntString(WIN - e2);
      Text.IntStringInjective(WIN - e1, WIN - e2);
    } else if band == 3 {
      assert s[1..] == Text.IntString(e1) == Text.IntString(e2);
      Text.IntStringInjective(e1, e2);
    } else if band == 4 {
      Text.IntStringInjective(e1, e2);
    }
  }

  /**
   * A win the search finds n plies below the root scores
   * `10000000 - n` and is written "W" and n; a loss, "L" and n; the score
   * of a node with moves at the horizon is never written as either.
   */
  lemma EvalStringMate(n: nat, searchDepth: nat)
    requires n <= searchDepth < WIN - 3234
    ensures EvalString(WIN - n, searchDepth) == "W" + Text.NatString(n)
    ensures EvalString(-WIN + n, searchDepth) == "L" + Text.NatString(n)
  {
  }

  lemma EvalStringOfEval(b: ListBoard, side: bool, searchDepth: nat)
    requires WellFormed(b) && MoveGen(b) != [] && searchDepth < WIN - 3234
    ensures EvalString(Eval(b, side), searchDepth)[0] in {'D', '+', '-'}
  {
    assert !Three(b.large, 1) && !Three(b.large, -1);
    EvalBound(b, side);
    EvalStringBand(Eval(b, side), searchDepth);
  }
}
