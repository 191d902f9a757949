/**
 * The string-based engine of UltimateTicTacToe_Prod/ultimate-tictactoe.py.
 *
 * A position is `(small_grids, large_grid, zone)`: nine strings of nine
 * characters, the 9-character large grid of zone winners and the forced
 * zone (-1 for any zone). A character is 'X' for US, the player who moves
 * first (side True), 'O' for THEM (side False) and '.' when empty.
 */
module StringEngine {
  import opened PyLines
  import Rules
  import LineHelpers
  import Tables
  import Search
  import ListEngine

  datatype StringBoard = StringBoard(small: seq<string>, large: string, zone: int)

  /** `US`, `THEM` and the empty cell. */
  const US: char := 'X'
  const THEM: char := 'O'
  const EMPTY: char := '.'

  predicate IsCell(ch: char) {
    ch == US || ch == THEM || ch == EMPTY
  }

  /** Nine zones of nine cells, a 9-cell large grid, every character 'X', 'O' or '.', and a zone -1..8. */
  predicate WellFormed(b: StringBoard) {
    && |b.small| == 9
    && (forall z :: 0 <= z < 9 ==> |b.small[z]| == 9)
    && (forall z, c :: 0 <= z < 9 && 0 <= c < 9 ==> IsCell(b.small[z][c]))
    && |b.large| == 9
    && (forall z :: 0 <= z < 9 ==> IsCell(b.large[z]))
    && -1 <= b.zone < 9
  }

  // ---------------------------------------------------------------------
  // The encoding.

  function MarkOf(ch: char): Rules.Mark {
    if ch == US then Rules.First else if ch == THEM then Rules.Second else Rules.Empty
  }

  /** The rule-level position a string board stands for; zone -1 is "any zone". */
  function Abs(b: StringBoard): (s: Rules.State)
    requires WellFormed(b)
    ensures Rules.WellFormed(s)
  {
    Rules.State(CellsOf(b.small), WonOf(b.large), if b.zone == -1 then Rules.ANY else b.zone)
  }

  /** The 81 cells of nine 9-cell zones, zone after zone. */
  function CellsOf(small: seq<string>): (cells: seq<Rules.Mark>)
    requires |small| == 9 && forall z :: 0 <= z < 9 ==> |small[z]| == 9
    ensures |cells| == 81
  {
    seq(81, m requires 0 <= m < 81 => MarkOf(small[m / 9][m % 9]))
  }

  /** The marks of a grid of characters. */
  function WonOf(large: string): (won: seq<Rules.Mark>)
    ensures |won| == |large|
    ensures forall z :: 0 <= z < |large| ==> won[z] == MarkOf(large[z])
  {
    seq(|large|, z requires 0 <= z < |large| => MarkOf(large[z]))
  }

  lemma CellOf(small: seq<string>, z: int, c: int)
    requires |small| == 9 && (forall z :: 0 <= z < 9 ==> |small[z]| == 9) && 0 <= z < 9 && 0 <= c < 9
    ensures CellsOf(small)[9 * z + c] == MarkOf(small[z][c])
  {
    assert (9 * z + c) / 9 == z && (9 * z + c) % 9 == c;
  }

  /** The board `main` starts from: every cell '.', any zone. */
  function StartBoard(): (b: StringBoard)
    ensures WellFormed(b)
  {
    StringBoard(seq(9, _ => "........."), ".........", -1)
  }

  lemma StartBoardIsStart()
    ensures Abs(StartBoard()) == Rules.Start()
  {
    assert forall z :: 0 <= z < 9 ==> StartBoard().small[z] == ".........";
  }

  /** The side True is the first player. */
  function SideOf(side: bool): Rules.Side {
    if side then 0 else 1
  }

  /** `US if side else THEM`: the character a side writes. */
  function Stone(side: bool): (ch: char)
    ensures ch == US || ch == THEM
    ensures MarkOf(ch) == Rules.MarkOf(SideOf(side))
  {
    if side then US else THEM
  }

  /** The cells of zone z holding a side's character are the zone's cells of its mark. */
  lemma ZoneOfCells(small: seq<string>, z: int, ch: char)
    requires |small| == 9 && (forall z :: 0 <= z < 9 ==> |small[z]| == 9) && 0 <= z < 9 && (ch == US || ch == THEM)
    ensures Holding(small[z], ch) == Rules.ZoneGrid(CellsOf(small), z, MarkOf(ch))
  {
    forall c | 0 <= c < 9 ensures (small[z][c] == ch) == (CellsOf(small)[9 * z + c] == MarkOf(ch)) {
      CellOf(small, z, c);
    }
  }

  lemma LargeOfAbs(b: StringBoard, ch: char)
    requires WellFormed(b) && (ch == US || ch == THEM)
    ensures Holding(b.large, ch) == Rules.WonGrid(Abs(b).won, MarkOf(ch))
  {
  }

  /** `'.' not in small[z]`: the zone is full. */
  lemma FullOfCells(small: seq<string>, z: int)
    requires |small| == 9 && (forall z :: 0 <= z < 9 ==> |small[z]| == 9) && 0 <= z < 9
    requires forall c :: 0 <= c < 9 ==> IsCell(small[z][c])
    ensures EMPTY !in small[z] <==> Rules.ZoneFull(CellsOf(small), z)
  {
    var cells := CellsOf(small);
    forall c | 0 <= c < 9 ensures cells[9 * z .. 9 * z + 9][c] == MarkOf(small[z][c]) {
      CellOf(small, z, c);
    }
    if EMPTY in small[z] {
      var c :| 0 <= c < 9 && small[z][c] == EMPTY;
      assert cells[9 * z .. 9 * z + 9][c] == Rules.Empty;
    }
  }

  /** A large cell is '.' exactly when its zone is not won. */
  lemma OpenOfAbs(b: StringBoard, z: int)
    requires WellFormed(b) && 0 <= z < 9
    ensures (b.large[z] == EMPTY) == (Abs(b).won[z] == Rules.Empty)
  {
  }

  // ---------------------------------------------------------------------
  // Lines.

  /** `any(line.count(ch) == 3 for line in lines)` over the lines of a grid. */
  predicate Three(g: string, ch: char)
    requires |g| == 9
  {
    exists k :: 0 <= k < 8 && LINES[k].step > 0 && CountOf(Take(g, LINES[k]), ch) == 3
  }

  /** A grid counts three of a character on some line exactly when its cells of that character have three in a row. */
  lemma ThreeIsLine(g: string, ch: char)
    requires |g| == 9
    ensures Three(g, ch) <==> Rules.HasLine(Holding(g, ch))
  {
    LinesAreRuleLines();
    forall k | 0 <= k < 8 ensures CountOf(Take(g, LINES[k]), ch) == 3 <==> Rules.LineFull(Holding(g, ch), k) {
      ThreeOfLine(g, ch, k);
    }
  }

  /** A line of the large grid has three of a side's character exactly when the game is over. */
  lemma ThreeIsGameOver(b: StringBoard)
    requires WellFormed(b)
    ensures Three(b.large, US) || Three(b.large, THEM) <==> Rules.GameOver(Abs(b))
  {
    ThreeIsLine(b.large, US);
    ThreeIsLine(b.large, THEM);
    LargeOfAbs(b, US);
    LargeOfAbs(b, THEM);
  }

  // ---------------------------------------------------------------------
  // The order of move_gen.

  /**
   * The sort key of a move: how many more 'X' than 'O' its zone holds, the
   * key `small_grids[m // 9].count(US) - small_grids[m // 9].count(THEM)`.
   */
  function Key(small: seq<string>, m: int): int
    requires |small| == 9 && 0 <= m < 81
  {
    CountOf(small[m / 9], US) - CountOf(small[m / 9], THEM)
  }

  /** Keys never increase along the list. */
  predicate Descending(small: seq<string>, s: seq<int>)
    requires |small| == 9 && Rules.OnBoard(s)
  {
    forall i, j :: 0 <= i < j < |s| ==> Key(small, s[i]) >= Key(small, s[j])
  }

  /** The moves of a list whose key is k, in the list's order. */
  function WithKey(small: seq<string>, s: seq<int>, k: int): seq<int>
    requires |small| == 9 && Rules.OnBoard(s)
    decreases |s|
  {
    if s == [] then [] else (if Key(small, s[0]) == k then [s[0]] else []) + WithKey(small, s[1..], k)
  }

  /** m placed in front of the first move whose key is not above its own. */
  function Insert(small: seq<string>, m: int, s: seq<int>): (r: seq<int>)
    requires |small| == 9 && 0 <= m < 81 && Rules.OnBoard(s)
    ensures Rules.OnBoard(r)
    ensures multiset(r) == multiset(s) + multiset{m}
    decreases |s|
  {
    if s == [] || Key(small, m) >= Key(small, s[0]) then [m] + s
    else
      var rest := Insert(small, m, s[1..]);
      assert s == [s[0]] + s[1..];
      [s[0]] + rest
  }

  /**
   * `move_list.sort(key=..., reverse=True)`: Python's sort is stable, also
   * with `reverse=True`, so its result is the unique descending
   * arrangement in which moves of equal key keep their order; here it is
   * computed by insertion from the back of the list.
   */
  function SortByKey(small: seq<string>, ms: seq<int>): (r: seq<int>)
    requires |small| == 9 && Rules.OnBoard(ms)
    ensures Rules.OnBoard(r)
    decreases |ms|
  {
    if ms == [] then [] else Insert(small, ms[0], SortByKey(small, ms[1..]))
  }

  /** Insertion keeps a list in descending order. */
  lemma {:induction false} InsertDescending(small: seq<string>, m: int, s: seq<int>)
    requires |small| == 9 && 0 <= m < 81 && Rules.OnBoard(s) && Descending(small, s)
    ensures Descending(small, Insert(small, m, s))
    decreases |s|
  {
    if s == [] || Key(small, m) >= Key(small, s[0]) {
      ConsDescending(small, m, s);
    } else {
      var rest := Insert(small, m, s[1..]);
      InsertDescending(small, m, s[1..]);
      assert Insert(small, m, s) == [s[0]] + rest;
      forall j | 0 <= j < |rest| ensures Key(small, s[0]) >= Key(small, rest[j]) {
        assert rest[j] in multiset(rest);
        assert rest[j] == m || rest[j] in s[1..];
      }
      ConsDescending(small, s[0], rest);
    }
  }

  /** A move in front of a descending list keeps it descending when its key is not below the head's, or any key of the list. */
  lemma ConsDescending(small: seq<string>, x: int, t: seq<int>)
    requires |small| == 9 && 0 <= x < 81 && Rules.OnBoard(t) && Descending(small, t)
    requires t == [] || Key(small, x) >= Key(small, t[0]) || forall j :: 0 <= j < |t| ==> Key(small, x) >= Key(small, t[j])
    ensures Descending(small, [x] + t)
  {
    var r := [x] + t;
    forall i, j | 0 <= i < j < |r| ensures Key(small, r[i]) >= Key(small, r[j]) {
      if i == 0 {
        assert r[j] == t[j - 1];
        if t != [] && j > 1 && Key(small, x) >= Key(small, t[0]) {
          assert Key(small, t[0]) >= Key(small, t[j - 1]);
        }
      } else {
        assert r[i] == t[i - 1] && r[j] == t[j - 1];
      }
    }
  }

  /** Among the moves of one key, insertion puts m first when it has that key, and moves nothing else. */
  lemma {:induction false} InsertWithKey(small: seq<string>, m: int, s: seq<int>, k: int)
    requires |small| == 9 && 0 <= m < 81 && Rules.OnBoard(s)
    ensures WithKey(small, Insert(small, m, s), k) == (if Key(small, m) == k then [m] else []) + WithKey(small, s, k)
    decreases |s|
  {
    if s == [] || Key(small, m) >= Key(small, s[0]) {
      WithKeyCons(small, m, s, k);
    } else {
      var rest := Insert(small, m, s[1..]);
      InsertWithKey(small, m, s[1..], k);
      WithKeyCons(small, s[0], rest, k);
      WithKeyCons(small, s[0], s[1..], k);
      assert [s[0]] + s[1..] == s;
    }
  }

  /** The moves of key k of a list with a move in front. */
  lemma WithKeyCons(small: seq<string>, x: int, s: seq<int>, k: int)
    requires |small| == 9 && 0 <= x < 81 && Rules.OnBoard(s)
    ensures Rules.OnBoard([x] + s)
    ensures WithKey(small, [x] + s, k) == (if Key(small, x) == k then [x] else []) + WithKey(small, s, k)
  {
    assert ([x] + s)[0] == x && ([x] + s)[1..] == s;
  }

  /** The sorted list is a rearrangement of the list. */
  lemma {:induction false} SortPermutes(small: seq<string>, ms: seq<int>)
    requires |small| == 9 && Rules.OnBoard(ms)
    ensures multiset(SortByKey(small, ms)) == multiset(ms)
    decreases |ms|
  {
    if ms != [] {
      SortPermutes(small, ms[1..]);
      assert ms == [ms[0]] + ms[1..];
    }
  }

  /** The sorted list has descending keys. */
  lemma {:induction false} SortDescending(small: seq<string>, ms: seq<int>)
    requires |small| == 9 && Rules.OnBoard(ms)
    ensures Descending(small, SortByKey(small, ms))
    decreases |ms|
  {
    if ms != [] {
      SortDescending(small, ms[1..]);
      InsertDescending(small, ms[0], SortByKey(small, ms[1..]));
    }
  }

  /** The sort is stable: the moves of each key come out in the order they went in. */
  lemma {:induction false} SortStable(small: seq<string>, ms: seq<int>, k: int)
    requires |small| == 9 && Rules.OnBoard(ms)
    ensures WithKey(small, SortByKey(small, ms), k) == WithKey(small, ms, k)
    decreases |ms|
  {
    if ms != [] {
      SortStable(small, ms[1..], k);
      InsertWithKey(small, ms[0], SortByKey(small, ms[1..]), k);
    }
  }

  // ---------------------------------------------------------------------
  // move_gen.

  /**
   * `move_gen`: nothing once a line of the large grid counts three 'X' or
   * three 'O'; with zone -1 the empty cells of the zones whose large cell is
   * '.', otherwise the empty cells of the forced zone, ascending; then
   * sorted by key, largest first.
   */
  function MoveGen(b: StringBoard): (r: seq<int>)
    requires WellFormed(b)
    ensures Rules.OnBoard(r)
  {
    if Three(b.large, US) || Three(b.large, THEM) then []
    else SortByKey(b.small, Unsorted(b))
  }

  /** The comprehension of `move_gen`, before the sort. */
  function Unsorted(b: StringBoard): (r: seq<int>)
    requires WellFormed(b)
    ensures Rules.OnBoard(r)
  {
    if b.zone == -1 then OpenMoves(b) else ZoneMoves(b)
  }

  /** Cell m is empty and its zone's large cell is '.'. */
  predicate OpenCell(b: StringBoard, m: int)
    requires WellFormed(b)
  {
    0 <= m < 81 && b.small[m / 9][m % 9] == EMPTY && b.large[m / 9] == EMPTY
  }

  /** Cell m lies in the forced zone and is empty. */
  predicate ZoneCell(b: StringBoard, m: int)
    requires WellFormed(b) && b.zone != -1
  {
    0 <= m < 81 && b.small[m / 9][m % 9] == EMPTY && m / 9 == b.zone
  }

  /** The comprehension over all 81 cells: the empty cells of zones whose large cell is '.', in order. */
  function OpenMoves(b: StringBoard): (r: seq<int>)
    requires WellFormed(b)
    ensures Rules.OnBoard(r) && Rules.StrictlyAscending(r)
    ensures forall m :: m in r <==> OpenCell(b, m)
  {
    var p := m => OpenCell(b, m);
    Rules.SelectSpec(0, 81, p);
    Rules.Select(0, 81, p)
  }

  /** The comprehension over the forced zone: its empty cells, in order. */
  function ZoneMoves(b: StringBoard): (r: seq<int>)
    requires WellFormed(b) && b.zone != -1
    ensures Rules.OnBoard(r) && Rules.StrictlyAscending(r)
    ensures forall m :: m in r <==> ZoneCell(b, m)
  {
    var z := b.zone;
    var p := m => 9 * z <= m < 9 * z + 9 && b.small[z][m - 9 * z] == EMPTY;
    Rules.SelectSpec(9 * z, 9 * z + 9, p);
    forall m ensures p(m) <==> ZoneCell(b, m) {
      if 0 <= m < 81 {
        ListEngine.DivMod9Zone(m, z);
      }
    }
    Rules.Select(9 * z, 9 * z + 9, p)
  }

  /** Before the sort, the comprehension lists the rules' moves of an unfinished game, in their order. */
  lemma UnsortedIsRules(b: StringBoard)
    requires WellFormed(b) && !Rules.GameOver(Abs(b))
    ensures Unsorted(b) == Rules.Moves(Abs(b))
  {
    var s := Abs(b);
    if b.zone == -1 {
      var p := m => OpenCell(b, m);
      var q := m => 0 <= m < 81 && s.cells[m] == Rules.Empty && s.won[m / 9] == Rules.Empty;
      Rules.SelectCongruent(0, 81, p, q);
    } else {
      var zone := b.zone;
      var p := m => 9 * zone <= m < 9 * zone + 9 && b.small[zone][m - 9 * zone] == EMPTY;
      var q := m => 0 <= m < 81 && s.cells[m] == Rules.Empty;
      forall m | 9 * zone <= m < 9 * zone + 9 ensures p(m) == q(m) {
        CellOf(b.small, zone, m - 9 * zone);
      }
      Rules.SelectCongruent(9 * zone, 9 * zone + 9, p, q);
    }
  }

  /**
   * `move_gen` lists the rules' legal moves, each once, sorted by key with
   * the largest first, and moves of equal key in the rules' ascending
   * order.
   */
  lemma MoveGenIsRules(b: StringBoard)
    requires WellFormed(b)
    ensures MoveGen(b) == SortByKey(b.small, Rules.Moves(Abs(b)))
    ensures multiset(MoveGen(b)) == multiset(Rules.Moves(Abs(b)))
    ensures Descending(b.small, MoveGen(b))
    ensures forall k :: WithKey(b.small, MoveGen(b), k) == WithKey(b.small, Rules.Moves(Abs(b)), k)
  {
    ThreeIsGameOver(b);
    if !Rules.GameOver(Abs(b)) {
      UnsortedIsRules(b);
    }
    var ms := Rules.Moves(Abs(b));
    SortPermutes(b.small, ms);
    SortDescending(b.small, ms);
    forall k ensures WithKey(b.small, MoveGen(b), k) == WithKey(b.small, ms, k) {
      SortStable(b.small, ms, k);
    }
  }

  /** On a valid position, a move is listed exactly when the rules allow it. */
  lemma MoveGenLegal(b: StringBoard)
    requires WellFormed(b) && Rules.Valid(Abs(b))
    ensures forall m :: m in MoveGen(b) <==> Rules.Legal(Abs(b), m)
  {
    MoveGenIsRules(b);
    Rules.MovesAreLegal(Abs(b));
    forall m ensures m in MoveGen(b) <==> m in Rules.Moves(Abs(b)) {
      assert m in MoveGen(b) <==> m in multiset(MoveGen(b));
    }
  }

  // ---------------------------------------------------------------------
  // play_move.

  /** `s[:i] + ch + s[i + 1:]`: the string with its character at i replaced. */
  function Put(s: string, i: int, ch: char): (r: string)
    requires 0 <= i < |s|
    ensures r == s[i := ch]
  {
    s[..i] + [ch] + s[i + 1..]
  }

  /** `(*small_grids[:z], focus, *small_grids[z + 1:])`: the tuple with zone z replaced. */
  function Splice(small: seq<string>, z: int, focus: string): (r: seq<string>)
    requires 0 <= z < |small|
    ensures r == small[z := focus]
  {
    small[..z] + [focus] + small[z + 1..]
  }

  /** The large grid after the move: zone z takes the side's character when the side now has a line in it. */
  function LargeAfter(large: string, z: int, focus: string, side: bool): string
    requires |large| == 9 && 0 <= z < 9 && |focus| == 9
  {
    if side && Three(focus, US) then Put(large, z, US)
    else if !side && Three(focus, THEM) then Put(large, z, THEM)
    else large
  }

  /**
   * `play_move` as written: it decides the next zone from `square_focus`,
   * the zone just played in, where the rules look at the zone the move
   * sends to: a full target zone is forced all the same, and a target zone
   * with room is not forced once the zone played in is full. The cells and
   * the large grid are those of the rules.
   */
  function PlayAsWritten(b: StringBoard, move: int, side: bool): (r: StringBoard)
    requires WellFormed(b) && 0 <= move < 81
    ensures WellFormed(r)
    ensures var p := Rules.Play(Abs(b), move, SideOf(side));
      && Abs(r).cells == p.cells && Abs(r).won == p.won
      && r.zone == if Rules.ZoneFull(p.cells, move / 9) || p.won[move % 9] != Rules.Empty then -1 else move % 9
  {
    var z, c := move / 9, move % 9;
    var focus := Put(b.small[z], c, Stone(side));
    var large := LargeAfter(b.large, z, focus, side);
    var zone := if EMPTY !in focus || large[c] != EMPTY then -1 else c;
    var r := StringBoard(Splice(b.small, z, focus), large, zone);
    PlacedMeaning(b, move, side, r.small, r.large);
    FullOfCells(r.small, z);
    r
  }

  /**
   * `play_move` with the evidently intended zone test, on the zone the
   * move sends to (`small_grids[move % 9]` after the move): the rules'
   * position after the move.
   */
  function PlayMove(b: StringBoard, move: int, side: bool): (r: StringBoard)
    requires WellFormed(b) && 0 <= move < 81
    ensures WellFormed(r)
    ensures Abs(r) == Rules.Play(Abs(b), move, SideOf(side))
  {
    var z, c := move / 9, move % 9;
    var focus := Put(b.small[z], c, Stone(side));
    var large := LargeAfter(b.large, z, focus, side);
    var small := Splice(b.small, z, focus);
    var zone := if EMPTY !in small[c] || large[c] != EMPTY then -1 else c;
    var r := StringBoard(small, large, zone);
    PlacedMeaning(b, move, side, r.small, r.large);
    FullOfCells(r.small, c);
    r
  }

  /** The zones and large grid `play_move` builds are the rules' cells and large grid after the move. */
  lemma PlacedMeaning(b: StringBoard, move: int, side: bool, small: seq<string>, large: string)
    requires WellFormed(b) && 0 <= move < 81
    requires var z, c := move / 9, move % 9;
      var focus := Put(b.small[z], c, Stone(side));
      small == Splice(b.small, z, focus) && large == LargeAfter(b.large, z, focus, side)
    ensures WellFormed(StringBoard(small, large, -1))
    ensures var p := Rules.Play(Abs(b), move, SideOf(side));
      CellsOf(small) == p.cells && WonOf(large) == p.won
  {
    var z := move / 9;
    var p := Rules.Play(Abs(b), move, SideOf(side));
    PlacedWellFormed(b, move / 9, move % 9, Stone(side), small, large);
    CellsAfter(b.small, move, Stone(side));
    assert CellsOf(small) == p.cells;
    ZoneOfCells(small, z, Stone(side));
    ThreeIsLine(small[z], Stone(side));
  }

  /** Putting a stone in a cell and changing the large grid at most in one zone keeps the board well formed. */
  lemma PlacedWellFormed(b: StringBoard, z: int, c: int, ch: char, small: seq<string>, large: string)
    requires WellFormed(b) && 0 <= z < 9 && 0 <= c < 9 && IsCell(ch)
    requires small == b.small[z := b.small[z][c := ch]]
    requires large == b.large || large == b.large[z := ch]
    ensures WellFormed(StringBoard(small, large, -1))
  {
    forall y, d | 0 <= y < 9 && 0 <= d < 9 ensures IsCell(small[y][d]) {
      if y == z && d == c {
        assert small[y][d] == ch;
      } else {
        assert small[y][d] == b.small[y][d];
      }
    }
    forall y | 0 <= y < 9 ensures IsCell(large[y]) {
      if y == z {
        assert large[y] == ch || large[y] == b.large[y];
      } else {
        assert large[y] == b.large[y];
      }
    }
  }

  /** The cells after the move are the old cells with the side's mark at `move`. */
  lemma CellsAfter(small: seq<string>, move: int, ch: char)
    requires |small| == 9 && (forall z :: 0 <= z < 9 ==> |small[z]| == 9) && 0 <= move < 81
    ensures CellsOf(small[move / 9 := small[move / 9][move % 9 := ch]]) == CellsOf(small)[move := MarkOf(ch)]
  {
    var after := small[move / 9 := small[move / 9][move % 9 := ch]];
    forall m | 0 <= m < 81 ensures CellsOf(after)[m] == CellsOf(small)[move := MarkOf(ch)][m] {
      assert 9 * (m / 9) + m % 9 == m && 9 * (move / 9) + move % 9 == move;
    }
  }

  /**
   * The two agree whenever the zone played in and the zone sent to are
   * both full or both not, in particular when they are the same zone.
   */
  lemma AsWrittenAgrees(b: StringBoard, move: int, side: bool)
    requires WellFormed(b) && 0 <= move < 81
    requires var p := Rules.Play(Abs(b), move, SideOf(side));
      Rules.ZoneFull(p.cells, move / 9) == Rules.ZoneFull(p.cells, move % 9)
    ensures PlayAsWritten(b, move, side) == PlayMove(b, move, side)
  {
  }

  /** Zone 1 full without a line, zone 0 and the rest empty, any zone to play. */
  function FullNeighbour(): (b: StringBoard)
    ensures WellFormed(b)
  {
    var e := ".........";
    StringBoard([e, "XOXXOOOXX", e, e, e, e, e, e, e], e, -1)
  }

  /**
   * X plays cell 1 of zone 0 and so sends O to zone 1, which is full. As
   * written, zone 1 is forced and `move_gen` lists nothing: the game ends
   * there. Under the rules any zone may be played, and the corrected
   * `play_move` lists cell 0 among the moves.
   */
  lemma SquareFocusFinding()
    ensures var b := FullNeighbour();
      && Rules.Valid(Abs(b)) && Rules.Legal(Abs(b), 1)
      && PlayAsWritten(b, 1, true).zone == 1 && MoveGen(PlayAsWritten(b, 1, true)) == []
      && PlayMove(b, 1, true).zone == -1 && 0 in MoveGen(PlayMove(b, 1, true))
  {
    FullNeighbourValid();
    AsWrittenStops();
    CorrectedGoesOn();
  }

  /** The position satisfies the invariants of play, and X may play cell 1 of zone 0. */
  lemma FullNeighbourValid()
    ensures Rules.Valid(Abs(FullNeighbour())) && Rules.Legal(Abs(FullNeighbour()), 1)
  {
    var b := FullNeighbour();
    var s := Abs(b);
    assert b.small[1] == "XOXXOOOXX";
    assert Holding(b.small[1], US) == [true, false, true, true, false, false, false, true, true];
    assert Holding(b.small[1], THEM) == [false, true, false, false, true, true, true, false, false];
    ListEngine.NoLine(Holding(b.small[1], US));
    ListEngine.NoLine(Holding(b.small[1], THEM));
    ZoneOfCells(b.small, 1, US);
    ZoneOfCells(b.small, 1, THEM);
    forall z | 0 <= z < 9 && z != 1
      ensures !Rules.HasLine(Rules.ZoneGrid(s.cells, z, Rules.First))
      ensures !Rules.HasLine(Rules.ZoneGrid(s.cells, z, Rules.Second))
    {
      EmptyZoneNoLine(b.small, z);
    }
  }

  /** An empty zone has no line for either player. */
  lemma EmptyZoneNoLine(small: seq<string>, z: int)
    requires |small| == 9 && (forall z :: 0 <= z < 9 ==> |small[z]| == 9) && 0 <= z < 9
    requires small[z] == "........."
    ensures !Rules.HasLine(Rules.ZoneGrid(CellsOf(small), z, Rules.First))
    ensures !Rules.HasLine(Rules.ZoneGrid(CellsOf(small), z, Rules.Second))
  {
    ZoneOfCells(small, z, US);
    ZoneOfCells(small, z, THEM);
    assert forall c :: 0 <= c < 9 ==> !Holding(small[z], US)[c] && !Holding(small[z], THEM)[c];
  }

  /** As written, the move forces the full zone 1, which has no move. */
  lemma AsWrittenStops()
    ensures PlayAsWritten(FullNeighbour(), 1, true).zone == 1
    ensures MoveGen(PlayAsWritten(FullNeighbour(), 1, true)) == []
  {
    var b := FullNeighbour();
    assert Put(b.small[0], 1, US)[0] == EMPTY && b.large[1] == EMPTY;
    AsWrittenZone(b, 1, true);
    NeighbourFull();
    ForcedFullZone(PlayAsWritten(b, 1, true));
  }

  /** Zone 1 of the position has no empty cell. */
  lemma NeighbourFull()
    ensures EMPTY !in FullNeighbour().small[1]
  {
    var full := "XOXXOOOXX";
    assert FullNeighbour().small[1] == full;
    assert forall c :: 0 <= c < 9 ==> full[c] != EMPTY;
  }

  /**
   * As written, a move that leaves room in its own zone sends to the zone
   * of its cell whenever that zone is not won, full or not.
   */
  lemma AsWrittenZone(b: StringBoard, move: int, side: bool)
    requires WellFormed(b) && 0 <= move < 81 && move / 9 != move % 9
    requires EMPTY in Put(b.small[move / 9], move % 9, Stone(side)) && b.large[move % 9] == EMPTY
    ensures PlayAsWritten(b, move, side).zone == move % 9
    ensures PlayAsWritten(b, move, side).small[move % 9] == b.small[move % 9]
  {
  }

  /** A forced zone without an empty cell leaves `move_gen` nothing to list. */
  lemma ForcedFullZone(w: StringBoard)
    requires WellFormed(w) && w.zone != -1 && EMPTY !in w.small[w.zone]
    ensures MoveGen(w) == []
  {
    var z := w.zone;
    var p := m => 9 * z <= m < 9 * z + 9 && w.small[z][m - 9 * z] == EMPTY;
    forall m | 9 * z <= m < 9 * z + 9 ensures !p(m) {
      assert w.small[z][m - 9 * z] in w.small[z];
    }
    SelectNone(9 * z, 9 * z + 9, p);
    assert ZoneMoves(w) == [];
    assert Unsorted(w) == [];
  }

  /** Nothing is selected where the predicate holds nowhere. */
  lemma {:induction false} SelectNone(lo: int, hi: int, p: int -> bool)
    requires forall x :: lo <= x < hi ==> !p(x)
    ensures Rules.Select(lo, hi, p) == []
    decreases hi - lo
  {
    if hi > lo {
      SelectNone(lo, hi - 1, p);
    }
  }

  /** With the corrected zone test any zone may be played next, cell 0 among them. */
  lemma CorrectedGoesOn()
    ensures PlayMove(FullNeighbour(), 1, true).zone == -1
    ensures 0 in MoveGen(PlayMove(FullNeighbour(), 1, true))
  {
    var b := FullNeighbour();
    var r := PlayMove(b, 1, true);
    FullNeighbourValid();
    Rules.PlayPreservesValid(Abs(b), 1, 0);
    assert r.small[0] == ".X.......";
    OneStoneNoLine();
    assert r.large == b.large;
    assert r.small[1] == "XOXXOOOXX";
    OpenCellListed(r);
  }

  /** A single 'X' at cell 1 makes no line. */
  lemma OneStoneNoLine()
    ensures !Three(".X.......", US)
  {
    ThreeIsLine(".X.......", US);
    assert Holding(".X.......", US) == [false, true, false, false, false, false, false, false, false];
  }

  /** With any zone to play and an empty large grid, an empty cell 0 is a move. */
  lemma OpenCellListed(r: StringBoard)
    requires WellFormed(r) && Rules.Valid(Abs(r)) && r.zone == -1 && r.large == "........." && r.small[0][0] == EMPTY
    ensures 0 in MoveGen(r)
  {
    MoveGenLegal(r);
    EmptyLargeGoesOn(r);
    CellOf(r.small, 0, 0);
    assert Rules.Legal(Abs(r), 0);
  }

  /** An empty large grid has no line: the game goes on. */
  lemma EmptyLargeGoesOn(r: StringBoard)
    requires WellFormed(r) && r.large == "........."
    ensures !Rules.GameOver(Abs(r))
  {
    var won := Abs(r).won;
    assert forall z :: 0 <= z < 9 ==> won[z] == Rules.Empty;
    assert forall z :: 0 <= z < 9 ==> !Rules.WonGrid(won, Rules.First)[z] && !Rules.WonGrid(won, Rules.Second)[z];
  }

  // ---------------------------------------------------------------------
  // evaluate.

  /** The weights of `evaluate`: two and one cells of a large line, two and one cells of a zone line. */
  const BIG_TWO: int := 200
  const BIG_ONE: int := 100
  const SMALL_TWO: int := 25
  const SMALL_ONE: int := 10

  /** The cells of a grid holding the side's own character, and the opponent's. */
  function Ours(g: string, side: bool): (r: seq<bool>)
    ensures |r| == |g|
  {
    Holding(g, Stone(side))
  }

  function Theirs(g: string, side: bool): (r: seq<bool>)
    ensures |r| == |g|
  {
    Holding(g, Stone(!side))
  }

  /**
   * The first line, from line k on, that one side holds completely; on
   * each line `us` is looked at before `them`. Unlike the other engines,
   * lines both sides touch are looked at too.
   */
  function FirstThree(u: seq<bool>, t: seq<bool>, k: nat): Tables.Decision
    requires |u| == 9 && |t| == 9 && k <= 8
    decreases 8 - k
  {
    if k == 8 then Tables.Undecided
    else if LineHelpers.LineCount(u, k) == 3 then Tables.UsLine
    else if LineHelpers.LineCount(t, k) == 3 then Tables.ThemLine
    else FirstThree(u, t, k + 1)
  }

  /** Lines k..7, each scoring for us and against them whether or not the other side touches it. */
  function LineSum(u: seq<bool>, t: seq<bool>, k: nat, two: int, one: int): int
    requires |u| == 9 && |t| == 9 && k <= 8
    decreases 8 - k
  {
    if k == 8 then 0
    else
      Tables.Weight(LineHelpers.LineCount(u, k), two, one) - Tables.Weight(LineHelpers.LineCount(t, k), two, one)
      + LineSum(u, t, k + 1, two, one)
  }

  /** A full zone, or one whose large cell is taken, is skipped. */
  predicate Skipped(b: StringBoard, z: int)
    requires WellFormed(b) && 0 <= z < 9
  {
    EMPTY !in b.small[z] || b.large[z] != EMPTY
  }

  /** The lines of zone z, 25 for two cells and 10 for one, ours minus theirs; 0 for a skipped zone. */
  function ZoneLines(b: StringBoard, side: bool, z: int): int
    requires WellFormed(b) && 0 <= z < 9
  {
    if Skipped(b, z) then 0 else LineSum(Ours(b.small[z], side), Theirs(b.small[z], side), 0, SMALL_TWO, SMALL_ONE)
  }

  /** The zone lines of zones 0..n-1. */
  function ZonesLines(b: StringBoard, side: bool, n: nat): int
    requires WellFormed(b) && n <= 9
  {
    if n == 0 then 0 else ZonesLines(b, side, n - 1) + ZoneLines(b, side, n - 1)
  }

  /** Who holds the first complete line of the large grid. */
  function LargeDecision(b: StringBoard, side: bool): Tables.Decision
    requires WellFormed(b)
  {
    FirstThree(Ours(b.large, side), Theirs(b.large, side), 0)
  }

  /** The large lines: 200 for two cells and 100 for one, ours minus theirs. */
  function LargeLines(b: StringBoard, side: bool): int
    requires WellFormed(b)
  {
    LineSum(Ours(b.large, side), Theirs(b.large, side), 0, BIG_TWO, BIG_ONE)
  }

  /**
   * `evaluate`: OUTCOME_WIN or OUTCOME_LOSS at the first complete large
   * line, OUTCOME_DRAW once the large grid has no '.', and otherwise the
   * large lines and the lines of the zones still open.
   */
  function Eval(b: StringBoard, side: bool): int
    requires WellFormed(b)
  {
    match LargeDecision(b, side)
    case UsLine => Tables.OUTCOME_WIN
    case ThemLine => Tables.OUTCOME_LOSS
    case Undecided =>
      if EMPTY !in b.large then Tables.OUTCOME_DRAW
      else LargeLines(b, side) + ZonesLines(b, side, 9)
  }

  /**
   * The large-line loop: it stops at the first complete line, and
   * otherwise sums the line scores.
   */
  method ScoreLargeLines(large: string, side: bool) returns (decision: Tables.Decision, eval: int)
    requires |large| == 9
    ensures decision == FirstThree(Ours(large, side), Theirs(large, side), 0)
    ensures decision == Tables.UsLine ==> eval == Tables.OUTCOME_WIN
    ensures decision == Tables.ThemLine ==> eval == Tables.OUTCOME_LOSS
    ensures decision == Tables.Undecided ==> eval == LineSum(Ours(large, side), Theirs(large, side), 0, BIG_TWO, BIG_ONE)
  {
    var us, them := Stone(side), Stone(!side);
    LinesStep();
    var bigLines := seq(8, k requires 0 <= k < 8 => Take(large, LINES[k]));
    ghost var u, t := Ours(large, side), Theirs(large, side);
    eval := 0;
    for i := 0 to 8
      invariant FirstThree(u, t, i) == FirstThree(u, t, 0)
      invariant eval + LineSum(u, t, i, BIG_TWO, BIG_ONE) == LineSum(u, t, 0, BIG_TWO, BIG_ONE)
    {
      CountOfLine(large, us, i);
      CountOfLine(large, them, i);
      var lineUs := CountOf(bigLines[i], us);
      if lineUs == 3 {
        return Tables.UsLine, Tables.OUTCOME_WIN;
      } else if lineUs == 2 {
        eval := eval + BIG_TWO;
      } else if lineUs == 1 {
        eval := eval + BIG_ONE;
      }
      var lineThem := CountOf(bigLines[i], them);
      if lineThem == 3 {
        return Tables.ThemLine, Tables.OUTCOME_LOSS;
      } else if lineThem == 2 {
        eval := eval - BIG_TWO;
      } else if lineThem == 1 {
        eval := eval - BIG_ONE;
      }
    }
    return Tables.Undecided, eval;
  }

  /** The zone loop: from `eval0`, it adds the line scores of every zone it does not skip. */
  method ScoreZones(b: StringBoard, side: bool, eval0: int) returns (eval: int)
    requires WellFormed(b)
    ensures eval == eval0 + ZonesLines(b, side, 9)
  {
    eval := eval0;
    for i := 0 to 9
      invariant eval == eval0 + ZonesLines(b, side, i)
    {
      assert ZonesLines(b, side, i + 1) == ZonesLines(b, side, i) + ZoneLines(b, side, i);
      if EMPTY !in b.small[i] || b.large[i] != EMPTY {
        continue;
      }
      eval := ScoreZoneLines(b.small[i], side, eval);
    }
  }

  /** The lines of one zone, added to `eval0`: 25 for two cells, 10 for one, ours minus theirs. */
  method ScoreZoneLines(zone: string, side: bool, eval0: int) returns (eval: int)
    requires |zone| == 9
    ensures eval == eval0 + LineSum(Ours(zone, side), Theirs(zone, side), 0, SMALL_TWO, SMALL_ONE)
  {
    var us, them := Stone(side), Stone(!side);
    LinesStep();
    var lines := seq(8, k requires 0 <= k < 8 => Take(zone, LINES[k]));
    ghost var u, t := Ours(zone, side), Theirs(zone, side);
    eval := eval0;
    for j := 0 to 8
      invariant eval + LineSum(u, t, j, SMALL_TWO, SMALL_ONE) == eval0 + LineSum(u, t, 0, SMALL_TWO, SMALL_ONE)
    {
      CountOfLine(zone, us, j);
      CountOfLine(zone, them, j);
      var lineUs := CountOf(lines[j], us);
      var lineThem := CountOf(lines[j], them);
      if lineUs == 2 {
        eval := eval + SMALL_TWO;
      } else if lineUs == 1 {
        eval := eval + SMALL_ONE;
      }
      if lineThem == 2 {
        eval := eval - SMALL_TWO;
      } else if lineThem == 1 {
        eval := eval - SMALL_ONE;
      }
    }
  }

  /** `evaluate`. */
  method Evaluate(b: StringBoard, side: bool) returns (r: int)
    requires WellFormed(b)
    ensures r == Eval(b, side)
  {
    var decision, eval := ScoreLargeLines(b.large, side);
    if decision != Tables.Undecided {
      return eval;
    }
    if EMPTY !in b.large {
      return Tables.OUTCOME_DRAW;
    }
    eval := ScoreZones(b, side, eval);
    return eval;
  }

  // ---------------------------------------------------------------------
  // What the evaluation means.

  /** No cell holds both characters. */
  lemma HoldingDisjoint(g: string, side: bool)
    requires |g| == 9
    ensures Tables.Disjoint(Ours(g, side), Theirs(g, side))
  {
  }

  /**
   * For disjoint grids, looking at lines both sides touch changes nothing:
   * such a line is complete for neither, so the first complete line is the
   * first decisive line of the table engines.
   */
  lemma {:induction false} FirstThreeIsFirstDecisive(u: seq<bool>, t: seq<bool>, k: nat)
    requires |u| == 9 && |t| == 9 && k <= 8 && Tables.Disjoint(u, t)
    ensures FirstThree(u, t, k) == Tables.FirstDecisive(u, t, k)
    decreases 8 - k
  {
    if k < 8 {
      FirstThreeIsFirstDecisive(u, t, k + 1);
      var l := Rules.Line(k);
      assert !(u[l.0] && t[l.0]) && !(u[l.1] && t[l.1]) && !(u[l.2] && t[l.2]);
    }
  }

  /**
   * The sentinels report the large grid: OUTCOME_WIN when only the side to
   * move has a line, OUTCOME_LOSS when only the opponent has, and neither
   * without a line.
   */
  lemma EvalSentinels(b: StringBoard, side: bool)
    requires WellFormed(b)
    ensures LargeDecision(b, side) == Tables.Undecided <==> !Three(b.large, US) && !Three(b.large, THEM)
    ensures Three(b.large, Stone(side)) && !Three(b.large, Stone(!side)) ==> Eval(b, side) == Tables.OUTCOME_WIN
    ensures Three(b.large, Stone(!side)) && !Three(b.large, Stone(side)) ==> Eval(b, side) == Tables.OUTCOME_LOSS
  {
    var u, t := Ours(b.large, side), Theirs(b.large, side);
    HoldingDisjoint(b.large, side);
    FirstThreeIsFirstDecisive(u, t, 0);
    ThreeIsLine(b.large, Stone(side));
    ThreeIsLine(b.large, Stone(!side));
    Tables.FirstDecisiveMeaning(u, t);
  }

  /** Exchanging the sides exchanges the decision and negates the line sum. */
  lemma LargeSwap(b: StringBoard)
    requires WellFormed(b)
    ensures LargeDecision(b, false) == Tables.SwapDecision(LargeDecision(b, true))
    ensures LargeLines(b, false) == -LargeLines(b, true)
  {
    var u, t := Ours(b.large, true), Theirs(b.large, true);
    assert Ours(b.large, false) == t && Theirs(b.large, false) == u;
    HoldingDisjoint(b.large, true);
    FirstThreeIsFirstDecisive(u, t, 0);
    FirstThreeIsFirstDecisive(t, u, 0);
    Tables.FirstDecisiveSwap(u, t, 0);
    LineSumSwap(u, t, 0, BIG_TWO, BIG_ONE);
  }

  lemma {:induction false} LineSumSwap(u: seq<bool>, t: seq<bool>, k: nat, two: int, one: int)
    requires |u| == 9 && |t| == 9 && k <= 8
    ensures LineSum(t, u, k, two, one) == -LineSum(u, t, k, two, one)
    decreases 8 - k
  {
    if k < 8 {
      LineSumSwap(u, t, k + 1, two, one);
    }
  }

  lemma {:induction false} ZonesLinesSwap(b: StringBoard, n: nat)
    requires WellFormed(b) && n <= 9
    ensures ZonesLines(b, false, n) == -ZonesLines(b, true, n)
  {
    if n > 0 {
      ZonesLinesSwap(b, n - 1);
      LineSumSwap(Ours(b.small[n - 1], true), Theirs(b.small[n - 1], true), 0, SMALL_TWO, SMALL_ONE);
    }
  }

  /** The evaluation for side False is minus the evaluation for side True, sentinels included. */
  lemma EvalAntisymmetric(b: StringBoard)
    requires WellFormed(b)
    ensures Eval(b, false) == -Eval(b, true)
  {
    LargeSwap(b);
    ZonesLinesSwap(b, 9);
  }

  /** Lines k..7 sum to at most `(8 - k) * two` either way. */
  lemma {:induction false} LineSumBound(u: seq<bool>, t: seq<bool>, k: nat, two: int, one: int)
    requires |u| == 9 && |t| == 9 && k <= 8
    requires 0 <= one <= two
    ensures -(8 - k) * two <= LineSum(u, t, k, two, one) <= (8 - k) * two
    decreases 8 - k
  {
    if k < 8 {
      LineSumBound(u, t, k + 1, two, one);
      assert (8 - k) * two == two + (8 - (k + 1)) * two;
    }
  }

  lemma {:induction false} ZonesLinesBound(b: StringBoard, side: bool, n: nat)
    requires WellFormed(b) && n <= 9
    ensures -200 * n <= ZonesLines(b, side, n) <= 200 * n
  {
    if n > 0 {
      ZonesLinesBound(b, side, n - 1);
      if !Skipped(b, n - 1) {
        LineSumBound(Ours(b.small[n - 1], side), Theirs(b.small[n - 1], side), 0, SMALL_TWO, SMALL_ONE);
      }
    }
  }

  /**
   * Without a line in the large grid the evaluation is a heuristic score of
   * at most 8*200 + 9*8*25 = 3400 in magnitude, far from the sentinels.
   */
  lemma EvalBound(b: StringBoard, side: bool)
    requires WellFormed(b) && !Three(b.large, US) && !Three(b.large, THEM)
    ensures -3400 <= Eval(b, side) <= 3400
  {
    EvalSentinels(b, side);
    PartsBound(b, side);
  }

  /** The large lines and the zone lines, each within its bound. */
  lemma PartsBound(b: StringBoard, side: bool)
    requires WellFormed(b)
    ensures -1600 <= LargeLines(b, side) <= 1600
    ensures -1800 <= ZonesLines(b, side, 9) <= 1800
  {
    LineSumBound(Ours(b.large, side), Theirs(b.large, side), 0, BIG_TWO, BIG_ONE);
    ZonesLinesBound(b, side, 9);
  }

  // ---------------------------------------------------------------------
  // alpha_beta.

  /**
   * What `alpha_beta` consults about a board: the moves `move_gen` lists,
   * the board `play_move` returns, `evaluate`, and who has a large line
   * (1 the side to move, -1 the opponent, 0 no one).
   */
  datatype Game = Game(
    moves: StringBoard -> seq<int>,
    play: (StringBoard, int, bool) -> StringBoard,
    eval: (StringBoard, bool) -> int,
    winner: (StringBoard, bool) -> int)

  /** 1 when the side to move has a large line, -1 when only the opponent has, 0 otherwise. */
  function Winner(b: StringBoard, side: bool): int
    requires WellFormed(b)
  {
    if Three(b.large, Stone(side)) then 1 else if Three(b.large, Stone(!side)) then -1 else 0
  }

  /** The game of this engine, with `play_move` as written; other boards are never reached. */
  function StringGame(): Game {
    Game(
      b => if WellFormed(b) then MoveGen(b) else [],
      (b, m, side) => if WellFormed(b) && 0 <= m < 81 then PlayAsWritten(b, m, side) else b,
      (b, side) => if WellFormed(b) then Eval(b, side) else 0,
      (b, side) => if WellFormed(b) then Winner(b, side) else 0)
  }

  /** The same game with the corrected `play_move`, the one that follows the rules. */
  function CorrectedGame(): Game {
    Game(
      b => if WellFormed(b) then MoveGen(b) else [],
      (b, m, side) => if WellFormed(b) && 0 <= m < 81 then PlayMove(b, m, side) else b,
      (b, side) => if WellFormed(b) then Eval(b, side) else 0,
      (b, side) => if WellFormed(b) then Winner(b, side) else 0)
  }

  /**
   * A game answers as this engine does on every well-formed board: its
   * moves are `move_gen`'s, its play is `play_move` as written, its scores
   * are `evaluate`'s and its large-line test is the one of `alpha_beta`.
   */
  ghost predicate Implements(g: Game) {
    && (forall b {:trigger MoveGen(b)} :: WellFormed(b) ==> g.moves(b) == MoveGen(b))
    && (forall b, m, side {:trigger PlayAsWritten(b, m, side)} ::
          WellFormed(b) && 0 <= m < 81 ==> g.play(b, m, side) == PlayAsWritten(b, m, side))
    && (forall b, side {:trigger Eval(b, side)} :: WellFormed(b) ==> g.eval(b, side) == Eval(b, side))
    && (forall b, side {:trigger Winner(b, side)} :: WellFormed(b) ==> g.winner(b, side) == Winner(b, side))
  }

  /** A game whose moves are `move_gen`'s and whose play is the corrected `play_move`. */
  ghost predicate PlaysCorrected(g: Game) {
    && (forall b {:trigger MoveGen(b)} :: WellFormed(b) ==> g.moves(b) == MoveGen(b))
    && (forall b, m, side {:trigger PlayMove(b, m, side)} ::
          WellFormed(b) && 0 <= m < 81 ==> g.play(b, m, side) == PlayMove(b, m, side))
  }

  lemma StringGameImplements()
    ensures Implements(StringGame())
  {
  }

  lemma CorrectedGamePlays()
    ensures PlaysCorrected(CorrectedGame())
  {
  }

  /**
   * A node without moves: a win for the side to move scores less the
   * deeper it is found, a loss more; no line is a draw.
   */
  function NoMovesScore(g: Game, b: StringBoard, side: bool, depth: int, searchDepth: int): int {
    var w := g.winner(b, side);
    if w == 1 then Tables.OUTCOME_WIN + depth - searchDepth
    else if w == -1 then Tables.OUTCOME_LOSS - depth + searchDepth
    else Tables.OUTCOME_DRAW
  }

  /**
   * `alpha_beta(board, side, depth, alpha, beta, prev_line)`, with
   * `SEARCHING_DEPTH` as the parameter `searchDepth`: the score, and the
   * line from the root, which leaves and loops without a better move
   * return as the `prev_line` they were given.
   */
  function AlphaBetaSpec(g: Game, b: StringBoard, side: bool, depth: nat, alpha: int, beta: int, searchDepth: int,
                         prevLine: seq<int>): (int, seq<int>)
    decreases depth, 1
  {
    var moves := g.moves(b);
    if moves == [] then (NoMovesScore(g, b, side, depth, searchDepth), prevLine)
    else if depth == 0 then (g.eval(b, side), prevLine)
    else Sweep(g, b, side, depth, moves, alpha, beta, searchDepth, prevLine, prevLine)
  }

  /**
   * The loop over the remaining moves, from the current alpha and line:
   * each child is searched with (-beta, -alpha) and `prev_line + [move]`;
   * a score of at least beta returns beta with the child's line; a score
   * above alpha, or any score while the line is still empty, replaces
   * alpha and the line.
   */
  function Sweep(g: Game, b: StringBoard, side: bool, depth: nat, moves: seq<int>, alpha: int, beta: int,
                 searchDepth: int, prevLine: seq<int>, pv: seq<int>): (int, seq<int>)
    requires depth >= 1
    decreases depth, 0, |moves|
  {
    if moves == [] then (alpha, pv)
    else
      var child := AlphaBetaSpec(g, g.play(b, moves[0], side), !side, depth - 1, -beta, -alpha, searchDepth,
                                 prevLine + [moves[0]]);
      var eval := -child.0;
      if eval >= beta then (beta, child.1)
      else if eval > alpha || |pv| == 0 then Sweep(g, b, side, depth, moves[1..], eval, beta, searchDepth, prevLine, child.1)
      else Sweep(g, b, side, depth, moves[1..], alpha, beta, searchDepth, prevLine, pv)
  }

  /** One turn of the loop: the child's score and line decide what the rest of the loop starts from. */
  lemma SweepStep(g: Game, b: StringBoard, side: bool, depth: nat, moves: seq<int>, alpha: int, beta: int,
                  searchDepth: int, prevLine: seq<int>, pv: seq<int>, child: StringBoard, childScore: int,
                  childLine: seq<int>)
    requires depth >= 1 && moves != [] && child == g.play(b, moves[0], side)
    requires (childScore, childLine)
          == AlphaBetaSpec(g, child, !side, depth - 1, -beta, -alpha, searchDepth, prevLine + [moves[0]])
    ensures Sweep(g, b, side, depth, moves, alpha, beta, searchDepth, prevLine, pv)
         == if -childScore >= beta then (beta, childLine)
            else if -childScore > alpha || |pv| == 0
            then Sweep(g, b, side, depth, moves[1..], -childScore, beta, searchDepth, prevLine, childLine)
            else Sweep(g, b, side, depth, moves[1..], alpha, beta, searchDepth, prevLine, pv)
  {
  }

  /** `alpha_beta`. */
  method AlphaBeta(ghost g: Game, b: StringBoard, side: bool, depth: nat, alpha: int, beta: int, searchDepth: int,
                   prevLine: seq<int>) returns (score: int, line: seq<int>)
    requires Implements(g) && WellFormed(b)
    ensures (score, line) == AlphaBetaSpec(g, b, side, depth, alpha, beta, searchDepth, prevLine)
    decreases depth, 2
  {
    var moveList := MoveGen(b);
    if |moveList| == 0 {
      var us, them := Stone(side), Stone(!side);
      score := if Three(b.large, us) then Tables.OUTCOME_WIN + depth - searchDepth
               else if Three(b.large, them) then Tables.OUTCOME_LOSS - depth + searchDepth
               else Tables.OUTCOME_DRAW;
      assert g.winner(b, side) == Winner(b, side);
      return score, prevLine;
    }
    if depth == 0 {
      var e := Evaluate(b, side);
      return e, prevLine;
    }
    score, line := SearchMoves(g, b, side, depth, moveList, alpha, beta, searchDepth, prevLine);
  }

  /** The loop of `alpha_beta` over the moves of a node, from the window (alpha, beta) and `pv = prev_line`. */
  method SearchMoves(ghost g: Game, b: StringBoard, side: bool, depth: nat, moveList: seq<int>, alpha: int,
                     beta: int, searchDepth: int, prevLine: seq<int>) returns (score: int, line: seq<int>)
    requires Implements(g) && WellFormed(b) && depth >= 1 && Rules.OnBoard(moveList)
    ensures (score, line) == Sweep(g, b, side, depth, moveList, alpha, beta, searchDepth, prevLine, prevLine)
    decreases depth, 1
  {
    var pv := prevLine;
    var a := alpha;
    for i := 0 to |moveList|
      invariant Sweep(g, b, side, depth, moveList[i..], a, beta, searchDepth, prevLine, pv)
             == Sweep(g, b, side, depth, moveList, alpha, beta, searchDepth, prevLine, prevLine)
    {
      var move := moveList[i];
      var eval, childLine := SearchChild(g, b, side, depth, move, a, beta, searchDepth, prevLine);
      ghost var rest := moveList[i..];
      assert rest[0] == move && rest[1..] == moveList[i + 1..];
      SweepStep(g, b, side, depth, rest, a, beta, searchDepth, prevLine, pv, g.play(b, move, side), eval, childLine);
      eval := -eval;
      if eval >= beta {
        return beta, childLine;
      } else if eval > a || |pv| == 0 {
        a := eval;
        pv := childLine;
      }
    }
    assert moveList[|moveList|..] == [];
    return a, pv;
  }

  /** One child of the loop: `alpha_beta` after the move, the window negated and swapped, the move added to the line. */
  method SearchChild(ghost g: Game, b: StringBoard, side: bool, depth: nat, move: int, alpha: int, beta: int,
                     searchDepth: int, prevLine: seq<int>) returns (eval: int, childLine: seq<int>)
    requires Implements(g) && WellFormed(b) && depth >= 1 && 0 <= move < 81
    ensures (eval, childLine)
         == AlphaBetaSpec(g, g.play(b, move, side), !side, depth - 1, -beta, -alpha, searchDepth, prevLine + [move])
    decreases depth, 0
  {
    var child := PlayAsWritten(b, move, side);
    eval, childLine := AlphaBeta(g, child, !side, depth - 1, -beta, -alpha, searchDepth, prevLine + [move]);
  }

  // ---------------------------------------------------------------------
  // What the search computes.

  /** The negamax value of a node searched `depth` plies deep, with the same leaves as the search. */
  function Value(g: Game, b: StringBoard, side: bool, depth: nat, searchDepth: int): int
    decreases depth, 1
  {
    var moves := g.moves(b);
    if moves == [] then NoMovesScore(g, b, side, depth, searchDepth)
    else if depth == 0 then g.eval(b, side)
    else Best(g, b, side, depth, moves, searchDepth)
  }

  /** The best of the negated child values over a nonempty list of moves. */
  function Best(g: Game, b: StringBoard, side: bool, depth: nat, moves: seq<int>, searchDepth: int): int
    requires depth >= 1 && moves != []
    decreases depth, 0, |moves|
  {
    var e := -Value(g, g.play(b, moves[0], side), !side, depth - 1, searchDepth);
    if |moves| == 1 then e else Search.Max(e, Best(g, b, side, depth, moves[1..], searchDepth))
  }

  /**
   * Fail-hard alpha-beta is exact inside the window: for alpha < beta the
   * score and the negamax value agree once limited to [alpha, beta],
   * whatever line the node is given.
   */
  lemma {:induction false} AlphaBetaValue(g: Game, b: StringBoard, side: bool, depth: nat, alpha: int, beta: int,
                                          searchDepth: int, prevLine: seq<int>)
    requires alpha < beta
    ensures Search.Clamp(AlphaBetaSpec(g, b, side, depth, alpha, beta, searchDepth, prevLine).0, alpha, beta)
         == Search.Clamp(Value(g, b, side, depth, searchDepth), alpha, beta)
    decreases depth, 2
  {
    var moves := g.moves(b);
    if moves != [] && depth > 0 {
      if prevLine != [] {
        SweepValue(g, b, side, depth, moves, alpha, beta, searchDepth, prevLine, prevLine);
      } else {
        SweepFirstValue(g, b, side, depth, moves, alpha, beta, searchDepth, prevLine);
      }
    }
  }

  /**
   * Once the line is nonempty the loop is the textbook fail-hard one: its
   * score is alpha without moves, and otherwise the best value limited to
   * [alpha, beta].
   */
  lemma {:induction false} SweepValue(g: Game, b: StringBoard, side: bool, depth: nat, moves: seq<int>, alpha: int,
                                      beta: int, searchDepth: int, prevLine: seq<int>, pv: seq<int>)
    requires depth >= 1 && alpha < beta && pv != []
    ensures Sweep(g, b, side, depth, moves, alpha, beta, searchDepth, prevLine, pv).0
         == if moves == [] then alpha else Search.Clamp(Best(g, b, side, depth, moves, searchDepth), alpha, beta)
    decreases depth, 0, |moves|
  {
    if moves != [] {
      var c := g.play(b, moves[0], side);
      var child := AlphaBetaSpec(g, c, !side, depth - 1, -beta, -alpha, searchDepth, prevLine + [moves[0]]);
      ChildExact(g, b, side, depth, moves, alpha, beta, searchDepth, prevLine);
      var eval := -child.0;
      if eval >= beta {
      } else if eval > alpha {
        ChildLine(g, b, side, depth, moves, alpha, beta, searchDepth, prevLine);
        SweepValue(g, b, side, depth, moves[1..], eval, beta, searchDepth, prevLine, child.1);
      } else {
        SweepValue(g, b, side, depth, moves[1..], alpha, beta, searchDepth, prevLine, pv);
      }
    }
  }

  /** The first child's negated score, limited to the window, is its negated value limited alike. */
  lemma ChildExact(g: Game, b: StringBoard, side: bool, depth: nat, moves: seq<int>, alpha: int, beta: int,
                   searchDepth: int, prevLine: seq<int>)
    requires depth >= 1 && alpha < beta && moves != []
    ensures var c := g.play(b, moves[0], side);
      Search.Clamp(-AlphaBetaSpec(g, c, !side, depth - 1, -beta, -alpha, searchDepth, prevLine + [moves[0]]).0, alpha, beta)
      == Search.Clamp(-Value(g, c, !side, depth - 1, searchDepth), alpha, beta)
    decreases depth, 0, |moves|, 0
  {
    var c := g.play(b, moves[0], side);
    var child := AlphaBetaSpec(g, c, !side, depth - 1, -beta, -alpha, searchDepth, prevLine + [moves[0]]);
    AlphaBetaValue(g, c, !side, depth - 1, -beta, -alpha, searchDepth, prevLine + [moves[0]]);
    Search.ClampNegated(child.0, Value(g, c, !side, depth - 1, searchDepth), alpha, beta);
  }

  /**
   * With an empty line (at the root) the first child is always adopted,
   * even at or below alpha, so the score may fall under alpha; limited to
   * [alpha, beta] it is still the best value limited alike.
   */
  lemma {:induction false} SweepFirstValue(g: Game, b: StringBoard, side: bool, depth: nat, moves: seq<int>,
                                           alpha: int, beta: int, searchDepth: int, prevLine: seq<int>)
    requires depth >= 1 && alpha < beta && moves != []
    ensures Search.Clamp(Sweep(g, b, side, depth, moves, alpha, beta, searchDepth, prevLine, []).0, alpha, beta)
         == Search.Clamp(Best(g, b, side, depth, moves, searchDepth), alpha, beta)
    decreases depth, 0, |moves|, 1
  {
    var c := g.play(b, moves[0], side);
    var child := AlphaBetaSpec(g, c, !side, depth - 1, -beta, -alpha, searchDepth, prevLine + [moves[0]]);
    ChildExact(g, b, side, depth, moves, alpha, beta, searchDepth, prevLine);
    ChildLine(g, b, side, depth, moves, alpha, beta, searchDepth, prevLine);
    var eval := -child.0;
    if eval < beta && |moves| > 1 {
      SweepValue(g, b, side, depth, moves[1..], eval, beta, searchDepth, prevLine, child.1);
    }
  }

  /** Every move of a line is one the game generates when it is played, the sides alternating. */
  ghost predicate PlayableLine(g: Game, b: StringBoard, side: bool, line: seq<int>)
    decreases |line|
  {
    line == [] || (line[0] in g.moves(b) && PlayableLine(g, g.play(b, line[0], side), !side, line[1..]))
  }

  /**
   * The line `alpha_beta` returns extends the line it was given by a
   * playable line of at most `depth` moves from the node; from an empty
   * line, a node with moves adds at least one.
   */
  lemma {:induction false} AlphaBetaLine(g: Game, b: StringBoard, side: bool, depth: nat, alpha: int, beta: int,
                                         searchDepth: int, prevLine: seq<int>)
    ensures var line := AlphaBetaSpec(g, b, side, depth, alpha, beta, searchDepth, prevLine).1;
      && prevLine <= line && |line| <= |prevLine| + depth
      && PlayableLine(g, b, side, line[|prevLine|..])
      && (prevLine == [] && g.moves(b) != [] && depth > 0 ==> line != [])
    decreases depth, 2
  {
    var moves := g.moves(b);
    if moves != [] && depth > 0 {
      assert prevLine[|prevLine|..] == [];
      SweepLine(g, b, side, depth, moves, alpha, beta, searchDepth, prevLine, prevLine);
    } else {
      assert prevLine[|prevLine|..] == [];
    }
  }

  /** The first child's line extends the given line by the move and a playable line after it. */
  lemma ChildLine(g: Game, b: StringBoard, side: bool, depth: nat, moves: seq<int>, alpha: int, beta: int,
                  searchDepth: int, prevLine: seq<int>)
    requires depth >= 1 && moves != []
    ensures var line := AlphaBetaSpec(g, g.play(b, moves[0], side), !side, depth - 1, -beta, -alpha, searchDepth,
                                      prevLine + [moves[0]]).1;
      && prevLine <= line && |prevLine| < |line| <= |prevLine| + depth
      && line[|prevLine|] == moves[0]
      && (moves[0] in g.moves(b) ==> PlayableLine(g, b, side, line[|prevLine|..]))
    decreases depth, 0, |moves|, 0
  {
    var c := g.play(b, moves[0], side);
    var ext := prevLine + [moves[0]];
    AlphaBetaLine(g, c, !side, depth - 1, -beta, -alpha, searchDepth, ext);
    var line := AlphaBetaSpec(g, c, !side, depth - 1, -beta, -alpha, searchDepth, ext).1;
    assert line[|prevLine|] == ext[|prevLine|] == moves[0];
    assert line[|prevLine|..][1..] == line[|ext|..];
  }

  /** The loop keeps its line an extension of the given one by a playable line of at most `depth` moves. */
  lemma {:induction false} SweepLine(g: Game, b: StringBoard, side: bool, depth: nat, moves: seq<int>, alpha: int,
                                     beta: int, searchDepth: int, prevLine: seq<int>, pv: seq<int>)
    requires depth >= 1
    requires forall i :: 0 <= i < |moves| ==> moves[i] in g.moves(b)
    requires prevLine <= pv && |pv| <= |prevLine| + depth && PlayableLine(g, b, side, pv[|prevLine|..])
    ensures var line := Sweep(g, b, side, depth, moves, alpha, beta, searchDepth, prevLine, pv).1;
      && prevLine <= line && |line| <= |prevLine| + depth
      && PlayableLine(g, b, side, line[|prevLine|..])
      && (moves != [] || pv != [] ==> line != [])
    decreases depth, 0, |moves|, 1
  {
    if moves != [] {
      ChildLine(g, b, side, depth, moves, alpha, beta, searchDepth, prevLine);
      var child := AlphaBetaSpec(g, g.play(b, moves[0], side), !side, depth - 1, -beta, -alpha, searchDepth,
                                 prevLine + [moves[0]]);
      var eval := -child.0;
      if eval >= beta {
      } else if eval > alpha || |pv| == 0 {
        SweepLine(g, b, side, depth, moves[1..], eval, beta, searchDepth, prevLine, child.1);
      } else {
        SweepLine(g, b, side, depth, moves[1..], alpha, beta, searchDepth, prevLine, pv);
      }
    }
  }

  /** A move `move_gen` lists is legal, and playing it keeps the position valid. */
  lemma MoveStep(b: StringBoard, side: bool, m: int)
    requires WellFormed(b) && Rules.Valid(Abs(b)) && m in MoveGen(b)
    ensures 0 <= m < 81 && Rules.Legal(Abs(b), m)
    ensures Abs(PlayMove(b, m, side)) == Rules.Play(Abs(b), m, SideOf(side))
    ensures Rules.Valid(Abs(PlayMove(b, m, side)))
  {
    MoveGenLegal(b);
    Rules.PlayPreservesValid(Abs(b), m, SideOf(side));
  }

  /** A playable line of a game that plays the corrected move is a legal line of the rules. */
  lemma {:induction false} PlayableIsLegal(g: Game, b: StringBoard, side: bool, line: seq<int>)
    requires PlaysCorrected(g) && WellFormed(b) && Rules.Valid(Abs(b)) && PlayableLine(g, b, side, line)
    ensures Rules.OnBoard(line) && Rules.LegalSequence(Abs(b), line, SideOf(side))
    decreases |line|
  {
    if line != [] {
      var m := line[0];
      GameStep(g, b, side, m);
      PlayableIsLegal(g, g.play(b, m, side), !side, line[1..]);
    }
  }

  /** A move a game that plays the corrected move generates is a legal move, played as the rules play it. */
  lemma GameStep(g: Game, b: StringBoard, side: bool, m: int)
    requires PlaysCorrected(g) && WellFormed(b) && Rules.Valid(Abs(b)) && m in g.moves(b)
    ensures 0 <= m < 81 && Rules.Legal(Abs(b), m)
    ensures WellFormed(g.play(b, m, side)) && Rules.Valid(Abs(g.play(b, m, side)))
    ensures Abs(g.play(b, m, side)) == Rules.Play(Abs(b), m, SideOf(side))
    ensures SideOf(!side) == Rules.Opponent(SideOf(side))
  {
    assert g.moves(b) == MoveGen(b);
    MoveStep(b, side, m);
    assert g.play(b, m, side) == PlayMove(b, m, side);
  }

  /** The heuristic score of every node with moves lies within 3400 of zero. */
  ghost predicate Bounded(g: Game) {
    forall b, side :: g.moves(b) != [] ==> -3400 <= g.eval(b, side) <= 3400
  }

  lemma StringGameBounded()
    ensures Bounded(StringGame())
  {
    forall b, side | StringGame().moves(b) != [] ensures -3400 <= StringGame().eval(b, side) <= 3400 {
      if WellFormed(b) {
        assert MoveGen(b) != [];
        EvalBound(b, side);
      }
    }
  }

  lemma CorrectedGameBounded()
    ensures Bounded(CorrectedGame())
  {
    forall b, side | CorrectedGame().moves(b) != [] ensures -3400 <= CorrectedGame().eval(b, side) <= 3400 {
      if WellFormed(b) {
        assert MoveGen(b) != [];
        EvalBound(b, side);
      }
    }
  }

  /** Below the root (depth < searchDepth) every value lies strictly between the sentinels. */
  lemma {:induction false} ValueInside(g: Game, b: StringBoard, side: bool, depth: nat, searchDepth: int)
    requires Bounded(g) && depth < searchDepth < Tables.OUTCOME_WIN - 3400
    ensures Tables.OUTCOME_LOSS < Value(g, b, side, depth, searchDepth) < Tables.OUTCOME_WIN
    decreases depth, 1
  {
    if g.moves(b) != [] && depth > 0 {
      BestInside(g, b, side, depth, g.moves(b), searchDepth);
    }
  }

  lemma {:induction false} BestInside(g: Game, b: StringBoard, side: bool, depth: nat, moves: seq<int>,
                                      searchDepth: int)
    requires Bounded(g) && 1 <= depth <= searchDepth < Tables.OUTCOME_WIN - 3400 && moves != []
    ensures Tables.OUTCOME_LOSS < Best(g, b, side, depth, moves, searchDepth) < Tables.OUTCOME_WIN
    decreases depth, 0, |moves|
  {
    ValueInside(g, g.play(b, moves[0], side), !side, depth - 1, searchDepth);
    if |moves| > 1 {
      BestInside(g, b, side, depth, moves[1..], searchDepth);
    }
  }

  // ---------------------------------------------------------------------
  // The move the search returns.

  /** What move m is worth to the side at the node: the negated value of the child it leads to. */
  function ChildValue(g: Game, b: StringBoard, side: bool, depth: nat, searchDepth: int, m: int): int
    requires depth >= 1
  {
    -Value(g, g.play(b, m, side), !side, depth - 1, searchDepth)
  }

  /** moves[i] is worth `score` and every move before it is worth less. */
  predicate FirstWorth(g: Game, b: StringBoard, side: bool, depth: nat, searchDepth: int, moves: seq<int>, i: int,
                       score: int)
    requires depth >= 1
  {
    && 0 <= i < |moves|
    && ChildValue(g, b, side, depth, searchDepth, moves[i]) == score
    && forall j :: 0 <= j < i ==> ChildValue(g, b, side, depth, searchDepth, moves[j]) < score
  }

  /** moves[i] is the first of the moves worth `score`, and no move is worth more. */
  predicate FirstBest(g: Game, b: StringBoard, side: bool, depth: nat, searchDepth: int, moves: seq<int>, i: int,
                      score: int)
    requires depth >= 1
  {
    && FirstWorth(g, b, side, depth, searchDepth, moves, i, score)
    && forall j :: 0 <= j < |moves| ==> ChildValue(g, b, side, depth, searchDepth, moves[j]) <= score
  }

  /** The best child value is at least what every move is worth. */
  lemma {:induction false} BestBounds(g: Game, b: StringBoard, side: bool, depth: nat, moves: seq<int>,
                                      searchDepth: int)
    requires depth >= 1 && moves != []
    ensures forall j :: 0 <= j < |moves| ==>
      ChildValue(g, b, side, depth, searchDepth, moves[j]) <= Best(g, b, side, depth, moves, searchDepth)
    decreases |moves|
  {
    if |moves| > 1 {
      BestBounds(g, b, side, depth, moves[1..], searchDepth);
      forall j | 1 <= j < |moves|
        ensures ChildValue(g, b, side, depth, searchDepth, moves[j]) <= Best(g, b, side, depth, moves, searchDepth)
      {
        assert moves[j] == moves[1..][j - 1];
      }
    }
  }

  /** A move worth less than `score`, put in front of a list whose first move worth it is i, makes that i + 1. */
  lemma FirstWorthShift(g: Game, b: StringBoard, side: bool, depth: nat, searchDepth: int, moves: seq<int>, i: int,
                        score: int)
    requires depth >= 1 && moves != []
    requires FirstWorth(g, b, side, depth, searchDepth, moves[1..], i, score)
    requires ChildValue(g, b, side, depth, searchDepth, moves[0]) < score
    ensures FirstWorth(g, b, side, depth, searchDepth, moves, i + 1, score)
  {
    forall j | 0 <= j < i + 1 ensures ChildValue(g, b, side, depth, searchDepth, moves[j]) < score {
      if j > 0 {
        assert moves[j] == moves[1..][j - 1];
      }
    }
  }

  /**
   * Once the line is nonempty the loop never scores below alpha, and
   * scoring alpha it returns the line it started from.
   */
  lemma {:induction false} SweepUnraised(g: Game, b: StringBoard, side: bool, depth: nat, moves: seq<int>,
                                         alpha: int, beta: int, searchDepth: int, prevLine: seq<int>, pv: seq<int>)
    requires depth >= 1 && alpha < beta && pv != []
    ensures var r := Sweep(g, b, side, depth, moves, alpha, beta, searchDepth, prevLine, pv);
      alpha <= r.0 && (r.0 == alpha ==> r.1 == pv)
    decreases |moves|
  {
    if moves != [] {
      ChildLine(g, b, side, depth, moves, alpha, beta, searchDepth, prevLine);
      var child := AlphaBetaSpec(g, g.play(b, moves[0], side), !side, depth - 1, -beta, -alpha, searchDepth,
                                 prevLine + [moves[0]]);
      var eval := -child.0;
      if eval >= beta {
      } else if eval > alpha {
        SweepUnraised(g, b, side, depth, moves[1..], eval, beta, searchDepth, prevLine, child.1);
      } else {
        SweepUnraised(g, b, side, depth, moves[1..], alpha, beta, searchDepth, prevLine, pv);
      }
    }
  }

  /**
   * A loop that ends strictly inside its window has adopted a child line
   * worth its score: the move at the node's slot `|prevLine|` of that line
   * is the first of the moves worth that score, as `eval > alpha` keeps
   * the earliest of equal moves.
   */
  lemma {:induction false} SweepBest(g: Game, b: StringBoard, side: bool, depth: nat, moves: seq<int>, alpha: int,
                                     beta: int, searchDepth: int, prevLine: seq<int>, pv: seq<int>)
    requires depth >= 1 && alpha < beta
    ensures var r := Sweep(g, b, side, depth, moves, alpha, beta, searchDepth, prevLine, pv);
      alpha < r.0 < beta ==>
        && |r.1| > |prevLine|
        && exists i :: FirstWorth(g, b, side, depth, searchDepth, moves, i, r.0) && moves[i] == r.1[|prevLine|]
    decreases |moves|
  {
    var r := Sweep(g, b, side, depth, moves, alpha, beta, searchDepth, prevLine, pv);
    if moves != [] && alpha < r.0 < beta {
      var k := |prevLine|;
      ChildExact(g, b, side, depth, moves, alpha, beta, searchDepth, prevLine);
      ChildLine(g, b, side, depth, moves, alpha, beta, searchDepth, prevLine);
      var child := AlphaBetaSpec(g, g.play(b, moves[0], side), !side, depth - 1, -beta, -alpha, searchDepth,
                                 prevLine + [moves[0]]);
      var eval := -child.0;
      var rest := moves[1..];
      var v0 := ChildValue(g, b, side, depth, searchDepth, moves[0]);
      assert Search.Clamp(eval, alpha, beta) == Search.Clamp(v0, alpha, beta);
      if eval > alpha || |pv| == 0 {
        assert r == Sweep(g, b, side, depth, rest, eval, beta, searchDepth, prevLine, child.1);
        SweepUnraised(g, b, side, depth, rest, eval, beta, searchDepth, prevLine, child.1);
        if r.0 == eval {
          assert v0 == eval;
          assert FirstWorth(g, b, side, depth, searchDepth, moves, 0, r.0) && moves[0] == r.1[k];
        } else {
          if eval > alpha {
            assert v0 == eval;
          } else {
            assert v0 <= alpha;
          }
          SweepBest(g, b, side, depth, rest, eval, beta, searchDepth, prevLine, child.1);
          var i :| FirstWorth(g, b, side, depth, searchDepth, rest, i, r.0) && rest[i] == r.1[k];
          FirstWorthShift(g, b, side, depth, searchDepth, moves, i, r.0);
          assert moves[i + 1] == r.1[k];
        }
      } else {
        assert r == Sweep(g, b, side, depth, rest, alpha, beta, searchDepth, prevLine, pv);
        assert v0 <= alpha;
        SweepBest(g, b, side, depth, rest, alpha, beta, searchDepth, prevLine, pv);
        var i :| FirstWorth(g, b, side, depth, searchDepth, rest, i, r.0) && rest[i] == r.1[k];
        FirstWorthShift(g, b, side, depth, searchDepth, moves, i, r.0);
        assert moves[i + 1] == r.1[k];
      }
    }
  }

  /**
   * A node with moves, searched at least one ply deep, that scores strictly
   * inside its window scores its negamax value, and the move after
   * `prevLine` in its line is the first generated move worth that value; no
   * move is worth more.
   */
  lemma AlphaBetaBestMove(g: Game, b: StringBoard, side: bool, depth: nat, alpha: int, beta: int, searchDepth: int,
                          prevLine: seq<int>)
    requires alpha < beta && g.moves(b) != [] && depth >= 1
    ensures var r := AlphaBetaSpec(g, b, side, depth, alpha, beta, searchDepth, prevLine);
      alpha < r.0 < beta ==>
        && r.0 == Value(g, b, side, depth, searchDepth)
        && |r.1| > |prevLine|
        && exists i :: FirstBest(g, b, side, depth, searchDepth, g.moves(b), i, r.0)
                       && g.moves(b)[i] == r.1[|prevLine|]
  {
    AlphaBetaValue(g, b, side, depth, alpha, beta, searchDepth, prevLine);
    SweepBest(g, b, side, depth, g.moves(b), alpha, beta, searchDepth, prevLine, prevLine);
    BestBounds(g, b, side, depth, g.moves(b), searchDepth);
  }

  /**
   * The call `main` makes, with the window (-INFINITY, INFINITY), an empty
   * line and `depth == SEARCHING_DEPTH` at least 1, on a node with moves,
   * scores the negamax value exactly and returns a line that starts with one
   * of them, so `line[0]` exists: the first generated move worth that value.
   */
  lemma RootSearch(g: Game, b: StringBoard, side: bool, searchDepth: nat)
    requires Bounded(g) && g.moves(b) != [] && 1 <= searchDepth < Tables.OUTCOME_WIN - 3400
    ensures var r := AlphaBetaSpec(g, b, side, searchDepth, Tables.OUTCOME_LOSS, Tables.OUTCOME_WIN, searchDepth, []);
      && r.1 != [] && r.1[0] in g.moves(b)
      && r.0 == Value(g, b, side, searchDepth, searchDepth)
      && exists i :: FirstBest(g, b, side, searchDepth, searchDepth, g.moves(b), i, r.0) && g.moves(b)[i] == r.1[0]
  {
    var moves := g.moves(b);
    AlphaBetaLine(g, b, side, searchDepth, Tables.OUTCOME_LOSS, Tables.OUTCOME_WIN, searchDepth, []);
    RootValue(g, b, side, searchDepth);
    BestInside(g, b, side, searchDepth, moves, searchDepth);
    AlphaBetaBestMove(g, b, side, searchDepth, Tables.OUTCOME_LOSS, Tables.OUTCOME_WIN, searchDepth, []);
  }

  /**
   * The searches of `main`, with `play_move` as written: on a board with
   * moves, searched at least one ply deep, the score is the negamax value
   * of the engine's game, and `line[0]`, the move played next, is the first
   * listed move worth it.
   */
  lemma MainSearch(b: StringBoard, side: bool, searchDepth: nat)
    requires WellFormed(b) && MoveGen(b) != [] && 1 <= searchDepth < Tables.OUTCOME_WIN - 3400
    ensures var r := AlphaBetaSpec(StringGame(), b, side, searchDepth, Tables.OUTCOME_LOSS, Tables.OUTCOME_WIN,
                                   searchDepth, []);
      && r.1 != [] && r.1[0] in MoveGen(b)
      && r.0 == Value(StringGame(), b, side, searchDepth, searchDepth)
      && exists i :: FirstBest(StringGame(), b, side, searchDepth, searchDepth, MoveGen(b), i, r.0)
                     && MoveGen(b)[i] == r.1[0]
  {
    StringGameBounded();
    RootSearch(StringGame(), b, side, searchDepth);
  }

  /**
   * Where the two games part: after X plays cell 1 of zone 0 of the
   * finding's position, the search as written meets a leaf without moves
   * and scores it a draw, whatever depth is left; with the corrected move
   * the same child has moves to search.
   */
  lemma SearchesPart(depth: nat, alpha: int, beta: int, searchDepth: int, prevLine: seq<int>)
    ensures var w := StringGame().play(FullNeighbour(), 1, true);
      AlphaBetaSpec(StringGame(), w, false, depth, alpha, beta, searchDepth, prevLine) == (Tables.OUTCOME_DRAW, prevLine)
    ensures CorrectedGame().moves(CorrectedGame().play(FullNeighbour(), 1, true)) != []
  {
    var b := FullNeighbour();
    var w := PlayAsWritten(b, 1, true);
    AsWrittenChild();
    assert StringGame().play(b, 1, true) == w;
    DrawnLeaf(StringGame(), w, false, depth, alpha, beta, searchDepth, prevLine);
    CorrectedGoesOn();
    assert CorrectedGame().play(b, 1, true) == PlayMove(b, 1, true);
  }

  /** A node without moves and without a large line returns the draw score and the line it was given. */
  lemma DrawnLeaf(g: Game, b: StringBoard, side: bool, depth: nat, alpha: int, beta: int, searchDepth: int,
                  prevLine: seq<int>)
    requires g.moves(b) == [] && g.winner(b, side) == 0
    ensures AlphaBetaSpec(g, b, side, depth, alpha, beta, searchDepth, prevLine) == (Tables.OUTCOME_DRAW, prevLine)
  {
  }

  /** As written, the child has no move and no large line. */
  lemma AsWrittenChild()
    ensures var w := PlayAsWritten(FullNeighbour(), 1, true);
      StringGame().moves(w) == [] && StringGame().winner(w, false) == 0
  {
    var w := PlayAsWritten(FullNeighbour(), 1, true);
    AsWrittenStops();
    AsWrittenLarge();
    EmptyNoThree(US);
    EmptyNoThree(THEM);
    assert Winner(w, false) == 0;
  }

  /** One stone in zone 0 wins nothing: the large grid stays empty. */
  lemma AsWrittenLarge()
    ensures PlayAsWritten(FullNeighbour(), 1, true).large == "........."
  {
    var b := FullNeighbour();
    assert Put(b.small[0], 1, US) == ".X.......";
    OneStoneNoLine();
    assert LargeAfter(b.large, 0, ".X.......", true) == b.large;
  }

  /** An empty grid counts three of no stone. */
  lemma EmptyNoThree(ch: char)
    requires ch != EMPTY
    ensures !Three(".........", ch)
  {
    ThreeIsLine(".........", ch);
    assert Holding(".........", ch) == [false, false, false, false, false, false, false, false, false];
  }

  /** The root score is the negamax value: its first child already lies strictly inside the window. */
  lemma RootValue(g: Game, b: StringBoard, side: bool, searchDepth: nat)
    requires Bounded(g) && g.moves(b) != [] && 1 <= searchDepth < Tables.OUTCOME_WIN - 3400
    ensures AlphaBetaSpec(g, b, side, searchDepth, Tables.OUTCOME_LOSS, Tables.OUTCOME_WIN, searchDepth, []).0
         == Value(g, b, side, searchDepth, searchDepth)
  {
    var moves := g.moves(b);
    var lo, hi := Tables.OUTCOME_LOSS, Tables.OUTCOME_WIN;
    var c := g.play(b, moves[0], side);
    var ext: seq<int> := [] + [moves[0]];
    var child := AlphaBetaSpec(g, c, !side, searchDepth - 1, lo, hi, searchDepth, ext);
    ValueInside(g, c, !side, searchDepth - 1, searchDepth);
    AlphaBetaValue(g, c, !side, searchDepth - 1, lo, hi, searchDepth, ext);
    assert lo < -child.0 < hi;
    SweepStep(g, b, side, searchDepth, moves, lo, hi, searchDepth, [], [], c, child.0, child.1);
    ChildLine(g, b, side, searchDepth, moves, lo, hi, searchDepth, []);
    BestInside(g, b, side, searchDepth, moves, searchDepth);
    if |moves| > 1 {
      BestInside(g, b, side, searchDepth, moves[1..], searchDepth);
      SweepValue(g, b, side, searchDepth, moves[1..], -child.0, hi, searchDepth, [], child.1);
    }
  }
}
