/**
 * The rules of Ultimate Tic-Tac-Toe, stated once on an abstract position:
 * 81 cells (zone-major: cell `9*z + c` is cell `c` of zone `z`), the 9-cell
 * large grid of zone winners, and the forced zone (0..8, or 9 for "any zone").
 *
 * Every engine of the repository encodes this position differently (three
 * 64-bit words, nested lists of -1/0/1, tuples of strings); each encoding
 * is related to this module by an abstraction function and refinement lemmas.
 */
module Rules {

  /** Who holds a cell, or who has won a zone. `First` is the player who moves first. */
  datatype Mark = Empty | First | Second

  /** A side to move: 0 is the first player, 1 the second. */
  type Side = s: int | 0 <= s < 2

  /** Zone value meaning "any open zone". */
  const ANY: int := 9

  /** Move value reserved for "no move". */
  const NULL_MOVE: int := 81

  function MarkOf(side: Side): (m: Mark)
    ensures m != Empty
    ensures side == 0 <==> m == First
  {
    if side == 0 then First else Second
  }

  function Opponent(side: Side): (o: Side)
    ensures o != side
  {
    1 - side
  }

  /**
   * The 8 lines of a 3x3 grid whose cells are numbered row-major 0..8:
   * the three columns, the three rows, then the two diagonals.
   */
  function Line(k: nat): (r: (nat, nat, nat))
    requires k < 8
    ensures r.0 < r.1 < r.2 < 9
  {
    if k == 0 then (0, 3, 6)
    else if k == 1 then (1, 4, 7)
    else if k == 2 then (2, 5, 8)
    else if k == 3 then (0, 1, 2)
    else if k == 4 then (3, 4, 5)
    else if k == 5 then (6, 7, 8)
    else if k == 6 then (0, 4, 8)
    else (2, 4, 6)
  }

  /** Line `k` of a 9-cell grid is fully held. */
  predicate LineFull(g: seq<bool>, k: nat)
    requires |g| == 9 && k < 8
  {
    g[Line(k).0] && g[Line(k).1] && g[Line(k).2]
  }

  /** Some line of a 9-cell grid is fully held: three in a row. */
  predicate HasLine(g: seq<bool>)
    requires |g| == 9
  {
    exists k :: 0 <= k < 8 && LineFull(g, k)
  }

  // ---------------------------------------------------------------------
  // Ascending selection of integers, the shape of every move list.

  predicate StrictlyAscending(s: seq<int>) {
    forall i, j :: 0 <= i < j < |s| ==> s[i] < s[j]
  }

  /** The integers of [lo, hi) that satisfy `p`, in ascending order. */
  function Select(lo: int, hi: int, p: int -> bool): seq<int>
    decreases hi - lo
  {
    if hi <= lo then [] else Select(lo, hi - 1, p) + (if p(hi - 1) then [hi - 1] else [])
  }

  lemma {:induction false} SelectSpec(lo: int, hi: int, p: int -> bool)
    ensures forall x :: x in Select(lo, hi, p) <==> lo <= x < hi && p(x)
    ensures forall i :: 0 <= i < |Select(lo, hi, p)| ==> lo <= Select(lo, hi, p)[i] < hi
    ensures StrictlyAscending(Select(lo, hi, p))
    decreases hi - lo
  {
    if hi > lo {
      SelectSpec(lo, hi - 1, p);
    }
  }

  /** Select depends only on which integers of the range satisfy the predicate. */
  lemma {:induction false} SelectCongruent(lo: int, hi: int, p: int -> bool, q: int -> bool)
    requires forall x :: lo <= x < hi ==> p(x) == q(x)
    ensures Select(lo, hi, p) == Select(lo, hi, q)
    decreases hi - lo
  {
    if hi > lo {
      SelectCongruent(lo, hi - 1, p, q);
    }
  }

  /** Splitting the range splits the selection. */
  lemma {:induction false} SelectSplit(lo: int, mid: int, hi: int, p: int -> bool)
    requires lo <= mid <= hi
    ensures Select(lo, hi, p) == Select(lo, mid, p) + Select(mid, hi, p)
    decreases hi - mid
  {
    if hi > mid {
      SelectSplit(lo, mid, hi - 1, p);
    }
  }

  // ---------------------------------------------------------------------
  // Positions.

  datatype State = State(cells: seq<Mark>, won: seq<Mark>, zone: int)

  predicate WellFormed(s: State) {
    |s.cells| == 81 && |s.won| == 9 && 0 <= s.zone <= 9
  }

  /** The cells of zone `z` that hold mark `p`, as a 3x3 grid. */
  function ZoneGrid(cells: seq<Mark>, z: nat, p: Mark): (g: seq<bool>)
    requires |cells| == 81 && z < 9
    ensures |g| == 9
    ensures forall c :: 0 <= c < 9 ==> g[c] == (cells[9 * z + c] == p)
  {
    seq(9, c requires 0 <= c < 9 => cells[9 * z + c] == p)
  }

  /** No cell of zone `z` is empty. */
  predicate ZoneFull(cells: seq<Mark>, z: nat)
    requires |cells| == 81 && z < 9
  {
    Empty !in cells[9 * z .. 9 * z + 9]
  }

  /** The zones won by `p`, as a 3x3 grid. */
  function WonGrid(won: seq<Mark>, p: Mark): (g: seq<bool>)
    requires |won| == 9
    ensures |g| == 9
    ensures forall z :: 0 <= z < 9 ==> g[z] == (won[z] == p)
  {
    seq(9, z requires 0 <= z < 9 => won[z] == p)
  }

  /** The large grid shows three in a row for one of the players. */
  predicate GameOver(s: State)
    requires WellFormed(s)
  {
    HasLine(WonGrid(s.won, First)) || HasLine(WonGrid(s.won, Second))
  }

  /**
   * The invariants every position reached by play satisfies: a zone is
   * marked won by a player exactly when that player has a line in it,
   * and a forced zone is neither full nor won.
   */
  predicate Valid(s: State) {
    && WellFormed(s)
    && (forall z :: 0 <= z < 9 ==>
          && (s.won[z] == First <==> HasLine(ZoneGrid(s.cells, z, First)))
          && (s.won[z] == Second <==> HasLine(ZoneGrid(s.cells, z, Second))))
    && (s.zone != ANY ==> !ZoneFull(s.cells, s.zone) && s.won[s.zone] == Empty)
  }

  /** The starting position: every cell empty, any zone may be played. */
  function Start(): (s: State)
    ensures WellFormed(s)
  {
    State(seq(81, _ => Empty), seq(9, _ => Empty), ANY)
  }

  /** Move `m` may be played in position `s`. */
  predicate Legal(s: State, m: int)
    requires WellFormed(s)
  {
    && !GameOver(s)
    && 0 <= m < 81
    && s.cells[m] == Empty
    && s.won[m / 9] == Empty
    && (s.zone == ANY || m / 9 == s.zone)
  }

  /**
   * The legal moves, ascending: none once the large grid has a line; with
   * the zone unconstrained, every empty cell of an unwon zone; otherwise the
   * empty cells of the forced zone.
   */
  function Moves(s: State): (r: seq<int>)
    requires WellFormed(s)
    ensures OnBoard(r) && StrictlyAscending(r)
  {
    if GameOver(s) then []
    else if s.zone == ANY then
      var p := m => 0 <= m < 81 && s.cells[m] == Empty && s.won[m / 9] == Empty;
      SelectSpec(0, 81, p);
      Select(0, 81, p)
    else
      var p := m => 0 <= m < 81 && s.cells[m] == Empty;
      SelectSpec(9 * s.zone, 9 * s.zone + 9, p);
      Select(9 * s.zone, 9 * s.zone + 9, p)
  }

  lemma MovesAreLegal(s: State)
    requires Valid(s)
    ensures forall m :: m in Moves(s) <==> Legal(s, m)
    ensures StrictlyAscending(Moves(s))
  {
    if !GameOver(s) {
      if s.zone == ANY {
        AnyMovesLegal(s);
      } else {
        ZoneMovesLegal(s);
      }
    }
  }

  /** With the zone unconstrained, the moves are the empty cells of the unwon zones. */
  lemma AnyMovesLegal(s: State)
    requires Valid(s) && !GameOver(s) && s.zone == ANY
    ensures forall m :: m in Moves(s) <==> Legal(s, m)
  {
    var p := m => 0 <= m < 81 && s.cells[m] == Empty && s.won[m / 9] == Empty;
    SelectSpec(0, 81, p);
    assert Moves(s) == Select(0, 81, p);
    forall m ensures m in Moves(s) <==> Legal(s, m) {
      assert (m in Moves(s)) == p(m);
    }
  }

  /** With a forced zone, the moves are the empty cells of that zone, which is unwon. */
  lemma ZoneMovesLegal(s: State)
    requires Valid(s) && !GameOver(s) && s.zone != ANY
    ensures forall m :: m in Moves(s) <==> Legal(s, m)
  {
    var z := s.zone;
    var p := m => 0 <= m < 81 && s.cells[m] == Empty;
    SelectSpec(9 * z, 9 * z + 9, p);
    assert Moves(s) == Select(9 * z, 9 * z + 9, p);
    assert s.won[z] == Empty;
    forall m ensures m in Moves(s) <==> Legal(s, m) {
      if 0 <= m {
        ZoneOfCell(m, z);
      }
    }
  }

  /** Cell m lies in zone z exactly when it is among the zone's nine cells. */
  lemma ZoneOfCell(m: nat, z: nat)
    ensures (m / 9 == z) <==> 9 * z <= m < 9 * z + 9
  {
    var q, r := m / 9, m % 9;
    assert m == 9 * q + r && 0 <= r < 9;
    if q < z {
      assert 9 * q + 9 <= 9 * z;
    } else if q > z {
      assert 9 * z + 9 <= 9 * q;
    }
  }

  /**
   * Playing move `m` for `side`: the cell takes the side's mark; the zone
   * played in becomes won by the side if the side now has a line there; the
   * next forced zone is the cell index `m % 9`, unless that zone is full or
   * won, when any zone may be played.
   */
  function Play(s: State, m: int, side: Side): (r: State)
    requires WellFormed(s) && 0 <= m < 81
    ensures WellFormed(r)
  {
    var cells := s.cells[m := MarkOf(side)];
    var won := WonAfter(s.won, cells, m, side);
    State(cells, won, NextZone(cells, won, m % 9))
  }

  /** The large grid after `side` has played `m`, given the new cells. */
  function WonAfter(won: seq<Mark>, cells: seq<Mark>, m: int, side: Side): (r: seq<Mark>)
    requires |won| == 9 && |cells| == 81 && 0 <= m < 81
    ensures |r| == 9
  {
    if HasLine(ZoneGrid(cells, m / 9, MarkOf(side))) then won[m / 9 := MarkOf(side)] else won
  }

  /** The forced zone after a move into cell `target` of its zone. */
  function NextZone(cells: seq<Mark>, won: seq<Mark>, target: nat): (z: int)
    requires |won| == 9 && |cells| == 81 && target < 9
    ensures z == ANY || z == target
  {
    if ZoneFull(cells, target) || won[target] != Empty then ANY else target
  }

  lemma PlayPreservesValid(s: State, m: int, side: Side)
    requires Valid(s) && Legal(s, m)
    ensures Valid(Play(s, m, side))
  {
    var r := Play(s, m, side);
    forall z | 0 <= z < 9
      ensures && (r.won[z] == First <==> HasLine(ZoneGrid(r.cells, z, First)))
              && (r.won[z] == Second <==> HasLine(ZoneGrid(r.cells, z, Second)))
    {
      ZoneAfterPlay(s, m, side, z);
    }
  }

  /** After a legal move, each zone is still won exactly by the side with a line in it. */
  lemma ZoneAfterPlay(s: State, m: int, side: Side, z: nat)
    requires Valid(s) && Legal(s, m) && z < 9
    ensures var r := Play(s, m, side);
      && (r.won[z] == First <==> HasLine(ZoneGrid(r.cells, z, First)))
      && (r.won[z] == Second <==> HasLine(ZoneGrid(r.cells, z, Second)))
  {
    var p := MarkOf(side);
    var cells := s.cells[m := p];
    var o := if p == First then Second else First;
    GridAfterMark(s.cells, m, p, z, o);
    if z != m / 9 {
      GridAfterMark(s.cells, m, p, z, p);
      assert Play(s, m, side).won[z] == s.won[z];
    } else {
      assert s.won[z] == Empty;
    }
  }

  /** Marking cell m with v leaves the grid of mark q in zone z unchanged, unless m is in z and q is v. */
  lemma GridAfterMark(cells: seq<Mark>, m: int, v: Mark, z: nat, q: Mark)
    requires |cells| == 81 && 0 <= m < 81 && z < 9 && q != Empty && cells[m] == Empty
    requires z != m / 9 || q != v
    ensures ZoneGrid(cells[m := v], z, q) == ZoneGrid(cells, z, q)
  {
  }

  /** Every move of the sequence names a cell. */
  predicate OnBoard(moves: seq<int>) {
    forall i :: 0 <= i < |moves| ==> 0 <= moves[i] < 81
  }

  /** Playing a sequence of moves, the sides alternating from `side`. */
  function PlayAll(s: State, moves: seq<int>, side: Side): State
    requires WellFormed(s)
    requires OnBoard(moves)
    ensures WellFormed(PlayAll(s, moves, side))
    decreases |moves|
  {
    if moves == [] then s else PlayAll(Play(s, moves[0], side), moves[1..], Opponent(side))
  }

  /** Every move of the sequence is legal when it is played. */
  predicate LegalSequence(s: State, moves: seq<int>, side: Side)
    requires WellFormed(s)
    decreases |moves|
  {
    moves == [] ||
    (Legal(s, moves[0]) && LegalSequence(Play(s, moves[0], side), moves[1..], Opponent(side)))
  }

  /** A position reached from the start by legal play. */
  ghost predicate Reachable(s: State) {
    exists moves: seq<int> ::
      && OnBoard(moves)
      && LegalSequence(Start(), moves, 0)
      && s == PlayAll(Start(), moves, 0)
  }

  lemma StartValid()
    ensures Valid(Start())
  {
    forall z | 0 <= z < 9
      ensures !HasLine(ZoneGrid(Start().cells, z, First)) && !HasLine(ZoneGrid(Start().cells, z, Second))
    {
    }
  }

  lemma {:induction false} LegalPlayKeepsValid(s: State, moves: seq<int>, side: Side)
    requires Valid(s)
    requires OnBoard(moves)
    requires LegalSequence(s, moves, side)
    ensures Valid(PlayAll(s, moves, side))
    decreases |moves|
  {
    if moves != [] {
      PlayPreservesValid(s, moves[0], side);
      LegalPlayKeepsValid(Play(s, moves[0], side), moves[1..], Opponent(side));
    }
  }

  /** Every position reached by legal play satisfies the invariants. */
  lemma ReachableValid(s: State)
    requires Reachable(s)
    ensures Valid(s)
  {
    var moves: seq<int> :|
      && OnBoard(moves)
      && LegalSequence(Start(), moves, 0)
      && s == PlayAll(Start(), moves, 0);
    StartValid();
    LegalPlayKeepsValid(Start(), moves, 0);
  }

  /** From the starting position all 81 moves are legal, in ascending order. */
  lemma StartMoves()
    ensures Moves(Start()) == seq(81, i => i)
  {
    var s := Start();
    assert !HasLine(WonGrid(s.won, First)) by {
      forall k | 0 <= k < 8 ensures !LineFull(WonGrid(s.won, First), k) {}
    }
    assert !HasLine(WonGrid(s.won, Second)) by {
      forall k | 0 <= k < 8 ensures !LineFull(WonGrid(s.won, Second), k) {}
    }
    AllSelected(0, 81, m => 0 <= m < 81 && s.cells[m] == Empty && s.won[m / 9] == Empty);
  }

  lemma {:induction false} AllSelected(lo: int, hi: int, p: int -> bool)
    requires lo <= hi
    requires forall x :: lo <= x < hi ==> p(x)
    ensures Select(lo, hi, p) == seq(hi - lo, i => lo + i)
    decreases hi - lo
  {
    if hi > lo {
      AllSelected(lo, hi - 1, p);
    }
  }
}
