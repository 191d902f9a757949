/**
 * The move generator the three bitboard engines share, on the words of a
 * board: nothing once a large-grid word holds a line, otherwise the free
 * cells of the forced zone, or of every unwon zone when the zone field is
 * ZONE_ANY, in ascending order. The Rust `generate_moves` is this function
 * as an iterator pipeline; the Java and Python engines compute it with loops.
 */
module BoardMoves {
  import opened Words
  import opened LineHelpers
  import opened Bitboard
  import Rules

  /**
   * The generated moves: nothing once a large-grid word has a line,
   * otherwise the open cells of the board.
   */
  function GenerateMoves(b: Board): seq<int>
    requires ZoneField(b.share) <= 9
  {
    if LinePresence(Shr(b.share, 36)) || LinePresence(Shr(b.share, 45)) then [] else OpenCells(b)
  }

  /**
   * The zone switch of the generator: for ZONE_ANY the free cells of
   * unwon zones (0..63 from `us | them`, then 63..81 from `share`); for zones
   * 7 and 8 the free cells read from `share`; otherwise the free cells read
   * from `us | them`. A bit test `((x >> i) & 1) == 0` is written `!x[i]`.
   */
  function OpenCells(b: Board): seq<int>
    requires ZoneField(b.share) <= 9
  {
    var zone := ZoneField(b.share);
    var nwToSw := Or(b.us, b.them);
    var sToSe := Or(Shr(b.share, 18), b.share);
    var large := Or(Shr(b.share, 36), Shr(b.share, 45));
    if zone == ZONE_ANY then
      Rules.Select(0, 63, i => 0 <= i < 63 && !nwToSw[i] && !large[i / 9])
      + Rules.Select(63, 81, i => 63 <= i < 81 && !sToSe[i - 63] && !large[i / 9])
    else if zone == 7 || zone == 8 then
      Rules.Select(9 * zone, 9 * zone + 9, i => 63 <= i < 81 && !sToSe[i - 63])
    else
      Rules.Select(9 * zone, 9 * zone + 9, i => 0 <= i < 63 && !nwToSw[i])
  }

  /** Before the end of the game the open cells are the legal moves. */
  lemma OpenCellsSpec(b: Board)
    requires Encoded(b) && !Rules.GameOver(Abs(b))
    ensures OpenCells(b) == Rules.Moves(Abs(b))
  {
    var zone := ZoneField(b.share);
    if zone == ZONE_ANY {
      AnyZoneCells(b);
    } else if zone == 7 || zone == 8 {
      SouthZoneCells(b);
    } else {
      NorthZoneCells(b);
    }
  }

  lemma AnyZoneCells(b: Board)
    requires Encoded(b) && ZoneField(b.share) == ZONE_ANY
    ensures
      var s := Abs(b);
      var nwToSw := Or(b.us, b.them);
      var sToSe := Or(Shr(b.share, 18), b.share);
      var large := Or(Shr(b.share, 36), Shr(b.share, 45));
      Rules.Select(0, 63, i => 0 <= i < 63 && !nwToSw[i] && !large[i / 9])
      + Rules.Select(63, 81, i => 63 <= i < 81 && !sToSe[i - 63] && !large[i / 9])
      == Rules.Select(0, 81, m => 0 <= m < 81 && s.cells[m] == Rules.Empty && s.won[m / 9] == Rules.Empty)
  {
    var s := Abs(b);
    var nwToSw := Or(b.us, b.them);
    var sToSe := Or(Shr(b.share, 18), b.share);
    var large := Or(Shr(b.share, 36), Shr(b.share, 45));
    var p := m => 0 <= m < 81 && s.cells[m] == Rules.Empty && s.won[m / 9] == Rules.Empty;
    var q1 := i => 0 <= i < 63 && !nwToSw[i] && !large[i / 9];
    var q2 := i => 63 <= i < 81 && !sToSe[i - 63] && !large[i / 9];
    AnyZoneFree(b);
    forall i | 0 <= i < 63 ensures q1(i) == p(i) {
    }
    forall i | 63 <= i < 81 ensures q2(i) == p(i) {
    }
    Rules.SelectCongruent(0, 63, q1, p);
    Rules.SelectCongruent(63, 81, q2, p);
    Rules.SelectSplit(0, 63, 81, p);
  }

  /** The cells free to play on, read from the words: empty, and in a zone with no large bit. */
  lemma AnyZoneFree(b: Board)
    requires Encoded(b)
    ensures
      var s := Abs(b);
      var large := Or(Shr(b.share, 36), Shr(b.share, 45));
      && (forall i :: 0 <= i < 81 ==> (!large[i / 9] <==> s.won[i / 9] == Rules.Empty))
      && (forall i :: 0 <= i < 63 ==> (!Or(b.us, b.them)[i] <==> s.cells[i] == Rules.Empty))
      && (forall i :: 63 <= i < 81 ==> (!Or(Shr(b.share, 18), b.share)[i - 63] <==> s.cells[i] == Rules.Empty))
  {
    var s := Abs(b);
    var large := Or(Shr(b.share, 36), Shr(b.share, 45));
    forall i | 0 <= i < 81 ensures !large[i / 9] == (s.won[i / 9] == Rules.Empty) {
      var z := i / 9;
      assert s.won[z] == MarkFrom(b.share[36 + z], b.share[45 + z]);
    }
    forall i | 0 <= i < 81 ensures s.cells[i] == CellOf(b, i) {
    }
  }

  /** In zone 7 or 8 the free cells are read from `(share >> 18) | share`. */
  lemma SouthZoneCells(b: Board)
    requires Encoded(b) && (ZoneField(b.share) == 7 || ZoneField(b.share) == 8)
    ensures
      var s := Abs(b);
      var zone := ZoneField(b.share);
      var sToSe := Or(Shr(b.share, 18), b.share);
      Rules.Select(9 * zone, 9 * zone + 9, i => 63 <= i < 81 && !sToSe[i - 63])
      == Rules.Select(9 * zone, 9 * zone + 9, m => 0 <= m < 81 && s.cells[m] == Rules.Empty)
  {
    var s := Abs(b);
    var zone := ZoneField(b.share);
    var sToSe := Or(Shr(b.share, 18), b.share);
    Rules.SelectCongruent(9 * zone, 9 * zone + 9, i => 63 <= i < 81 && !sToSe[i - 63],
      m => 0 <= m < 81 && s.cells[m] == Rules.Empty);
  }

  /** In zones 0..6 the free cells are read from `us | them`. */
  lemma NorthZoneCells(b: Board)
    requires Encoded(b) && ZoneField(b.share) < 7
    ensures
      var s := Abs(b);
      var zone := ZoneField(b.share);
      var nwToSw := Or(b.us, b.them);
      Rules.Select(9 * zone, 9 * zone + 9, i => 0 <= i < 63 && !nwToSw[i])
      == Rules.Select(9 * zone, 9 * zone + 9, m => 0 <= m < 81 && s.cells[m] == Rules.Empty)
  {
    var s := Abs(b);
    var zone := ZoneField(b.share);
    var nwToSw := Or(b.us, b.them);
    Rules.SelectCongruent(9 * zone, 9 * zone + 9, i => 0 <= i < 63 && !nwToSw[i],
      m => 0 <= m < 81 && s.cells[m] == Rules.Empty);
  }

  /** The generator computes the legal moves of the position the board encodes. */
  lemma GenerateMovesSpec(b: Board)
    requires Encoded(b)
    ensures GenerateMoves(b) == Rules.Moves(Abs(b))
  {
    GameOverWords(b);
    if !Rules.GameOver(Abs(b)) {
      OpenCellsSpec(b);
    }
  }

  /** On a valid board the generator yields exactly the legal moves, strictly ascending. */
  lemma GenerateMovesLegal(b: Board)
    requires Valid(b)
    ensures forall m :: m in GenerateMoves(b) <==> Rules.Legal(Abs(b), m)
    ensures Rules.StrictlyAscending(GenerateMoves(b))
  {
    GenerateMovesSpec(b);
    Rules.MovesAreLegal(Abs(b));
  }

  /** Whatever the words, every generated move is a cell of the board. */
  lemma GenerateMovesOnBoard(b: Board)
    requires ZoneField(b.share) <= 9
    ensures Rules.OnBoard(GenerateMoves(b))
  {
    OpenCellsOnBoard(b);
  }

  lemma OpenCellsOnBoard(b: Board)
    requires ZoneField(b.share) <= 9
    ensures Rules.OnBoard(OpenCells(b))
  {
    var zone := ZoneField(b.share);
    var nwToSw := Or(b.us, b.them);
    var sToSe := Or(Shr(b.share, 18), b.share);
    var large := Or(Shr(b.share, 36), Shr(b.share, 45));
    if zone == ZONE_ANY {
      SelectOnBoard(0, 63, i => 0 <= i < 63 && !nwToSw[i] && !large[i / 9]);
      SelectOnBoard(63, 81, i => 63 <= i < 81 && !sToSe[i - 63] && !large[i / 9]);
      ConcatOnBoard(Rules.Select(0, 63, i => 0 <= i < 63 && !nwToSw[i] && !large[i / 9]),
                    Rules.Select(63, 81, i => 63 <= i < 81 && !sToSe[i - 63] && !large[i / 9]));
    } else if zone == 7 || zone == 8 {
      SelectOnBoard(9 * zone, 9 * zone + 9, i => 63 <= i < 81 && !sToSe[i - 63]);
    } else {
      SelectOnBoard(9 * zone, 9 * zone + 9, i => 0 <= i < 63 && !nwToSw[i]);
    }
  }

  lemma SelectOnBoard(lo: int, hi: int, p: int -> bool)
    requires 0 <= lo && hi <= 81
    ensures Rules.OnBoard(Rules.Select(lo, hi, p))
  {
    Rules.SelectSpec(lo, hi, p);
  }

  lemma ConcatOnBoard(xs: seq<int>, ys: seq<int>)
    requires Rules.OnBoard(xs) && Rules.OnBoard(ys)
    ensures Rules.OnBoard(xs + ys)
  {
    assert forall k :: 0 <= k < |xs + ys| ==> (xs + ys)[k] == if k < |xs| then xs[k] else ys[k - |xs|];
  }
}
