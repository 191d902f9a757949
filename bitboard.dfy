/**
 * The bit-packed board shared by the Java, Rust and Python engines, and its
 * meaning as a rule-level position.
 *
 * Three 64-bit words:
 *   `us`    bits 0..62   cells 0..62 (zones NW..SW) held by the first player;
 *   `them`  bits 0..62   the same cells held by the second player;
 *   `share` bits 0..17   cells 63..80 (zones S, SE) held by the first player,
 *           bits 18..35  the same cells held by the second player,
 *           bits 36..44  zones won by the first player,
 *           bits 45..53  zones won by the second player,
 *           bits 54..57  the forced zone, 9 meaning any zone.
 */
module Bitboard {
  import opened Words
  import opened LineHelpers
  import Rules

  datatype Board = Board(us: Word, them: Word, share: Word)

  /** The rule-level side of a `bool` side flag, as the Rust and Python engines pass it (false for the first player). */
  function SideOf(side: bool): Rules.Side {
    if side then 1 else 0
  }

  /** The zone value meaning "play in any open zone". */
  const ZONE_ANY: nat := 9

  /** `~(0b1111 << 54)` of the Java and Rust engines. */
  const EXCLZONE: Word := Not(Shl(Range(0, 4), 54))

  /** `(0b111111 << 58) | ((1 << 54) - 1)` of the Python engine. */
  const EXCLZONE_PY: Word := Or(Shl(Range(0, 6), 58), Range(0, 54))

  /** Both spellings of the zone-clearing mask keep every bit except 54..57. */
  lemma ExclZone()
    ensures EXCLZONE == EXCLZONE_PY
    ensures forall i :: 0 <= i < 64 ==> (EXCLZONE[i] <==> !(54 <= i < 58))
  {
    assert forall i :: 0 <= i < 64 ==> EXCLZONE[i] == EXCLZONE_PY[i];
  }

  /** `(share >> 54) & 0b1111`. */
  function ZoneField(share: Word): nat {
    Value(And(Shr(share, 54), Range(0, 4)))
  }

  /** The mark of a cell or zone given its first-player and second-player bits; the first player is looked at first. */
  function MarkFrom(x: bool, o: bool): (m: Rules.Mark)
    ensures m == Rules.Empty <==> !x && !o
  {
    if x then Rules.First else if o then Rules.Second else Rules.Empty
  }

  /** Cell m, read from `us`/`them` for zones 0..6 and from `share` for zones 7 and 8. */
  function CellOf(b: Board, m: nat): Rules.Mark
    requires m < 81
  {
    if m < 63 then MarkFrom(b.us[m], b.them[m]) else MarkFrom(b.share[m - 63], b.share[m - 45])
  }

  /** The rule-level position a board stands for. */
  function Abs(b: Board): (s: Rules.State)
    ensures |s.cells| == 81 && |s.won| == 9 && s.zone == ZoneField(b.share)
    ensures forall m :: 0 <= m < 81 ==> s.cells[m] == CellOf(b, m)
    ensures forall z :: 0 <= z < 9 ==> s.won[z] == MarkFrom(b.share[36 + z], b.share[45 + z])
  {
    Rules.State(
      seq(81, m requires 0 <= m < 81 => CellOf(b, m)),
      seq(9, z requires 0 <= z < 9 => MarkFrom(b.share[36 + z], b.share[45 + z])),
      ZoneField(b.share))
  }

  /** Bits i and i + d of w are not both set. */
  predicate Apart(w: Word, i: nat, d: nat)
    requires i + d < 64
  {
    !(w[i] && w[i + d])
  }

  /**
   * The layout invariants: no cell or zone is marked for both players, bit
   * 63 of `us` and `them` and bits 58..63 of `share` are clear, and the zone
   * field holds 0..9.
   */
  predicate Encoded(b: Board) {
    && (forall i :: 0 <= i < 63 ==> !(b.us[i] && b.them[i]))
    && !b.us[63] && !b.them[63]
    && (forall i :: 0 <= i < 18 ==> Apart(b.share, i, 18))
    && (forall i :: 36 <= i < 45 ==> Apart(b.share, i, 9))
    && (forall i :: 58 <= i < 64 ==> !b.share[i])
    && ZoneField(b.share) <= 9
  }

  /** A board that encodes a position satisfying the rules' invariants. */
  predicate Valid(b: Board) {
    Encoded(b) && Rules.Valid(Abs(b))
  }

  /** The board of a position. */
  function Encode(s: Rules.State): (b: Board)
    requires Rules.WellFormed(s)
  {
    Board(
      seq(64, i requires 0 <= i < 64 => i < 63 && s.cells[i] == Rules.First),
      seq(64, i requires 0 <= i < 64 => i < 63 && s.cells[i] == Rules.Second),
      seq(64, i requires 0 <= i < 64 =>
        if i < 18 then s.cells[63 + i] == Rules.First
        else if i < 36 then s.cells[45 + i] == Rules.Second
        else if i < 45 then s.won[i - 36] == Rules.First
        else if i < 54 then s.won[i - 45] == Rules.Second
        else if i < 58 then FromNat(s.zone)[i - 54]
        else false))
  }

  /** The zone field of a word whose bits 54..57 are the binary digits of z. */
  lemma ZoneFieldOf(share: Word, z: nat)
    requires z < 16
    requires forall j :: 0 <= j < 4 ==> share[54 + j] == FromNat(z)[j]
    ensures ZoneField(share) == z
  {
    var x := And(Shr(share, 54), Range(0, 4));
    assert Pow2(4) == 16;
    FromNatValue(z, 4);
    assert x == FromNat(z);
  }

  /** Bits 54..57 of a word are the binary digits of its zone field. */
  lemma ZoneFieldBits(share: Word)
    ensures ZoneField(share) < 16
    ensures forall j :: 0 <= j < 4 ==> share[54 + j] == FromNat(ZoneField(share))[j]
  {
    var x := And(Shr(share, 54), Range(0, 4));
    ValueFromNat(x);
    LowHigh(x, 4, 64);
    LowBound(x, 4);
    assert Pow2(4) == 16;
  }

  /** Encoding a position and reading it back gives the position; the board meets the layout invariants. */
  lemma AbsEncode(s: Rules.State)
    requires Rules.WellFormed(s)
    ensures Encoded(Encode(s))
    ensures Abs(Encode(s)) == s
  {
    var b := Encode(s);
    ZoneFieldOf(b.share, s.zone);
    assert Pow2(4) == 16;
    FromNatValue(s.zone, 4);
    forall m | 0 <= m < 81 ensures Abs(b).cells[m] == s.cells[m] {
      if m >= 63 {
        assert b.share[m - 63] == (s.cells[m] == Rules.First);
        assert b.share[m - 45] == (s.cells[m] == Rules.Second);
      }
    }
    forall z | 0 <= z < 9 ensures Abs(b).won[z] == s.won[z] {
      assert b.share[36 + z] == (s.won[z] == Rules.First);
      assert b.share[45 + z] == (s.won[z] == Rules.Second);
    }
    assert Abs(b).cells == s.cells;
    assert Abs(b).won == s.won;
  }

  /** A board meeting the layout invariants is the encoding of the position it stands for. */
  lemma EncodeAbs(b: Board)
    requires Encoded(b)
    ensures Encode(Abs(b)) == b
  {
    var e := Encode(Abs(b));
    ZoneFieldBits(b.share);
    assert e.us == b.us;
    assert e.them == b.them;
    forall i | 0 <= i < 64 ensures e.share[i] == b.share[i] {
      if i < 18 {
        assert Apart(b.share, i, 18);
      } else if i < 36 {
        assert Apart(b.share, i - 18, 18);
      } else if i < 45 {
        assert Apart(b.share, i, 9);
      } else if i < 54 {
        assert Apart(b.share, i - 9, 9);
      }
    }
    assert e.share == b.share;
  }

  /** The starting board of every driver, `(0, 0, ZONE_ANY << 54)`, encodes the starting position. */
  lemma StartBoard()
    ensures Board(Zero(), Zero(), Shl(FromNat(ZONE_ANY), 54)) == Encode(Rules.Start())
  {
    var b := Board(Zero(), Zero(), Shl(FromNat(ZONE_ANY), 54));
    ZoneFieldOf(b.share, 9);
    assert Pow2(4) == 16;
    FromNatValue(9, 4);
    forall i | 0 <= i < 18 ensures Apart(b.share, i, 18) {
      assert !b.share[i] && !b.share[i + 18];
    }
    forall i | 36 <= i < 45 ensures Apart(b.share, i, 9) {
      assert !b.share[i] && !b.share[i + 9];
    }
    assert Encoded(b);
    EncodeAbs(b);
    assert Abs(b) == Rules.Start();
  }

  // ---------------------------------------------------------------------
  // Zones as 3x3 grids in the words.

  /** The word whose low nine bits are the cells of zone z held by `side`. */
  function ZoneWord(b: Board, z: nat, side: Rules.Side): Word
    requires z < 9
  {
    if z < 7 then Shr(if side == 0 then b.us else b.them, 9 * z)
    else Shr(b.share, 9 * z - 63 + 18 * side)
  }

  lemma ZoneGridWord(b: Board, z: nat, side: Rules.Side)
    requires Encoded(b) && z < 9
    ensures GridOf(ZoneWord(b, z, side)) == Rules.ZoneGrid(Abs(b).cells, z, Rules.MarkOf(side))
  {
    forall c | 0 <= c < 9
      ensures GridOf(ZoneWord(b, z, side))[c] == Rules.ZoneGrid(Abs(b).cells, z, Rules.MarkOf(side))[c]
    {
      ZoneCellWord(b, z, side, c);
      assert Abs(b).cells[9 * z + c] == CellOf(b, 9 * z + c);
    }
  }

  /** Bit c of the zone word tells whether cell c of zone z holds the side's mark. */
  lemma ZoneCellWord(b: Board, z: nat, side: Rules.Side, c: nat)
    requires Encoded(b) && z < 9 && c < 9
    ensures ZoneWord(b, z, side)[c] == (CellOf(b, 9 * z + c) == Rules.MarkOf(side))
  {
    if z >= 7 {
      assert Apart(b.share, 9 * z - 63 + c, 18);
    }
  }

  /** Bits 36.. (first player) and 45.. (second player) of `share` are the large grid. */
  lemma WonGridWord(b: Board, side: Rules.Side)
    requires Encoded(b)
    ensures GridOf(Shr(b.share, 36 + 9 * side)) == Rules.WonGrid(Abs(b).won, Rules.MarkOf(side))
  {
    forall z | 0 <= z < 9
      ensures GridOf(Shr(b.share, 36 + 9 * side))[z] == Rules.WonGrid(Abs(b).won, Rules.MarkOf(side))[z]
    {
      assert Apart(b.share, 36 + z, 9);
    }
  }

  /** `linePresence(share >> 36) || linePresence(share >> 45)` is the end of the game. */
  lemma GameOverWords(b: Board)
    requires Encoded(b)
    ensures Rules.WellFormed(Abs(b))
    ensures (LinePresence(Shr(b.share, 36)) || LinePresence(Shr(b.share, 45))) == Rules.GameOver(Abs(b))
  {
    LinePresenceSpec(Shr(b.share, 36));
    LinePresenceSpec(Shr(b.share, 45));
    WonGridWord(b, 0);
    WonGridWord(b, 1);
  }

  /** The nine cells of zone t are all occupied: `next_chunk == CHUNK`. */
  function OccupiedChunk(b: Board, t: nat): Word
    requires t < 9
  {
    if t > 6 then And(Shr(Or(b.share, Shr(b.share, 18)), 9 * (t - 7)), CHUNK)
    else And(Shr(Or(b.us, b.them), 9 * t), CHUNK)
  }

  /** A nine-bit word marking the occupied cells of zone z equals CHUNK exactly when the zone is full. */
  lemma FullChunk(x: Word, cells: seq<Rules.Mark>, z: nat)
    requires |cells| == 81 && z < 9
    requires forall i :: 9 <= i < 64 ==> !x[i]
    requires forall c :: 0 <= c < 9 ==> (x[c] <==> cells[9 * z + c] != Rules.Empty)
    ensures (x == CHUNK) == Rules.ZoneFull(cells, z)
  {
    if x == CHUNK {
      forall m | 9 * z <= m < 9 * z + 9 ensures cells[m] != Rules.Empty {
        assert x[m - 9 * z];
      }
      assert Rules.Empty !in cells[9 * z .. 9 * z + 9];
    }
    if Rules.ZoneFull(cells, z) {
      forall i | 0 <= i < 64 ensures x[i] == CHUNK[i] {
        if i < 9 {
          assert cells[9 * z .. 9 * z + 9][i] == cells[9 * z + i];
        }
      }
    }
  }

  lemma OccupiedChunkFull(b: Board, t: nat)
    requires t < 9
    ensures (OccupiedChunk(b, t) == CHUNK) == Rules.ZoneFull(Abs(b).cells, t)
  {
    FullChunk(OccupiedChunk(b, t), Abs(b).cells, t);
  }

  // ---------------------------------------------------------------------
  // The precondition of a move.

  /** The board meets the layout invariants, and `m` is an empty cell in a zone nobody has won. */
  predicate Playable(b: Board, m: int) {
    && Encoded(b)
    && 0 <= m < 81
    && CellOf(b, m) == Rules.Empty
    && MarkFrom(b.share[36 + m / 9], b.share[45 + m / 9]) == Rules.Empty
  }

  /** Every legal move of a valid board may be played on it. */
  lemma LegalIsPlayable(b: Board, m: int)
    requires Valid(b) && Rules.Legal(Abs(b), m)
    ensures Playable(b, m)
  {
  }

  // ---------------------------------------------------------------------
  // The steps of `playMove`, shared by the three engines.

  /** Setting the mover's bit for cell mv marks the cell and nothing else. */
  lemma PlaceStone(b: Board, mv: nat, side: Rules.Side, b1: Board)
    requires Playable(b, mv)
    requires forall i :: 0 <= i < 64 ==> b1.us[i] == (b.us[i] || (mv < 63 && side == 0 && i == mv))
    requires forall i :: 0 <= i < 64 ==> b1.them[i] == (b.them[i] || (mv < 63 && side == 1 && i == mv))
    requires forall i :: 0 <= i < 64 ==> b1.share[i] == (b.share[i] || (mv >= 63 && i == mv - 63 + 18 * side))
    ensures Encoded(b1)
    ensures Abs(b1) == Abs(b).(cells := Abs(b).cells[mv := Rules.MarkOf(side)])
  {
    ZoneFieldBits(b.share);
    ZoneFieldOf(b1.share, ZoneField(b.share));
    forall i | 0 <= i < 18 ensures Apart(b1.share, i, 18) {
      assert Apart(b.share, i, 18);
    }
    forall i | 36 <= i < 45 ensures Apart(b1.share, i, 9) {
      assert Apart(b.share, i, 9);
    }
    var s, s1 := Abs(b), Abs(b1);
    assert s1.cells == s.cells[mv := Rules.MarkOf(side)] by {
      forall m | 0 <= m < 81 ensures s1.cells[m] == s.cells[mv := Rules.MarkOf(side)][m] {
        assert s1.cells[m] == CellOf(b1, m) && s.cells[m] == CellOf(b, m);
      }
    }
    assert s1.won == s.won by {
      forall z | 0 <= z < 9 ensures s1.won[z] == s.won[z] {
        assert b1.share[36 + z] == b.share[36 + z] && b1.share[45 + z] == b.share[45 + z];
      }
    }
  }

  /** After the stone is placed, `linePresence` of the zone's word says whether the mover has a line there. */
  lemma ZonePresence(b: Board, z: nat, side: Rules.Side)
    requires Encoded(b) && z < 9
    ensures LinePresence(ZoneWord(b, z, side)) == Rules.HasLine(Rules.ZoneGrid(Abs(b).cells, z, Rules.MarkOf(side)))
  {
    LinePresenceSpec(ZoneWord(b, z, side));
    ZoneGridWord(b, z, side);
  }

  /** Setting the won bit `36 + 9 * side + z` of an unwon zone marks the zone won by `side`. */
  lemma MarkWon(b: Board, z: nat, side: Rules.Side, won: bool, b2: Board)
    requires Encoded(b) && z < 9 && Abs(b).won[z] == Rules.Empty
    requires b2.us == b.us && b2.them == b.them
    requires forall i :: 0 <= i < 64 ==> b2.share[i] == (b.share[i] || (won && i == 36 + 9 * side + z))
    ensures Encoded(b2)
    ensures Abs(b2) == Abs(b).(won := if won then Abs(b).won[z := Rules.MarkOf(side)] else Abs(b).won)
  {
    ZoneFieldBits(b.share);
    ZoneFieldOf(b2.share, ZoneField(b.share));
    forall i | 0 <= i < 18 ensures Apart(b2.share, i, 18) {
      assert Apart(b.share, i, 18);
    }
    forall i | 36 <= i < 45 ensures Apart(b2.share, i, 9) {
      assert Apart(b.share, i, 9);
    }
    var s, s2 := Abs(b), Abs(b2);
    var w := if won then s.won[z := Rules.MarkOf(side)] else s.won;
    assert s2.cells == s.cells by {
      forall m | 0 <= m < 81 ensures s2.cells[m] == s.cells[m] {
        assert s2.cells[m] == CellOf(b2, m) && s.cells[m] == CellOf(b, m);
      }
    }
    assert s2.won == w by {
      forall y | 0 <= y < 9 ensures s2.won[y] == w[y] {
        assert s2.won[y] == MarkFrom(b2.share[36 + y], b2.share[45 + y]);
        assert s.won[y] == MarkFrom(b.share[36 + y], b.share[45 + y]);
      }
    }
  }

  /** `(((share | (share >> 9)) >> (36 + t)) & 1) == 1`: zone t is won by someone. */
  lemma WonBit(b: Board, t: nat)
    requires t < 9
    ensures Or(b.share, Shr(b.share, 9))[36 + t] == (Abs(b).won[t] != Rules.Empty)
  {
  }

  /** `(share & EXCLZONE) | (zone << 54)` keeps every bit of share outside 54..57 and holds zone there. */
  lemma ZoneWritten(share: Word, zone: nat, w: Word)
    requires zone <= 9 && w == Or(And(share, EXCLZONE), Shl(FromNat(zone), 54))
    ensures forall i :: 0 <= i < 54 ==> w[i] == share[i]
    ensures forall i :: 58 <= i < 64 ==> w[i] == share[i]
    ensures ZoneField(w) == zone
  {
    assert Pow2(4) == 16;
    FromNatValue(zone, 4);
    ZoneFieldOf(w, zone);
  }

  /** Writing `(share & EXCLZONE) | (zone << 54)` sets the forced zone and nothing else. */
  lemma WriteZone(b: Board, zone: nat, r: Board)
    requires Encoded(b) && zone <= 9
    requires r == Board(b.us, b.them, Or(And(b.share, EXCLZONE), Shl(FromNat(zone), 54)))
    ensures Encoded(r)
    ensures Abs(r) == Abs(b).(zone := zone)
  {
    ZoneWritten(b.share, zone, r.share);
    forall i | 0 <= i < 18 ensures Apart(r.share, i, 18) {
      assert Apart(b.share, i, 18);
    }
    forall i | 36 <= i < 45 ensures Apart(r.share, i, 9) {
      assert Apart(b.share, i, 9);
    }
    SameCells(b, r);
  }

  /** Two boards that agree on us, them and the low 54 bits of share stand for the same cells and won zones. */
  lemma SameCells(b: Board, r: Board)
    requires r.us == b.us && r.them == b.them
    requires forall i :: 0 <= i < 54 ==> r.share[i] == b.share[i]
    ensures Abs(r).cells == Abs(b).cells && Abs(r).won == Abs(b).won
  {
    var s, s1 := Abs(b), Abs(r);
    forall m | 0 <= m < 81 ensures s1.cells[m] == s.cells[m] {
      assert s1.cells[m] == CellOf(r, m) && s.cells[m] == CellOf(b, m);
    }
    forall y | 0 <= y < 9 ensures s1.won[y] == s.won[y] {
      assert s1.won[y] == MarkFrom(r.share[36 + y], r.share[45 + y]);
      assert s.won[y] == MarkFrom(b.share[36 + y], b.share[45 + y]);
    }
  }

  // ---------------------------------------------------------------------
  // `playMove` as a composition of its three steps.

  /** The words after the stone of `side` is set on cell mv. */
  function Placed(b: Board, mv: nat, side: Rules.Side): Board
    requires mv < 81
  {
    if mv >= 63 then Board(b.us, b.them, Or(b.share, Single(mv - 63 + 18 * side)))
    else if side == 0 then Board(Or(b.us, Single(mv)), b.them, b.share)
    else Board(b.us, Or(b.them, Single(mv)), b.share)
  }

  /** The words after zone z is marked won by `side`, when `won` holds. */
  function WithWon(b: Board, z: nat, side: Rules.Side, won: bool): Board
    requires z < 9
  {
    if won then Board(b.us, b.them, Or(b.share, Single(36 + 9 * side + z))) else b
  }

  /** The zone the next player is sent to: t, or ZONE_ANY when zone t is full or won. */
  function ForcedZone(b: Board, t: nat): nat
    requires t < 9
  {
    if OccupiedChunk(b, t) == CHUNK || Or(b.share, Shr(b.share, 9))[36 + t] then ZONE_ANY else t
  }

  /** The words with the zone field set to `zone`. */
  function WithZone(b: Board, zone: nat): Board {
    Board(b.us, b.them, Or(And(b.share, EXCLZONE), Shl(FromNat(zone), 54)))
  }

  /** The words after `side` plays mv: stone, won bit, forced zone. */
  function Moved(b: Board, mv: nat, side: Rules.Side): Board
    requires mv < 81
  {
    var b1 := Placed(b, mv, side);
    var b2 := WithWon(b1, mv / 9, side, Rules.HasLine(GridOf(ZoneWord(b1, mv / 9, side))));
    WithZone(b2, ForcedZone(b2, mv % 9))
  }

  /** Placing the stone marks cell mv for `side` and nothing else. */
  lemma PlacedSpec(b: Board, mv: nat, side: Rules.Side)
    requires Playable(b, mv)
    ensures Encoded(Placed(b, mv, side))
    ensures Abs(Placed(b, mv, side)) == Abs(b).(cells := Abs(b).cells[mv := Rules.MarkOf(side)])
  {
    PlaceStone(b, mv, side, Placed(b, mv, side));
  }

  /** Marking an unwon zone won records it for `side` and nothing else. */
  lemma WithWonSpec(b: Board, z: nat, side: Rules.Side, won: bool)
    requires Encoded(b) && z < 9 && Abs(b).won[z] == Rules.Empty
    ensures Encoded(WithWon(b, z, side, won))
    ensures Abs(WithWon(b, z, side, won)) == Abs(b).(won := if won then Abs(b).won[z := Rules.MarkOf(side)] else Abs(b).won)
  {
    MarkWon(b, z, side, won, WithWon(b, z, side, won));
  }

  /** The forced zone written is the rules' next zone. */
  lemma ForcedZoneSpec(b: Board, t: nat)
    requires Encoded(b) && t < 9
    ensures Encoded(WithZone(b, ForcedZone(b, t)))
    ensures Abs(WithZone(b, ForcedZone(b, t))) == Abs(b).(zone := Rules.NextZone(Abs(b).cells, Abs(b).won, t))
  {
    OccupiedChunkFull(b, t);
    WonBit(b, t);
    WriteZone(b, ForcedZone(b, t), WithZone(b, ForcedZone(b, t)));
  }

  /** The three steps of `playMove` compose to the rule-level move. */
  lemma MovedSpec(b: Board, mv: nat, side: Rules.Side)
    requires Playable(b, mv)
    ensures Moved(b, mv, side) == Encode(Rules.Play(Abs(b), mv, side))
  {
    var b1 := Placed(b, mv, side);
    PlacedSpec(b, mv, side);
    ZoneGridWord(b1, mv / 9, side);
    var lineWon := Rules.HasLine(GridOf(ZoneWord(b1, mv / 9, side)));
    var b2 := WithWon(b1, mv / 9, side, lineWon);
    WithWonSpec(b1, mv / 9, side, lineWon);
    ForcedZoneSpec(b2, mv % 9);
    EncodeAbs(Moved(b, mv, side));
  }

  /**
   * A legal move played on a valid board gives a valid board for the
   * position after the move: the layout invariants, the won bits and the
   * forced zone all stay consistent.
   */
  lemma MovedValid(b: Board, mv: nat, side: Rules.Side)
    requires Valid(b) && Rules.Legal(Abs(b), mv)
    ensures Playable(b, mv)
    ensures Valid(Moved(b, mv, side))
    ensures Abs(Moved(b, mv, side)) == Rules.Play(Abs(b), mv, side)
  {
    LegalIsPlayable(b, mv);
    MovedSpec(b, mv, side);
    AbsEncode(Rules.Play(Abs(b), mv, side));
    Rules.PlayPreservesValid(Abs(b), mv, side);
  }

  /** Writing the zone field stores exactly the zone written, on any words. */
  lemma WithZoneField(b: Board, zone: nat)
    requires zone < 16
    ensures ZoneField(WithZone(b, zone).share) == zone
  {
    assert Pow2(4) == 16;
    FromNatValue(zone, 4);
    ExclZone();
    ZoneFieldOf(WithZone(b, zone).share, zone);
  }

  /** Whatever the words, a move leaves a zone field of 0..9, as `generate_moves` expects. */
  lemma MovedZone(b: Board, mv: nat, side: Rules.Side)
    requires mv < 81
    ensures ZoneField(Moved(b, mv, side).share) <= 9
  {
    var b1 := Placed(b, mv, side);
    var b2 := WithWon(b1, mv / 9, side, Rules.HasLine(GridOf(ZoneWord(b1, mv / 9, side))));
    WithZoneField(b2, ForcedZone(b2, mv % 9));
  }
}
