/**
 * The heuristic evaluation of the bitboard engines, stated on a rule-level
 * position with the table entries replaced by their specification.
 *
 * The large grid is looked up first: a decisive entry is the result. A large
 * grid whose nine zones are all won by someone, with no line, is a draw.
 * Otherwise the large entry is added to the small entry of every zone that
 * is neither won nor full, and the sum is negated for the second player.
 */
module Evaluation {
  import opened Rules
  import opened Tables
  import opened LineHelpers

  /** A score from the first player's point of view, turned to `side`'s: negated for the second player. */
  function ForSide(side: Side, x: int): int {
    if side == 0 then x else -x
  }

  /** The large-table entry of the large grid. */
  function LargeScore(s: State): int
    requires WellFormed(s)
  {
    LargeEntry(WonGrid(s.won, First), WonGrid(s.won, Second))
  }

  /** Every zone of the large grid has been won by someone. */
  predicate Decided(s: State)
    requires WellFormed(s)
  {
    forall z :: 0 <= z < 9 ==> s.won[z] != Empty
  }

  /** A zone that is won or full: it takes no part in the small-grid sum. */
  predicate Closed(s: State, z: nat)
    requires WellFormed(s) && z < 9
  {
    s.won[z] != Empty || ZoneFull(s.cells, z)
  }

  /** The small-table entry of zone z, or 0 for a closed zone. */
  function ZoneScore(s: State, z: nat): int
    requires WellFormed(s) && z < 9
  {
    if Closed(s, z) then 0 else SmallEntry(ZoneGrid(s.cells, z, First), ZoneGrid(s.cells, z, Second))
  }

  /** The sum of the zone scores of zones 0..n-1. */
  function ZonesScore(s: State, n: nat): int
    requires WellFormed(s) && n <= 9
  {
    if n == 0 then 0 else ZonesScore(s, n - 1) + ZoneScore(s, n - 1)
  }

  /** The evaluation of position s for `side`. */
  function Eval(s: State, side: Side): int
    requires WellFormed(s)
  {
    var e := LargeScore(s);
    if e == OUTCOME_WIN || e == OUTCOME_LOSS then ForSide(side, e)
    else if Decided(s) then OUTCOME_DRAW
    else ForSide(side, e + ZonesScore(s, 9))
  }

  // ---------------------------------------------------------------------
  // Properties.

  /** The evaluation for the second player is minus the evaluation for the first. */
  lemma EvalNegamax(s: State)
    requires WellFormed(s)
    ensures Eval(s, 1) == -Eval(s, 0)
  {
  }

  lemma WonGridsDisjoint(s: State)
    requires WellFormed(s)
    ensures Tables.Disjoint(WonGrid(s.won, First), WonGrid(s.won, Second))
  {
  }

  lemma {:induction false} ZonesScoreBound(s: State, n: nat)
    requires WellFormed(s) && n <= 9
    ensures -121 * n <= ZonesScore(s, n) <= 121 * n
  {
    if n > 0 {
      ZonesScoreBound(s, n - 1);
      var z := n - 1;
      if !Closed(s, z) {
        SmallEntryBound(ZoneGrid(s.cells, z, First), ZoneGrid(s.cells, z, Second));
      }
    }
  }

  /**
   * The evaluation is a win or loss sentinel exactly when the large grid has
   * a line: the win sentinel for the player who alone has one. Otherwise it
   * is at most 2145 + 9 * 121 = 3234 in magnitude.
   */
  lemma EvalRange(s: State, side: Side)
    requires WellFormed(s)
    ensures (Eval(s, side) == OUTCOME_WIN || Eval(s, side) == OUTCOME_LOSS) <==> GameOver(s)
    ensures HasLine(WonGrid(s.won, MarkOf(side))) && !HasLine(WonGrid(s.won, MarkOf(Opponent(side))))
      ==> Eval(s, side) == OUTCOME_WIN
    ensures !GameOver(s) ==> -3234 <= Eval(s, side) <= 3234
  {
    var u, t := WonGrid(s.won, First), WonGrid(s.won, Second);
    WonGridsDisjoint(s);
    FirstDecisiveMeaning(u, t);
    LargeEntryRange(u, t);
    ZonesScoreBound(s, 9);
  }

  // ---------------------------------------------------------------------
  // The zones the engines skip would score 0 anyway.

  lemma ZoneGridsDisjoint(s: State, z: nat)
    requires WellFormed(s) && z < 9
    ensures Tables.Disjoint(ZoneGrid(s.cells, z, First), ZoneGrid(s.cells, z, Second))
  {
  }

  /** In a valid position a won or full zone has small entry 0, so skipping it changes nothing. */
  lemma ClosedZoneScoresZero(s: State, z: nat)
    requires Valid(s) && z < 9 && Closed(s, z)
    ensures SmallEntry(ZoneGrid(s.cells, z, First), ZoneGrid(s.cells, z, Second)) == 0
  {
    var u, t := ZoneGrid(s.cells, z, First), ZoneGrid(s.cells, z, Second);
    ZoneGridsDisjoint(s, z);
    FirstDecisiveMeaning(u, t);
    if s.won[z] == Empty {
      forall c | 0 <= c < 9 ensures Union(u, t)[c] {
        assert s.cells[9 * z .. 9 * z + 9][c] == s.cells[9 * z + c];
      }
      CountNine(Union(u, t));
    }
  }

  /** The sum of the small entries of every zone, closed or not. */
  function AllZonesScore(s: State, n: nat): int
    requires WellFormed(s) && n <= 9
  {
    if n == 0 then 0
    else AllZonesScore(s, n - 1) + SmallEntry(ZoneGrid(s.cells, n - 1, First), ZoneGrid(s.cells, n - 1, Second))
  }

  lemma {:induction false} SkippingIsExact(s: State, n: nat)
    requires Valid(s) && n <= 9
    ensures ZonesScore(s, n) == AllZonesScore(s, n)
  {
    if n > 0 {
      SkippingIsExact(s, n - 1);
      if Closed(s, n - 1) {
        ClosedZoneScoresZero(s, n - 1);
      }
    }
  }

  // ---------------------------------------------------------------------
  // Exchanging the players negates the evaluation.

  function SwapMark(m: Mark): Mark {
    match m
    case Empty => Empty
    case First => Second
    case Second => First
  }

  /** The position with the two players' marks exchanged. */
  function Mirror(s: State): (r: State)
    requires WellFormed(s)
    ensures WellFormed(r)
  {
    State(seq(81, m requires 0 <= m < 81 => SwapMark(s.cells[m])),
          seq(9, z requires 0 <= z < 9 => SwapMark(s.won[z])),
          s.zone)
  }

  lemma MirrorGrids(s: State, z: nat)
    requires WellFormed(s) && z < 9
    ensures ZoneGrid(Mirror(s).cells, z, First) == ZoneGrid(s.cells, z, Second)
    ensures ZoneGrid(Mirror(s).cells, z, Second) == ZoneGrid(s.cells, z, First)
    ensures ZoneFull(Mirror(s).cells, z) == ZoneFull(s.cells, z)
    ensures (Mirror(s).won[z] == Empty) == (s.won[z] == Empty)
  {
    var t := Mirror(s);
    forall m | 0 <= m < 81 ensures t.cells[m] == SwapMark(s.cells[m]) {
    }
    SwappedZone(s.cells, t.cells, z);
    assert t.won[z] == SwapMark(s.won[z]);
  }

  /** A zone whose marks are swapped has the two sides' grids exchanged and the same empty cells. */
  lemma SwappedZone(cells: seq<Mark>, swapped: seq<Mark>, z: nat)
    requires |cells| == 81 && |swapped| == 81 && z < 9
    requires forall m :: 0 <= m < 81 ==> swapped[m] == SwapMark(cells[m])
    ensures ZoneGrid(swapped, z, First) == ZoneGrid(cells, z, Second)
    ensures ZoneGrid(swapped, z, Second) == ZoneGrid(cells, z, First)
    ensures ZoneFull(swapped, z) == ZoneFull(cells, z)
  {
    var a, b := swapped[9 * z .. 9 * z + 9], cells[9 * z .. 9 * z + 9];
    assert forall c :: 0 <= c < 9 ==> a[c] == swapped[9 * z + c] && b[c] == cells[9 * z + c];
    if Empty in a {
      var c :| 0 <= c < 9 && a[c] == Empty;
      assert b[c] == Empty;
    }
    if Empty in b {
      var c :| 0 <= c < 9 && b[c] == Empty;
      assert a[c] == Empty;
    }
  }

  lemma {:induction false} MirrorZones(s: State, n: nat)
    requires WellFormed(s) && n <= 9
    ensures ZonesScore(Mirror(s), n) == -ZonesScore(s, n)
  {
    if n > 0 {
      MirrorZones(s, n - 1);
      var z := n - 1;
      MirrorGrids(s, z);
      EntriesAntisymmetric(ZoneGrid(s.cells, z, First), ZoneGrid(s.cells, z, Second));
    }
  }

  /** The evaluation is colour-blind: exchanging the players' marks negates it. */
  lemma EvalMirror(s: State, side: Side)
    requires WellFormed(s)
    ensures Eval(Mirror(s), side) == -Eval(s, side)
  {
    var r := Mirror(s);
    assert WonGrid(r.won, First) == WonGrid(s.won, Second);
    assert WonGrid(r.won, Second) == WonGrid(s.won, First);
    EntriesAntisymmetric(WonGrid(s.won, First), WonGrid(s.won, Second));
    MirrorZones(s, 9);
    assert Decided(r) == Decided(s);
  }
}
