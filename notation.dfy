/**
 * Move and score notation of the drivers: `moveString`/`moveFromString`
 * and `evalString` of src/Java/UT3B2L.java, which the Rust `move_string`
 * and `eval_string` and the Python `move_string` and `eval_string` repeat
 * character for character.
 */
module Notation {
  import opened Text
  import opened Tables
  import Rules
  import Evaluation

  datatype Option<T> = None | Some(value: T)

  /** `ZONE_ARRAY_LOWER`: the names of the nine zones, and of the nine cells of a zone. */
  const ZONE_NAMES: seq<string> := ["nw", "n", "ne", "w", "c", "e", "sw", "s", "se"]

  /** The names are distinct, and none holds '/', ' ' or a digit, or is "any". */
  lemma ZoneNames()
    ensures |ZONE_NAMES| == 9
    ensures forall i, j :: 0 <= i < 9 && 0 <= j < 9 && ZONE_NAMES[i] == ZONE_NAMES[j] ==> i == j
    ensures forall i :: 0 <= i < 9 ==> '/' !in ZONE_NAMES[i] && ' ' !in ZONE_NAMES[i]
    ensures forall i :: 0 <= i < 9 ==> NoRunDigits(ZONE_NAMES[i]) && ZONE_NAMES[i] != "any"
  {
    forall i, j | 0 <= i < 9 && 0 <= j < 9 && ZONE_NAMES[i] == ZONE_NAMES[j] ensures i == j {
      assert |ZONE_NAMES[i]| == |ZONE_NAMES[j]| && ZONE_NAMES[i][0] == ZONE_NAMES[j][0];
      assert |ZONE_NAMES[i]| == 2 ==> ZONE_NAMES[i][1] == ZONE_NAMES[j][1];
    }
  }

  // ---------------------------------------------------------------------
  // Moves.

  /** `moveString(move)`: the zone name, '/', the cell name. */
  function MoveString(move: int): string
    requires 0 <= move < 81
  {
    ZONE_NAMES[move / 9] + "/" + ZONE_NAMES[move % 9]
  }

  /**
   * A move string, with any number of '/' after it, splits (Java's
   * `split`, which drops trailing empty fields) into the zone name and the
   * cell name.
   */
  lemma MoveStringFields(move: int, k: nat)
    requires 0 <= move < 81
    ensures JavaSplit(MoveString(move) + Seps(k, '/'), '/') == [ZONE_NAMES[move / 9], ZONE_NAMES[move % 9]]
  {
    ZoneNames();
    var a, b := ZONE_NAMES[move / 9], ZONE_NAMES[move % 9];
    var s := MoveString(move) + Seps(k, '/');
    assert s == a + ['/'] + (b + Seps(k, '/'));
    SplitAppend(a, b + Seps(k, '/'), '/');
    SplitTrailing(b, k, '/');
    assert [a] + ([b] + Empties(k)) == [a, b] + Empties(k);
    DropEmptyTrailing([a, b], k);
    assert s[|a|] == '/';
  }

  /** Different moves have different strings. */
  lemma MoveStringInjective(m: int, n: int)
    requires 0 <= m < 81 && 0 <= n < 81 && MoveString(m) == MoveString(n)
    ensures m == n
  {
    MoveStringFields(m, 0);
    MoveStringFields(n, 0);
    assert MoveString(m) + Seps(0, '/') == MoveString(m);
    assert MoveString(n) + Seps(0, '/') == MoveString(n);
    ZoneNames();
  }

  /** The text names move m: it is the move's string with any number of '/' after it. */
  ghost predicate Spells(text: string, m: int) {
    0 <= m < 81 && exists k :: text == MoveString(m) + Seps(k, '/')
  }

  /**
   * `moveFromString(moveString)`: the string is split at '/'; unless there
   * are exactly two fields, each of them one of the nine names, it is
   * rejected (FormatException, here None). What is accepted is exactly a
   * move string with any number of '/' after it (the trailing empty fields
   * the split drops), and it is read as that move.
   */
  method MoveFromString(moveString: string) returns (r: Option<int>)
    ensures r.Some? ==> Spells(moveString, r.value)
    ensures forall m :: Spells(moveString, m) ==> r == Some(m)
  {
    var zoneAndSquare := JavaSplit(moveString, '/');
    if |zoneAndSquare| != 2 {
      Unspelled(moveString);
      return None;
    }
    var zone, square := -1, -1;
    for i := 0 to 9
      invariant -1 <= zone < i && -1 <= square < i
      invariant zone == -1 <==> forall j :: 0 <= j < i ==> zoneAndSquare[0] != ZONE_NAMES[j]
      invariant zone != -1 ==> zoneAndSquare[0] == ZONE_NAMES[zone]
      invariant square == -1 <==> forall j :: 0 <= j < i ==> zoneAndSquare[1] != ZONE_NAMES[j]
      invariant square != -1 ==> zoneAndSquare[1] == ZONE_NAMES[square]
    {
      if zoneAndSquare[0] == ZONE_NAMES[i] {
        zone := i;
      }
      if zoneAndSquare[1] == ZONE_NAMES[i] {
        square := i;
      }
    }
    if zone == -1 || square == -1 {
      Unspelled(moveString);
      return None;
    }
    var move := 9 * zone + square;
    assert move / 9 == zone && move % 9 == square;
    Spelled(moveString, move);
    r := Some(move);
  }

  /** A text whose split is not two zone names spells no move. */
  lemma Unspelled(text: string)
    requires var f := JavaSplit(text, '/');
      |f| != 2 || (forall j :: 0 <= j < 9 ==> f[0] != ZONE_NAMES[j]) || (forall j :: 0 <= j < 9 ==> f[1] != ZONE_NAMES[j])
    ensures forall m :: !Spells(text, m)
  {
    forall m | 0 <= m < 81 ensures !Spells(text, m) {
      forall k ensures text != MoveString(m) + Seps(k, '/') {
        MoveStringFields(m, k);
      }
    }
  }

  /** A text that splits into the names of move's zone and cell spells that move and no other. */
  lemma Spelled(text: string, move: int)
    requires 0 <= move < 81 && JavaSplit(text, '/') == [ZONE_NAMES[move / 9], ZONE_NAMES[move % 9]]
    ensures Spells(text, move)
    ensures forall m :: Spells(text, m) ==> m == move
  {
    ZoneNames();
    JavaSplitJoin(text, '/');
    assert Join(JavaSplit(text, '/'), '/') == MoveString(move);
    forall m | Spells(text, m) ensures m == move {
      var k :| text == MoveString(m) + Seps(k, '/');
      MoveStringFields(m, k);
    }
  }

  // ---------------------------------------------------------------------
  // Scores.

  /**
   * `evalString(eval, maxDepth)`: "L" and the plies to the loss within
   * maxDepth of the loss sentinel, then "W" and the plies to the win, "D0"
   * for the draw score, "+" and the number for a positive score, and the
   * number (with its '-') otherwise.
   */
  function EvalString(eval: int, maxDepth: int): string {
    if eval <= OUTCOME_LOSS + maxDepth then "L" + IntString(eval - OUTCOME_LOSS)
    else if eval >= OUTCOME_WIN - maxDepth then "W" + IntString(OUTCOME_WIN - eval)
    else if eval == OUTCOME_DRAW then "D0"
    else if eval > 0 then "+" + IntString(eval)
    else IntString(eval)
  }

  /** The band a score falls in: loss, win, draw, positive, negative. */
  function Band(eval: int, maxDepth: int): nat {
    if eval <= OUTCOME_LOSS + maxDepth then 0
    else if eval >= OUTCOME_WIN - maxDepth then 1
    else if eval == OUTCOME_DRAW then 2
    else if eval > 0 then 3
    else 4
  }

  /** The first character of a score string names its band. */
  lemma EvalStringBand(eval: int, maxDepth: int)
    ensures |EvalString(eval, maxDepth)| >= 2
    ensures EvalString(eval, maxDepth)[0] == "LWD+-"[Band(eval, maxDepth)]
  {
    var n := if eval <= OUTCOME_LOSS + maxDepth then eval - OUTCOME_LOSS
             else if eval >= OUTCOME_WIN - maxDepth then OUTCOME_WIN - eval
             else eval;
    if Band(eval, maxDepth) == 4 {
      assert IntString(eval) == "-" + NatString(-eval);
    } else if Band(eval, maxDepth) != 2 {
      assert |IntString(n)| >= 1;
    }
  }

  /** The score string loses nothing: different scores have different strings. */
  lemma EvalStringInjective(e1: int, e2: int, maxDepth: int)
    requires EvalString(e1, maxDepth) == EvalString(e2, maxDepth)
    ensures e1 == e2
  {
    EvalStringBand(e1, maxDepth);
    EvalStringBand(e2, maxDepth);
    assert Band(e1, maxDepth) == Band(e2, maxDepth);
    SameBandInjective(e1, e2, maxDepth);
  }

  /** Within one band, the number after the letter tells the scores apart. */
  lemma SameBandInjective(e1: int, e2: int, maxDepth: int)
    requires EvalString(e1, maxDepth) == EvalString(e2, maxDepth) && Band(e1, maxDepth) == Band(e2, maxDepth)
    ensures e1 == e2
  {
    var band := Band(e1, maxDepth);
    EvalStringTail(e1, maxDepth);
    EvalStringTail(e2, maxDepth);
    if band == 0 {
      IntStringInjective(e1 - OUTCOME_LOSS, e2 - OUTCOME_LOSS);
    } else if band == 1 {
      IntStringInjective(OUTCOME_WIN - e1, OUTCOME_WIN - e2);
    } else if band != 2 {
      IntStringInjective(e1, e2);
    }
  }

  /** After its band letter, a score string holds the number it shows. */
  lemma EvalStringTail(eval: int, maxDepth: int)
    ensures |EvalString(eval, maxDepth)| >= 1
    ensures Band(eval, maxDepth) == 0 ==> EvalString(eval, maxDepth)[1..] == IntString(eval - OUTCOME_LOSS)
    ensures Band(eval, maxDepth) == 1 ==> EvalString(eval, maxDepth)[1..] == IntString(OUTCOME_WIN - eval)
    ensures Band(eval, maxDepth) == 2 ==> EvalString(eval, maxDepth) == "D0"
    ensures Band(eval, maxDepth) == 3 ==> EvalString(eval, maxDepth)[1..] == IntString(eval)
    ensures Band(eval, maxDepth) == 4 ==> EvalString(eval, maxDepth) == IntString(eval)
  {
  }

  /**
   * A win found n plies from the root, `OUTCOME_WIN - n` with n within
   * maxDepth, is written "W" and n; a loss, "L" and n.
   */
  lemma EvalStringMate(n: nat, maxDepth: nat)
    requires n <= maxDepth < OUTCOME_WIN
    ensures EvalString(OUTCOME_WIN - n, maxDepth) == "W" + NatString(n)
    ensures EvalString(OUTCOME_LOSS + n, maxDepth) == "L" + NatString(n)
  {
  }

  /**
   * The static evaluation of an unfinished game, at most 3234 in
   * magnitude, is never written as a win or a loss while maxDepth stays
   * below OUTCOME_WIN - 3234.
   */
  lemma EvalStringOfEvaluation(s: Rules.State, side: Rules.Side, maxDepth: nat)
    requires Rules.WellFormed(s) && !Rules.GameOver(s) && maxDepth < OUTCOME_WIN - 3234
    ensures EvalString(Evaluation.Eval(s, side), maxDepth)[0] in {'D', '+', '-'}
  {
    Evaluation.EvalRange(s, side);
    EvalStringBand(Evaluation.Eval(s, side), maxDepth);
  }
}
