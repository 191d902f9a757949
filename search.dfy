/**
 * The fail-hard negamax alpha-beta search of the three bitboard engines,
 * stated on rule-level positions, with the evaluation tables replaced by
 * their specification.
 *
 * The three ports share the loop over the moves (a child searched with the
 * window (-beta, -alpha), the move written at ply `maxDepth - depth` of the
 * child's line, a cutoff returning beta, alpha raised only on a strict
 * improvement) and differ at the leaves:
 *   Rust    tests the depth first, returns the static evaluation unchanged,
 *           and every line is an array of MAX_PLY slots holding NULL_MOVE;
 *   Java    tests the depth first, moves a sentinel evaluation inward by
 *           maxDepth, and its lines are fresh int arrays (slots hold 0);
 *   Python  tests for a position without moves first, so a finished game at
 *           the horizon is scored by mate distance; unwritten slots hold
 *           None, written NULL_MOVE here.
 */
module Search {
  import opened Rules
  import opened Tables
  import Evaluation

  /** Which engine's leaf handling is meant. */
  datatype Port = RustPort | JavaPort | PythonPort

  /** The length of the Rust line array. */
  const MAX_PLY: nat := 81

  /** What an unwritten slot of a line holds. */
  function Filler(p: Port): int {
    if p == JavaPort then 0 else NULL_MOVE
  }

  /** A line of n unwritten slots. */
  function Blank(p: Port, n: nat): (r: seq<int>)
    ensures |r| == n && forall i :: 0 <= i < n ==> r[i] == Filler(p)
  {
    seq(n, _ => Filler(p))
  }

  /** The line a leaf at the horizon returns, and the line a search loop starts from. */
  function HorizonLine(p: Port, maxDepth: nat): seq<int> {
    Blank(p, if p == RustPort then MAX_PLY else maxDepth)
  }

  /** The line a node without moves at `depth` returns. */
  function NoMovesLine(p: Port, depth: nat, maxDepth: nat): seq<int>
    requires depth <= maxDepth
  {
    Blank(p, if p == RustPort then MAX_PLY else maxDepth - depth)
  }

  /** A win or loss sentinel moved toward zero by `plies`; any other score unchanged. */
  function Shifted(e: int, plies: nat): int {
    if e == OUTCOME_WIN then e - plies else if e == OUTCOME_LOSS then e + plies else e
  }

  /**
   * What the search consults about a position: the moves in the order the
   * engine generates them, the position after a move, the static
   * evaluation for a side, and the large-grid table entry for a side.
   */
  datatype Game<!S> = Game(
    moves: S -> seq<int>,
    play: (S, int, Side) -> S,
    eval: (S, Side) -> int,
    large: (S, Side) -> int)

  /**
   * The score of a node without moves: the large-grid entry for `side`,
   * moved inward by the plies from the root when it is decisive, and the
   * draw score otherwise.
   */
  function NoMovesScore<S>(g: Game<S>, s: S, side: Side, depth: nat, maxDepth: nat): int
    requires depth <= maxDepth
  {
    var e := g.large(s, side);
    if e == OUTCOME_WIN || e == OUTCOME_LOSS then Shifted(e, maxDepth - depth) else OUTCOME_DRAW
  }

  /** The score of a leaf at the horizon: the static evaluation, moved inward by maxDepth in Java. */
  function HorizonScore<S>(g: Game<S>, p: Port, s: S, side: Side, maxDepth: nat): int {
    var e := g.eval(s, side);
    if p == JavaPort then Shifted(e, maxDepth) else e
  }

  /** The node is scored by the static evaluation: depth 0, and (Python only) some move exists. */
  predicate AtHorizon<S>(g: Game<S>, p: Port, s: S, depth: nat) {
    depth == 0 && (p != PythonPort || g.moves(s) != [])
  }

  /**
   * The arguments modelled: a remaining depth within the maximum, and for
   * Rust a maximum of at most MAX_PLY, so that every slot the line writes
   * lies within the array.
   */
  predicate Bounds(p: Port, depth: nat, maxDepth: nat) {
    depth <= maxDepth && (p == RustPort ==> maxDepth <= MAX_PLY)
  }

  /** `alphaBeta(board, side, depth, alpha, beta, maxDepth)`: the score and the line. */
  function AlphaBeta<S>(g: Game<S>, p: Port, s: S, side: Side, depth: nat, alpha: int, beta: int, maxDepth: nat)
    : (r: (int, seq<int>))
    requires Bounds(p, depth, maxDepth)
    ensures |r.1| >= maxDepth - depth
    ensures p == RustPort ==> |r.1| == MAX_PLY
    decreases depth, 1, 0
  {
    if AtHorizon(g, p, s, depth) then (HorizonScore(g, p, s, side, maxDepth), HorizonLine(p, maxDepth))
    else if g.moves(s) == [] then (NoMovesScore(g, s, side, depth, maxDepth), NoMovesLine(p, depth, maxDepth))
    else Sweep(g, p, s, side, depth, g.moves(s), alpha, beta, maxDepth, HorizonLine(p, maxDepth))
  }

  /**
   * The loop over the moves from `moves` on, with the current alpha and
   * principal line: each child is searched with (-beta, -alpha), the move is
   * written at slot `maxDepth - depth` of the child's line, a score of at
   * least beta returns beta with that line, and a score above alpha
   * replaces alpha and the principal line.
   */
  function Sweep<S>(g: Game<S>, p: Port, s: S, side: Side, depth: nat, moves: seq<int>, alpha: int, beta: int,
                    maxDepth: nat, pv: seq<int>): (r: (int, seq<int>))
    requires 1 <= depth && Bounds(p, depth, maxDepth)
    requires |pv| > maxDepth - depth && (p == RustPort ==> |pv| == MAX_PLY)
    ensures |r.1| > maxDepth - depth
    ensures p == RustPort ==> |r.1| == MAX_PLY
    decreases depth, 0, |moves|
  {
    if moves == [] then (alpha, pv)
    else
      var child := AlphaBeta(g, p, g.play(s, moves[0], side), Opponent(side), depth - 1, -beta, -alpha, maxDepth);
      var eval := -child.0;
      var line := child.1[maxDepth - depth := moves[0]];
      if eval >= beta then (beta, line)
      else if eval > alpha then Sweep(g, p, s, side, depth, moves[1..], eval, beta, maxDepth, line)
      else Sweep(g, p, s, side, depth, moves[1..], alpha, beta, maxDepth, pv)
  }

  /**
   * The game the bitboard engines search: the legal moves in ascending
   * order, the rule-level move, and the table-driven evaluation. Positions
   * that are not well formed are never reached; they get fixed answers.
   */
  function RulesGame(): Game<State> {
    Game(
      s => if WellFormed(s) then Moves(s) else [],
      (s, m, side) => if WellFormed(s) && 0 <= m < 81 then Play(s, m, side) else s,
      (s, side) => if WellFormed(s) then Evaluation.Eval(s, side) else 0,
      (s, side) => if WellFormed(s) then Evaluation.ForSide(side, Evaluation.LargeScore(s)) else 0)
  }

  /** What the rules game answers on a well-formed position. */
  lemma RulesGameAt(s: State, side: Side)
    requires WellFormed(s)
    ensures RulesGame().moves(s) == Moves(s)
    ensures RulesGame().eval(s, side) == Evaluation.Eval(s, side)
    ensures RulesGame().large(s, side) == Evaluation.ForSide(side, Evaluation.LargeScore(s))
    ensures forall m :: 0 <= m < 81 ==> RulesGame().play(s, m, side) == Play(s, m, side)
  {
  }

  // ---------------------------------------------------------------------
  // The cases of a node and one step of the loop, as the engines take them.

  /** A node at the horizon is scored by the static evaluation, with an unwritten line. */
  lemma HorizonNode<S>(g: Game<S>, p: Port, s: S, side: Side, depth: nat, alpha: int, beta: int, maxDepth: nat)
    requires Bounds(p, depth, maxDepth) && AtHorizon(g, p, s, depth)
    ensures AlphaBeta(g, p, s, side, depth, alpha, beta, maxDepth)
         == (HorizonScore(g, p, s, side, maxDepth), HorizonLine(p, maxDepth))
  {
  }

  /** A node without moves, before the horizon, is scored by mate distance or as a draw. */
  lemma NoMovesNode<S>(g: Game<S>, p: Port, s: S, side: Side, depth: nat, alpha: int, beta: int, maxDepth: nat)
    requires Bounds(p, depth, maxDepth) && !AtHorizon(g, p, s, depth) && g.moves(s) == []
    ensures AlphaBeta(g, p, s, side, depth, alpha, beta, maxDepth)
         == (NoMovesScore(g, s, side, depth, maxDepth), NoMovesLine(p, depth, maxDepth))
  {
  }

  /** A node with moves, before the horizon, runs the loop from alpha and an unwritten line. */
  lemma InnerNode<S>(g: Game<S>, p: Port, s: S, side: Side, depth: nat, alpha: int, beta: int, maxDepth: nat)
    requires Bounds(p, depth, maxDepth) && !AtHorizon(g, p, s, depth) && g.moves(s) != []
    ensures depth >= 1
    ensures AlphaBeta(g, p, s, side, depth, alpha, beta, maxDepth)
         == Sweep(g, p, s, side, depth, g.moves(s), alpha, beta, maxDepth, HorizonLine(p, maxDepth))
  {
  }

  /**
   * One turn of the loop: given the child reached by the move at position i
   * and its search result, the loop from i is the cutoff, or the loop from
   * i + 1 with alpha and the line replaced, or the loop from i + 1 unchanged.
   */
  lemma SweepTurn<S>(g: Game<S>, p: Port, s: S, side: Side, depth: nat, moves: seq<int>, i: nat,
                     alpha: int, beta: int, maxDepth: nat, pv: seq<int>, child: S, score: int, line: seq<int>)
    requires 1 <= depth && Bounds(p, depth, maxDepth) && i < |moves|
    requires |pv| > maxDepth - depth && (p == RustPort ==> |pv| == MAX_PLY)
    requires child == g.play(s, moves[i], side)
    requires (score, line) == AlphaBeta(g, p, child, Opponent(side), depth - 1, -beta, -alpha, maxDepth)
    ensures |line| > maxDepth - depth && (p == RustPort ==> |line| == MAX_PLY)
    ensures var written := line[maxDepth - depth := moves[i]];
      Sweep(g, p, s, side, depth, moves[i..], alpha, beta, maxDepth, pv)
        == if -score >= beta then (beta, written)
           else if -score > alpha then Sweep(g, p, s, side, depth, moves[i + 1..], -score, beta, maxDepth, written)
           else Sweep(g, p, s, side, depth, moves[i + 1..], alpha, beta, maxDepth, pv)
  {
    assert moves[i..][0] == moves[i] && moves[i..][1..] == moves[i + 1..];
  }

  // ---------------------------------------------------------------------
  // The reference: plain negamax, without a window.

  /** The negamax value of a node, with the same leaves as the search. */
  function Value<S>(g: Game<S>, p: Port, s: S, side: Side, depth: nat, maxDepth: nat): int
    requires Bounds(p, depth, maxDepth)
    decreases depth, 1, 0
  {
    if AtHorizon(g, p, s, depth) then HorizonScore(g, p, s, side, maxDepth)
    else if g.moves(s) == [] then NoMovesScore(g, s, side, depth, maxDepth)
    else Best(g, p, s, side, depth, g.moves(s), maxDepth)
  }

  /** The best of the negated child values over a nonempty list of moves. */
  function Best<S>(g: Game<S>, p: Port, s: S, side: Side, depth: nat, moves: seq<int>, maxDepth: nat): int
    requires 1 <= depth && Bounds(p, depth, maxDepth) && moves != []
    decreases depth, 0, |moves|
  {
    var e := -Value(g, p, g.play(s, moves[0], side), Opponent(side), depth - 1, maxDepth);
    if |moves| == 1 then e else Max(e, Best(g, p, s, side, depth, moves[1..], maxDepth))
  }

  function Max(a: int, b: int): int {
    if a >= b then a else b
  }

  /** x limited to the window [lo, hi]. */
  function Clamp(x: int, lo: int, hi: int): (r: int)
    requires lo <= hi
    ensures lo <= r <= hi
    ensures lo < r < hi ==> r == x
  {
    if x < lo then lo else if x > hi then hi else x
  }

  // ---------------------------------------------------------------------
  // What the search computes.

  /**
   * Fail-hard alpha-beta is exact inside the window: for alpha < beta the
   * search score and the negamax value agree once limited to [alpha, beta],
   * and a node that searches its moves scores within the window.
   */
  lemma {:induction false} AlphaBetaValue<S>(g: Game<S>, p: Port, s: S, side: Side, depth: nat, alpha: int, beta: int,
                                             maxDepth: nat)
    requires Bounds(p, depth, maxDepth) && alpha < beta
    ensures Clamp(AlphaBeta(g, p, s, side, depth, alpha, beta, maxDepth).0, alpha, beta)
         == Clamp(Value(g, p, s, side, depth, maxDepth), alpha, beta)
    ensures !AtHorizon(g, p, s, depth) && g.moves(s) != [] ==>
      alpha <= AlphaBeta(g, p, s, side, depth, alpha, beta, maxDepth).0 <= beta
    decreases depth, 1, 0
  {
    if !AtHorizon(g, p, s, depth) && g.moves(s) != [] {
      SweepValue(g, p, s, side, depth, g.moves(s), alpha, beta, maxDepth, HorizonLine(p, maxDepth));
    }
  }

  /** The loop from alpha computes the best child value limited to [alpha, beta]. */
  lemma {:induction false} SweepValue<S>(g: Game<S>, p: Port, s: S, side: Side, depth: nat, moves: seq<int>,
                                         alpha: int, beta: int, maxDepth: nat, pv: seq<int>)
    requires 1 <= depth && Bounds(p, depth, maxDepth) && alpha < beta
    requires |pv| > maxDepth - depth && (p == RustPort ==> |pv| == MAX_PLY)
    ensures Sweep(g, p, s, side, depth, moves, alpha, beta, maxDepth, pv).0
         == if moves == [] then alpha else Clamp(Best(g, p, s, side, depth, moves, maxDepth), alpha, beta)
    decreases depth, 0, |moves|, 1
  {
    if moves != [] {
      var c := g.play(s, moves[0], side);
      var child := AlphaBeta(g, p, c, Opponent(side), depth - 1, -beta, -alpha, maxDepth);
      var v := Value(g, p, c, Opponent(side), depth - 1, maxDepth);
      ChildClamp(g, p, s, side, depth, moves, alpha, beta, maxDepth);
      var eval := -child.0;
      var line := child.1[maxDepth - depth := moves[0]];
      var rest := moves[1..];
      var r := Sweep(g, p, s, side, depth, moves, alpha, beta, maxDepth, pv).0;
      var br := if rest == [] then 0 else Best(g, p, s, side, depth, rest, maxDepth);
      if eval >= beta {
        assert r == beta;
      } else if eval > alpha {
        assert r == Sweep(g, p, s, side, depth, rest, eval, beta, maxDepth, line).0;
        SweepValue(g, p, s, side, depth, rest, eval, beta, maxDepth, line);
        assert r == if rest == [] then eval else Clamp(br, eval, beta);
      } else {
        assert r == Sweep(g, p, s, side, depth, rest, alpha, beta, maxDepth, pv).0;
        SweepValue(g, p, s, side, depth, rest, alpha, beta, maxDepth, pv);
        assert r == if rest == [] then alpha else Clamp(br, alpha, beta);
      }
      assert Best(g, p, s, side, depth, moves, maxDepth) == if rest == [] then -v else Max(-v, br);
      ClampStep(eval, -v, alpha, beta, rest != [], br, r);
    }
  }

  /** The first child's negated score and its negated value agree once limited to [alpha, beta]. */
  lemma ChildClamp<S>(g: Game<S>, p: Port, s: S, side: Side, depth: nat, moves: seq<int>, alpha: int, beta: int,
                      maxDepth: nat)
    requires 1 <= depth && Bounds(p, depth, maxDepth) && alpha < beta && moves != []
    ensures var c := g.play(s, moves[0], side);
      Clamp(-AlphaBeta(g, p, c, Opponent(side), depth - 1, -beta, -alpha, maxDepth).0, alpha, beta)
      == Clamp(-Value(g, p, c, Opponent(side), depth - 1, maxDepth), alpha, beta)
    decreases depth, 0, |moves|, 0
  {
    var c := g.play(s, moves[0], side);
    AlphaBetaValue(g, p, c, Opponent(side), depth - 1, -beta, -alpha, maxDepth);
    ClampNegated(AlphaBeta(g, p, c, Opponent(side), depth - 1, -beta, -alpha, maxDepth).0,
                 Value(g, p, c, Opponent(side), depth - 1, maxDepth), alpha, beta);
  }

  /**
   * One turn of the window arithmetic: a child scoring eval, clamped like
   * its value e, followed by the rest of the moves whose best is br.
   */
  lemma ClampStep(eval: int, e: int, alpha: int, beta: int, hasRest: bool, br: int, r: int)
    requires alpha < beta && Clamp(eval, alpha, beta) == Clamp(e, alpha, beta)
    requires r == if eval >= beta then beta
                  else if eval > alpha then (if hasRest then Clamp(br, eval, beta) else eval)
                  else (if hasRest then Clamp(br, alpha, beta) else alpha)
    ensures r == Clamp(if hasRest then Max(e, br) else e, alpha, beta)
  {
  }

  /** The slots of a line before ply `plies` and from `maxDepth` on are unwritten. */
  predicate Unwritten(p: Port, line: seq<int>, plies: nat, maxDepth: nat) {
    forall i :: 0 <= i < |line| && (i < plies || i >= maxDepth) ==> line[i] == Filler(p)
  }

  /**
   * The line of a node at `depth` is unwritten outside the plies
   * `maxDepth - depth .. maxDepth - 1` searched below it, and a node that
   * searches its moves returns, at its own ply, one of them or (when no
   * move raised alpha) an unwritten slot.
   */
  lemma {:induction false} AlphaBetaLine<S>(g: Game<S>, p: Port, s: S, side: Side, depth: nat, alpha: int, beta: int,
                                            maxDepth: nat)
    requires Bounds(p, depth, maxDepth)
    ensures Unwritten(p, AlphaBeta(g, p, s, side, depth, alpha, beta, maxDepth).1, maxDepth - depth, maxDepth)
    ensures !AtHorizon(g, p, s, depth) && g.moves(s) != [] ==>
      var line := AlphaBeta(g, p, s, side, depth, alpha, beta, maxDepth).1;
      line[maxDepth - depth] in g.moves(s) || line[maxDepth - depth] == Filler(p)
    decreases depth, 1, 0
  {
    if !AtHorizon(g, p, s, depth) && g.moves(s) != [] {
      SweepLine(g, p, s, side, depth, g.moves(s), g.moves(s), alpha, beta, maxDepth, HorizonLine(p, maxDepth));
    }
  }

  lemma {:induction false} SweepLine<S>(g: Game<S>, p: Port, s: S, side: Side, depth: nat, moves: seq<int>, all: seq<int>,
                                        alpha: int, beta: int, maxDepth: nat, pv: seq<int>)
    requires 1 <= depth && Bounds(p, depth, maxDepth)
    requires |pv| > maxDepth - depth && (p == RustPort ==> |pv| == MAX_PLY)
    requires Unwritten(p, pv, maxDepth - depth, maxDepth)
    requires forall m :: m in moves ==> m in all
    requires pv[maxDepth - depth] in all || pv[maxDepth - depth] == Filler(p)
    ensures var line := Sweep(g, p, s, side, depth, moves, alpha, beta, maxDepth, pv).1;
      && Unwritten(p, line, maxDepth - depth, maxDepth)
      && (line[maxDepth - depth] in all || line[maxDepth - depth] == Filler(p))
    decreases depth, 0, |moves|
  {
    if moves != [] {
      var c := g.play(s, moves[0], side);
      AlphaBetaLine(g, p, c, Opponent(side), depth - 1, -beta, -alpha, maxDepth);
      var child := AlphaBeta(g, p, c, Opponent(side), depth - 1, -beta, -alpha, maxDepth);
      var eval := -child.0;
      var line := child.1[maxDepth - depth := moves[0]];
      assert Unwritten(p, line, maxDepth - depth, maxDepth);
      if eval >= beta {
      } else if eval > alpha {
        SweepLine(g, p, s, side, depth, moves[1..], all, eval, beta, maxDepth, line);
      } else {
        SweepLine(g, p, s, side, depth, moves[1..], all, alpha, beta, maxDepth, pv);
      }
    }
  }

  /** Every list of moves the game generates names cells of the board. */
  ghost predicate MovesOnBoard<S(!new)>(g: Game<S>) {
    forall s :: OnBoard(g.moves(s))
  }

  /**
   * In Java, where an unwritten slot holds 0, every slot of a line names a
   * cell, so each can be written as a move string.
   */
  lemma {:induction false} AlphaBetaOnBoard<S(!new)>(g: Game<S>, s: S, side: Side, depth: nat, alpha: int, beta: int,
                                                     maxDepth: nat)
    requires MovesOnBoard(g) && Bounds(JavaPort, depth, maxDepth)
    ensures OnBoard(AlphaBeta(g, JavaPort, s, side, depth, alpha, beta, maxDepth).1)
    decreases depth, 1, 0
  {
    if !AtHorizon(g, JavaPort, s, depth) && g.moves(s) != [] {
      SweepOnBoard(g, s, side, depth, g.moves(s), alpha, beta, maxDepth, HorizonLine(JavaPort, maxDepth));
    }
  }

  lemma {:induction false} SweepOnBoard<S(!new)>(g: Game<S>, s: S, side: Side, depth: nat, moves: seq<int>,
                                                 alpha: int, beta: int, maxDepth: nat, pv: seq<int>)
    requires MovesOnBoard(g) && 1 <= depth && Bounds(JavaPort, depth, maxDepth)
    requires |pv| > maxDepth - depth && OnBoard(pv) && OnBoard(moves)
    ensures OnBoard(Sweep(g, JavaPort, s, side, depth, moves, alpha, beta, maxDepth, pv).1)
    decreases depth, 0, |moves|
  {
    if moves != [] {
      var c := g.play(s, moves[0], side);
      AlphaBetaOnBoard(g, c, Opponent(side), depth - 1, -beta, -alpha, maxDepth);
      var child := AlphaBeta(g, JavaPort, c, Opponent(side), depth - 1, -beta, -alpha, maxDepth);
      var eval := -child.0;
      var line := child.1[maxDepth - depth := moves[0]];
      assert OnBoard(line);
      assert OnBoard(moves[1..]);
      if eval >= beta {
      } else if eval > alpha {
        SweepOnBoard(g, s, side, depth, moves[1..], eval, beta, maxDepth, line);
      } else {
        SweepOnBoard(g, s, side, depth, moves[1..], alpha, beta, maxDepth, pv);
      }
    }
  }

  /** The window of a child is the parent's, negated and exchanged. */
  lemma ClampNegated(x: int, y: int, alpha: int, beta: int)
    requires alpha < beta && Clamp(x, -beta, -alpha) == Clamp(y, -beta, -alpha)
    ensures Clamp(-x, alpha, beta) == Clamp(-y, alpha, beta)
  {
  }


  // ---------------------------------------------------------------------
  // The move the search returns.

  /** What move m is worth to the side at the node: the negated value of the child it leads to. */
  function ChildValue<S>(g: Game<S>, p: Port, s: S, side: Side, depth: nat, maxDepth: nat, m: int): int
    requires 1 <= depth && Bounds(p, depth, maxDepth)
  {
    -Value(g, p, g.play(s, m, side), Opponent(side), depth - 1, maxDepth)
  }

  /** moves[i] is worth `score` and every move before it is worth less. */
  predicate FirstWorth<S>(g: Game<S>, p: Port, s: S, side: Side, depth: nat, maxDepth: nat, moves: seq<int>, i: int,
                          score: int)
    requires 1 <= depth && Bounds(p, depth, maxDepth)
  {
    && 0 <= i < |moves|
    && ChildValue(g, p, s, side, depth, maxDepth, moves[i]) == score
    && forall j :: 0 <= j < i ==> ChildValue(g, p, s, side, depth, maxDepth, moves[j]) < score
  }

  /** moves[i] is the first of the moves worth `score`, and no move is worth more. */
  predicate FirstBest<S>(g: Game<S>, p: Port, s: S, side: Side, depth: nat, maxDepth: nat, moves: seq<int>, i: int,
                         score: int)
    requires 1 <= depth && Bounds(p, depth, maxDepth)
  {
    && FirstWorth(g, p, s, side, depth, maxDepth, moves, i, score)
    && forall j :: 0 <= j < |moves| ==> ChildValue(g, p, s, side, depth, maxDepth, moves[j]) <= score
  }

  /** The best child value is at least what every move is worth. */
  lemma {:induction false} BestBounds<S>(g: Game<S>, p: Port, s: S, side: Side, depth: nat, moves: seq<int>,
                                         maxDepth: nat)
    requires 1 <= depth && Bounds(p, depth, maxDepth) && moves != []
    ensures forall j :: 0 <= j < |moves| ==>
      ChildValue(g, p, s, side, depth, maxDepth, moves[j]) <= Best(g, p, s, side, depth, moves, maxDepth)
    decreases |moves|
  {
    if |moves| > 1 {
      BestBounds(g, p, s, side, depth, moves[1..], maxDepth);
      forall j | 1 <= j < |moves|
        ensures ChildValue(g, p, s, side, depth, maxDepth, moves[j]) <= Best(g, p, s, side, depth, moves, maxDepth)
      {
        assert moves[j] == moves[1..][j - 1];
      }
    }
  }

  /** A move worth less than `score`, put in front of a list whose first move worth it is i, makes that i + 1. */
  lemma FirstWorthShift<S>(g: Game<S>, p: Port, s: S, side: Side, depth: nat, maxDepth: nat, moves: seq<int>, i: int,
                           score: int)
    requires 1 <= depth && Bounds(p, depth, maxDepth) && moves != []
    requires FirstWorth(g, p, s, side, depth, maxDepth, moves[1..], i, score)
    requires ChildValue(g, p, s, side, depth, maxDepth, moves[0]) < score
    ensures FirstWorth(g, p, s, side, depth, maxDepth, moves, i + 1, score)
  {
    forall j | 0 <= j < i + 1 ensures ChildValue(g, p, s, side, depth, maxDepth, moves[j]) < score {
      if j > 0 {
        assert moves[j] == moves[1..][j - 1];
      }
    }
  }

  /** The loop never scores below alpha, and scoring alpha it returns the line it started from. */
  lemma {:induction false} SweepUnraised<S>(g: Game<S>, p: Port, s: S, side: Side, depth: nat, moves: seq<int>,
                                            alpha: int, beta: int, maxDepth: nat, pv: seq<int>)
    requires 1 <= depth && Bounds(p, depth, maxDepth) && alpha < beta
    requires |pv| > maxDepth - depth && (p == RustPort ==> |pv| == MAX_PLY)
    ensures var r := Sweep(g, p, s, side, depth, moves, alpha, beta, maxDepth, pv);
      alpha <= r.0 && (r.0 == alpha ==> r.1 == pv)
    decreases |moves|
  {
    if moves != [] {
      var child := AlphaBeta(g, p, g.play(s, moves[0], side), Opponent(side), depth - 1, -beta, -alpha, maxDepth);
      var eval := -child.0;
      var line := child.1[maxDepth - depth := moves[0]];
      if eval >= beta {
      } else if eval > alpha {
        SweepUnraised(g, p, s, side, depth, moves[1..], eval, beta, maxDepth, line);
      } else {
        SweepUnraised(g, p, s, side, depth, moves[1..], alpha, beta, maxDepth, pv);
      }
    }
  }

  /**
   * A loop that ends strictly inside its window has raised alpha to its
   * score: the move written at the node's ply of its line is the first of
   * the moves worth that score, as `eval > alpha` keeps the earliest of
   * equal moves.
   */
  lemma {:induction false} SweepBest<S>(g: Game<S>, p: Port, s: S, side: Side, depth: nat, moves: seq<int>,
                                        alpha: int, beta: int, maxDepth: nat, pv: seq<int>)
    requires 1 <= depth && Bounds(p, depth, maxDepth) && alpha < beta
    requires |pv| > maxDepth - depth && (p == RustPort ==> |pv| == MAX_PLY)
    ensures var r := Sweep(g, p, s, side, depth, moves, alpha, beta, maxDepth, pv);
      alpha < r.0 < beta ==>
        exists i :: FirstWorth(g, p, s, side, depth, maxDepth, moves, i, r.0) && moves[i] == r.1[maxDepth - depth]
    decreases |moves|
  {
    var r := Sweep(g, p, s, side, depth, moves, alpha, beta, maxDepth, pv);
    if moves != [] && alpha < r.0 < beta {
      var k := maxDepth - depth;
      var child := AlphaBeta(g, p, g.play(s, moves[0], side), Opponent(side), depth - 1, -beta, -alpha, maxDepth);
      var eval := -child.0;
      var line := child.1[k := moves[0]];
      var rest := moves[1..];
      ChildClamp(g, p, s, side, depth, moves, alpha, beta, maxDepth);
      var v0 := ChildValue(g, p, s, side, depth, maxDepth, moves[0]);
      assert Clamp(eval, alpha, beta) == Clamp(v0, alpha, beta);
      if eval > alpha {
        assert r == Sweep(g, p, s, side, depth, rest, eval, beta, maxDepth, line);
        assert v0 == eval;
        SweepUnraised(g, p, s, side, depth, rest, eval, beta, maxDepth, line);
        if r.0 == eval {
          assert FirstWorth(g, p, s, side, depth, maxDepth, moves, 0, r.0) && moves[0] == r.1[k];
        } else {
          SweepBest(g, p, s, side, depth, rest, eval, beta, maxDepth, line);
          var i :| FirstWorth(g, p, s, side, depth, maxDepth, rest, i, r.0) && rest[i] == r.1[k];
          FirstWorthShift(g, p, s, side, depth, maxDepth, moves, i, r.0);
          assert moves[i + 1] == r.1[k];
        }
      } else {
        assert r == Sweep(g, p, s, side, depth, rest, alpha, beta, maxDepth, pv);
        assert v0 <= alpha;
        SweepBest(g, p, s, side, depth, rest, alpha, beta, maxDepth, pv);
        var i :| FirstWorth(g, p, s, side, depth, maxDepth, rest, i, r.0) && rest[i] == r.1[k];
        FirstWorthShift(g, p, s, side, depth, maxDepth, moves, i, r.0);
        assert moves[i + 1] == r.1[k];
      }
    }
  }

  /**
   * A node that searches its moves and scores strictly inside its window
   * scores its negamax value, and the move at its own ply of the line is the
   * first generated move worth that value; no move is worth more.
   */
  lemma AlphaBetaBestMove<S>(g: Game<S>, p: Port, s: S, side: Side, depth: nat, alpha: int, beta: int, maxDepth: nat)
    requires Bounds(p, depth, maxDepth) && alpha < beta && !AtHorizon(g, p, s, depth) && g.moves(s) != []
    ensures 1 <= depth
    ensures var r := AlphaBeta(g, p, s, side, depth, alpha, beta, maxDepth);
      alpha < r.0 < beta ==>
        && r.0 == Value(g, p, s, side, depth, maxDepth)
        && |r.1| > maxDepth - depth
        && exists i :: FirstBest(g, p, s, side, depth, maxDepth, g.moves(s), i, r.0)
                       && g.moves(s)[i] == r.1[maxDepth - depth]
  {
    var moves := g.moves(s);
    InnerNode(g, p, s, side, depth, alpha, beta, maxDepth);
    AlphaBetaValue(g, p, s, side, depth, alpha, beta, maxDepth);
    SweepBest(g, p, s, side, depth, moves, alpha, beta, maxDepth, HorizonLine(p, maxDepth));
    BestBounds(g, p, s, side, depth, moves, maxDepth);
  }

  // ---------------------------------------------------------------------
  // The root search of the Java engine.

  /** Every move the game generates from a position satisfying inv keeps inv and lowers the rank. */
  ghost predicate Shrinks<S(!new)>(g: Game<S>, inv: S -> bool, rank: S -> nat) {
    forall s: S, m: int, side: Side :: inv(s) && m in g.moves(s) ==> inv(g.play(s, m, side)) && rank(g.play(s, m, side)) < rank(s)
  }

  lemma ShrinksAt<S(!new)>(g: Game<S>, inv: S -> bool, rank: S -> nat, s: S, m: int, side: Side)
    requires Shrinks(g, inv, rank) && inv(s) && m in g.moves(s)
    ensures inv(g.play(s, m, side)) && rank(g.play(s, m, side)) < rank(s)
  {
  }

  /** On positions satisfying inv the static evaluation lies within the sentinels. */
  ghost predicate EvalWithin<S(!new)>(g: Game<S>, inv: S -> bool) {
    forall s: S, side: Side :: inv(s) ==> OUTCOME_LOSS <= g.eval(s, side) <= OUTCOME_WIN
  }

  /**
   * Below the root of a Java search every value lies strictly between the
   * sentinels: a sentinel found at a leaf is moved inward by at least one
   * ply, and the plies from the root stay below 2 * OUTCOME_WIN because
   * each move lowers the rank.
   */
  lemma {:induction false} JavaValueInside<S(!new)>(g: Game<S>, inv: S -> bool, rank: S -> nat, s: S, side: Side,
                                                    depth: nat, maxDepth: nat)
    requires Shrinks(g, inv, rank) && EvalWithin(g, inv) && inv(s)
    requires depth < maxDepth && maxDepth - depth + rank(s) < 2 * OUTCOME_WIN
    ensures OUTCOME_LOSS < Value(g, JavaPort, s, side, depth, maxDepth) < OUTCOME_WIN
    decreases depth, 1
  {
    if !AtHorizon(g, JavaPort, s, depth) && g.moves(s) != [] {
      JavaBestInside(g, inv, rank, s, side, depth, g.moves(s), maxDepth);
    }
  }

  lemma {:induction false} JavaBestInside<S(!new)>(g: Game<S>, inv: S -> bool, rank: S -> nat, s: S, side: Side,
                                                   depth: nat, moves: seq<int>, maxDepth: nat)
    requires Shrinks(g, inv, rank) && EvalWithin(g, inv) && inv(s)
    requires 1 <= depth <= maxDepth && maxDepth - depth + rank(s) < 2 * OUTCOME_WIN
    requires moves != [] && forall i :: 0 <= i < |moves| ==> moves[i] in g.moves(s)
    ensures OUTCOME_LOSS < Best(g, JavaPort, s, side, depth, moves, maxDepth) < OUTCOME_WIN
    decreases depth, 0, |moves|
  {
    var c := g.play(s, moves[0], side);
    ShrinksAt(g, inv, rank, s, moves[0], side);
    JavaValueInside(g, inv, rank, c, Opponent(side), depth - 1, maxDepth);
    if |moves| > 1 {
      JavaBestInside(g, inv, rank, s, side, depth, moves[1..], maxDepth);
    }
  }

  /**
   * The call the Java `go` command makes: depth == maxDepth >= 1, the window
   * (OUTCOME_LOSS, OUTCOME_WIN), on a position with moves. The score is the
   * negamax value and lies strictly inside the window, and line[0], the
   * move played, is the first generated move worth it.
   */
  lemma JavaRootMove<S(!new)>(g: Game<S>, inv: S -> bool, rank: S -> nat, s: S, side: Side, maxDepth: nat)
    requires Shrinks(g, inv, rank) && EvalWithin(g, inv) && inv(s) && rank(s) < 2 * OUTCOME_WIN
    requires 1 <= maxDepth && g.moves(s) != []
    ensures var r := AlphaBeta(g, JavaPort, s, side, maxDepth, OUTCOME_LOSS, OUTCOME_WIN, maxDepth);
      && r.0 == Value(g, JavaPort, s, side, maxDepth, maxDepth)
      && OUTCOME_LOSS < r.0 < OUTCOME_WIN
      && |r.1| > 0 && r.1[0] in g.moves(s)
      && exists i :: FirstBest(g, JavaPort, s, side, maxDepth, maxDepth, g.moves(s), i, r.0) && g.moves(s)[i] == r.1[0]
  {
    JavaBestInside(g, inv, rank, s, side, maxDepth, g.moves(s), maxDepth);
    AlphaBetaValue(g, JavaPort, s, side, maxDepth, OUTCOME_LOSS, OUTCOME_WIN, maxDepth);
    AlphaBetaBestMove(g, JavaPort, s, side, maxDepth, OUTCOME_LOSS, OUTCOME_WIN, maxDepth);
  }

  // ---------------------------------------------------------------------
  // Two games that agree along the play search alike.

  /**
   * Game g is game h seen through `abs` on the positions satisfying `inv`:
   * the two give the same moves and evaluations, and a move g generates
   * keeps `inv` and is h's move on the abstract position.
   */
  ghost predicate Simulates<S(!new), T>(g: Game<S>, h: Game<T>, abs: S -> T, inv: S -> bool) {
    && (forall s :: inv(s) ==> g.moves(s) == h.moves(abs(s)))
    && (forall s, side :: inv(s) ==> g.eval(s, side) == h.eval(abs(s), side))
    && (forall s, side :: inv(s) ==> g.large(s, side) == h.large(abs(s), side))
    && (forall s, m, side :: inv(s) && m in g.moves(s) ==>
          inv(g.play(s, m, side)) && abs(g.play(s, m, side)) == h.play(abs(s), m, side))
  }

  /** A game simulated by another searches to the same score and line. */
  lemma {:induction false} SimulatedAlphaBeta<S(!new), T>(g: Game<S>, h: Game<T>, abs: S -> T, inv: S -> bool, p: Port,
                                                    s: S, side: Side, depth: nat, alpha: int, beta: int, maxDepth: nat)
    requires Simulates(g, h, abs, inv) && inv(s) && Bounds(p, depth, maxDepth)
    ensures AlphaBeta(g, p, s, side, depth, alpha, beta, maxDepth)
         == AlphaBeta(h, p, abs(s), side, depth, alpha, beta, maxDepth)
    decreases depth, 1, 0
  {
    if !AtHorizon(g, p, s, depth) && g.moves(s) != [] {
      SimulatedSweep(g, h, abs, inv, p, s, side, depth, g.moves(s), alpha, beta, maxDepth, HorizonLine(p, maxDepth));
    }
  }

  lemma {:induction false} SimulatedSweep<S(!new), T>(g: Game<S>, h: Game<T>, abs: S -> T, inv: S -> bool, p: Port,
                                                s: S, side: Side, depth: nat, moves: seq<int>, alpha: int, beta: int,
                                                maxDepth: nat, pv: seq<int>)
    requires Simulates(g, h, abs, inv) && inv(s) && 1 <= depth && Bounds(p, depth, maxDepth)
    requires |pv| > maxDepth - depth && (p == RustPort ==> |pv| == MAX_PLY)
    requires forall k :: 0 <= k < |moves| ==> moves[k] in g.moves(s)
    ensures Sweep(g, p, s, side, depth, moves, alpha, beta, maxDepth, pv)
         == Sweep(h, p, abs(s), side, depth, moves, alpha, beta, maxDepth, pv)
    decreases depth, 0, |moves|
  {
    if moves != [] {
      var m := moves[0];
      var c := g.play(s, m, side);
      assert m in g.moves(s);
      assert inv(c) && abs(c) == h.play(abs(s), m, side);
      SimulatedAlphaBeta(g, h, abs, inv, p, c, Opponent(side), depth - 1, -beta, -alpha, maxDepth);
      var child := AlphaBeta(g, p, c, Opponent(side), depth - 1, -beta, -alpha, maxDepth);
      var eval := -child.0;
      var line := child.1[maxDepth - depth := moves[0]];
      if eval >= beta {
      } else if eval > alpha {
        SimulatedSweep(g, h, abs, inv, p, s, side, depth, moves[1..], eval, beta, maxDepth, line);
      } else {
        SimulatedSweep(g, h, abs, inv, p, s, side, depth, moves[1..], alpha, beta, maxDepth, pv);
      }
    }
  }
}
