/**
 * The command loop of src/Java/UT3B2L.java `main`, as a state machine over
 * the history list: each entry is a board and the move that led to it, the
 * last entry is the current position, and the side to move is read from the
 * parity of the list's length. Input and output are replaced by the command
 * tokens a line splits into and the reply line a command prints.
 */
module Driver {
  import opened Words
  import opened Bitboard
  import opened Text
  import opened Notation
  import opened Tables
  import PositionText
  import Rules
  import Search
  import BoardMoves
  import opened BoardSearch
  import JavaEngine

  /** `BoardMovePair(board, move)`: a position and the move that reached it (NULL_MOVE for a set-up position). */
  datatype BoardMovePair = BoardMovePair(board: Board, move: int)

  /** `new Board(0L, 0L, (long)ZONE_ANY << 54)`: the board `main` starts from, the rules' starting position. */
  function InitialBoard(): (b: Board)
    ensures b == Encode(Rules.Start()) && Valid(b)
  {
    StartBoard();
    Rules.StartValid();
    AbsEncode(Rules.Start());
    Board(Zero(), Zero(), Shl(FromNat(ZONE_ANY), 54))
  }

  /** `(history.size() & 1) == 1 ? 0 : 1`: the first player moves when the history has an odd length. */
  function SideToMove(size: nat): Rules.Side {
    if size % 2 == 1 then 0 else 1
  }

  /** One entry after another: a copy (`play null`), or a move the game generates and the board it gives. */
  ghost predicate Follows(g: Search.Game<Board>, prev: BoardMovePair, next: BoardMovePair, side: Rules.Side) {
    next == prev || (next.move in g.moves(prev.board) && next.board == g.play(prev.board, next.move, side))
  }

  // ---------------------------------------------------------------------
  // What the commands do to the history and what they reply.

  /** `newgame <cells> <zone>`: a position that reads replaces the history; otherwise nothing changes. */
  ghost predicate NewGameDone(before: seq<BoardMovePair>, after: seq<BoardMovePair>, cells: string, zone: string,
                              reply: string)
  {
    var parsed := PositionText.ParseBoard(cells + " " + zone);
    && (parsed.Some? ==> after == [BoardMovePair(parsed.value, Rules.NULL_MOVE)] && reply == "newgame ok")
    && (parsed.None? ==> after == before && reply == "newgame invalid pos")
  }

  /**
   * `go <depth>` with a parsed depth: a depth of 0 or less is refused;
   * otherwise the reply is the info line of the search of the current
   * board for the side to move. A board without moves gives an empty line
   * and nothing is pushed; on a board with moves the score is the negamax
   * value, strictly between the sentinels, and line[0], the first
   * generated move worth it, is played and pushed.
   */
  ghost predicate GoDone(g: Search.Game<Board>, before: seq<BoardMovePair>, after: seq<BoardMovePair>, depth: int,
                         elapsed: int, reply: string)
    requires |before| >= 1
  {
    if depth <= 0 then after == before && reply == "info error invalid depth"
    else
      var board := before[|before| - 1].board;
      var side := SideToMove(|before|);
      var result := Search.AlphaBeta(g, Search.JavaPort, board, side, depth, OUTCOME_LOSS, OUTCOME_WIN, depth);
      && Rules.OnBoard(result.1)
      && reply == InfoLine(depth, result.1, result.0, elapsed)
      && (g.moves(board) == [] ==> result.1 == [] && after == before)
      && (g.moves(board) != [] ==>
            && result.1 != []
            && result.0 == Search.Value(g, Search.JavaPort, board, side, depth, depth)
            && OUTCOME_LOSS < result.0 < OUTCOME_WIN
            && (exists i :: Search.FirstBest(g, Search.JavaPort, board, side, depth, depth, g.moves(board), i, result.0)
                            && g.moves(board)[i] == result.1[0])
            && after == before + [BoardMovePair(g.play(board, result.1[0], side), result.1[0])])
  }

  /**
   * `play` with move m: a move the generator lists is played for the side
   * to move and pushed, and the reply shows the new position; any other
   * leaves the history as it was, and the reply says it is illegal.
   */
  ghost predicate ListedDone(g: Search.Game<Board>, before: seq<BoardMovePair>, after: seq<BoardMovePair>, m: int,
                             reply: string)
    requires PlaysOnBoard(g) && |before| >= 1 && 0 <= m < 81
  {
    var board := before[|before| - 1].board;
    var next := g.play(board, m, SideToMove(|before|));
    if m in g.moves(board) then
      after == before + [BoardMovePair(next, m)] && reply == "move pos " + PositionText.PositionString(Abs(next))
    else
      after == before && reply == "move illegal"
  }

  /**
   * `play <text>`: `null` pushes a copy of the last entry, so the turn
   * passes, and the reply shows the position; a text that spells no move is
   * invalid and changes nothing; a text that spells a move plays it when listed.
   */
  ghost predicate PlayDone(g: Search.Game<Board>, before: seq<BoardMovePair>, after: seq<BoardMovePair>, text: string,
                           reply: string)
    requires PlaysOnBoard(g) && |before| >= 1 && ZoneField(before[|before| - 1].board.share) <= 9
  {
    && (text == "null" ==>
          after == before + [before[|before| - 1]]
          && reply == "move pos " + PositionText.PositionString(Abs(before[|before| - 1].board)))
    && (text != "null" && (forall m :: !Spells(text, m)) ==> after == before && reply == "move invalid")
    && (forall m :: Spells(text, m) ==> ListedDone(g, before, after, m, reply))
  }

  // ---------------------------------------------------------------------
  // The integer and the principal line of `go`.

  const INT_MIN: int := -0x8000_0000
  const INT_MAX: int := 0x7fff_ffff

  /**
   * `Integer.parseInt(s)` on ASCII text: an optional '-' or '+', one or
   * more digits '0'..'9', and a value that fits an `int`; any other such
   * text is a NumberFormatException (None). Java also reads the decimal
   * digits of other scripts, which this reader refuses.
   */
  function ParseInt(s: string): (r: Option<int>)
    ensures r.Some? ==> INT_MIN <= r.value <= INT_MAX
  {
    var signed := |s| > 0 && (s[0] == '-' || s[0] == '+');
    var digits := if signed then s[1..] else s;
    if digits == [] || !AllDigits(digits) then None
    else
      var n: int := if signed && s[0] == '-' then -(ParseNat(digits) as int) else ParseNat(digits);
      if INT_MIN <= n <= INT_MAX then Some(n) else None
  }

  /** Every `int` numeral reads back as its value. */
  lemma ParseIntString(n: int)
    requires INT_MIN <= n <= INT_MAX
    ensures ParseInt(IntString(n)) == Some(n)
  {
    if n < 0 {
      ParseIntNegative(-n);
    } else {
      ParseIntDigits(n);
    }
  }

  /** A numeral with no sign reads as its value. */
  lemma ParseIntDigits(m: nat)
    requires m <= INT_MAX
    ensures ParseInt(NatString(m)) == Some(m)
  {
    ParseNatString(m);
    assert '0' <= NatString(m)[0] <= '9';
  }

  /** A numeral after '-' reads as its negation. */
  lemma ParseIntNegative(m: nat)
    requires 0 < m <= -INT_MIN
    ensures ParseInt("-" + NatString(m)) == Some(-(m as int))
  {
    ParseNatString(m);
    assert ("-" + NatString(m))[1..] == NatString(m);
  }

  /** `movesAsStringList(line)`: the move string of every slot of the line. */
  function MoveStrings(line: seq<int>): (r: seq<string>)
    requires Rules.OnBoard(line)
    ensures |r| == |line|
  {
    seq(|line|, i requires 0 <= i < |line| => MoveString(line[i]))
  }

  /** `String.join(" ", movesAsStringList(line))`: the move strings separated by one space. */
  function PvString(line: seq<int>): string
    requires Rules.OnBoard(line)
  {
    if line == [] then "" else Join(MoveStrings(line), ' ')
  }

  /** The principal line splits back at ' ' into its move strings. */
  lemma PvStringFields(line: seq<int>)
    requires Rules.OnBoard(line) && line != []
    ensures Split(PvString(line), ' ') == MoveStrings(line)
  {
    ZoneNames();
    var fields := MoveStrings(line);
    forall i | 0 <= i < |fields| ensures ' ' !in fields[i] {
      assert fields[i] == ZONE_NAMES[line[i] / 9] + "/" + ZONE_NAMES[line[i] % 9];
    }
    SplitJoin(fields, ' ');
  }

  /** The principal line printed is the line searched: different lines print differently. */
  lemma PvStringInjective(l1: seq<int>, l2: seq<int>)
    requires Rules.OnBoard(l1) && Rules.OnBoard(l2) && PvString(l1) == PvString(l2)
    ensures l1 == l2
  {
    if l1 != [] && l2 != [] {
      PvStringFields(l1);
      PvStringFields(l2);
      assert |l1| == |l2|;
      forall i | 0 <= i < |l1| ensures l1[i] == l2[i] {
        assert MoveStrings(l1)[i] == MoveStrings(l2)[i];
        MoveStringInjective(l1[i], l2[i]);
      }
    }
  }

  /** `"info depth %d pv %s eval %s time %d"`, with the search's time in milliseconds. */
  function InfoLine(depth: int, line: seq<int>, score: int, elapsed: int): string
    requires Rules.OnBoard(line)
  {
    "info depth " + IntString(depth) + " pv " + PvString(line) + " eval " + EvalString(score, depth)
      + " time " + IntString(elapsed)
  }

  /** The board game of the engine's tables, and its moves always name cells. */
  lemma BoardGameOnBoard(large: seq<int>, small: seq<int>)
    requires |large| == TABLE_SIZE && |small| == TABLE_SIZE
    ensures Search.MovesOnBoard(BoardSearch.BoardGame(large, small))
  {
    var g := BoardSearch.BoardGame(large, small);
    forall b: Board ensures Rules.OnBoard(g.moves(b)) {
      if ZoneField(b.share) <= 9 {
        BoardMoves.GenerateMovesOnBoard(b);
      }
    }
  }

  /** Every board a move of the game gives has a zone field the engine reads. */
  ghost predicate PlaysOnBoard(g: Search.Game<Board>) {
    forall b: Board, m: int, side: Rules.Side :: 0 <= m < 81 ==> ZoneField(g.play(b, m, side).share) <= 9
  }

  lemma BoardGamePlays(large: seq<int>, small: seq<int>)
    requires |large| == TABLE_SIZE && |small| == TABLE_SIZE
    ensures PlaysOnBoard(BoardGame(large, small))
  {
    forall b: Board, m: int, side: Rules.Side | 0 <= m < 81
      ensures ZoneField(BoardGame(large, small).play(b, m, side).share) <= 9
    {
      MovedZone(b, m, side);
    }
  }

  /** A move string, with or without '/' after it, holds a '/'. */
  lemma MoveStringSlash(m: int, k: nat)
    requires 0 <= m < 81
    ensures '/' in MoveString(m) + Seps(k, '/')
  {
    var s := MoveString(m) + Seps(k, '/');
    assert s[|ZONE_NAMES[m / 9]|] == '/';
  }

  /** "null" is no move string. */
  lemma NullIsNoMove(text: string)
    requires text == "null"
    ensures forall m :: !Spells(text, m)
  {
    forall m | 0 <= m < 81 ensures !Spells(text, m) {
      forall k ensures text != MoveString(m) + Seps(k, '/') {
        MoveStringSlash(m, k);
      }
    }
  }

  // ---------------------------------------------------------------------
  // The session.

  /** The engine and the `history` list of `main`. */
  class Session {
    const engine: JavaEngine.Engine
    /** The game of the engine's tables: the moves, boards and scores its methods compute. */
    ghost const game: Search.Game<Board>
    var history: seq<BoardMovePair>

    /**
     * The engine's tables are built and `game` is their game, every board
     * has a zone field the engine reads, and each entry follows the one
     * before it for the side the parity gives.
     */
    ghost predicate Valid()
      reads this, engine, engine.evalTableLarge, engine.evalTableSmall
    {
      && engine.Valid()
      && EngineGame(game, engine.evalTableLarge[..], engine.evalTableSmall[..])
      && Search.MovesOnBoard(game)
      && PlaysOnBoard(game)
      && (forall i :: 0 <= i < |history| ==> ZoneField(history[i].board.share) <= 9)
      && (forall i :: 1 <= i < |history| ==> Follows(game, history[i - 1], history[i], SideToMove(i)))
    }

    /** A valid session with a current position. */
    ghost predicate Live()
      reads this, engine, engine.evalTableLarge, engine.evalTableSmall
    {
      Valid() && |history| >= 1
    }

    /** The board of the last entry, `history.get(history.size() - 1).board()`. */
    function Current(): Board
      reads this
      requires |history| >= 1
    {
      history[|history| - 1].board
    }

    /** `new Engine()`, and the history holding the starting board with NULL_MOVE. */
    constructor ()
      ensures Live()
      ensures game == BoardGame(engine.evalTableLarge[..], engine.evalTableSmall[..])
      ensures history == [BoardMovePair(Encode(Rules.Start()), Rules.NULL_MOVE)]
    {
      var e := new JavaEngine.Engine();
      engine := e;
      game := BoardGame(e.evalTableLarge[..], e.evalTableSmall[..]);
      BoardGameIsEngineGame(e.evalTableLarge[..], e.evalTableSmall[..]);
      BoardGameOnBoard(e.evalTableLarge[..], e.evalTableSmall[..]);
      BoardGamePlays(e.evalTableLarge[..], e.evalTableSmall[..]);
      history := [BoardMovePair(InitialBoard(), Rules.NULL_MOVE)];
    }

    /** `history.add(pair)`: a pair that follows the last entry, with a zone field the engine reads. */
    method Push(pair: BoardMovePair)
      requires Live() && ZoneField(pair.board.share) <= 9
      requires Follows(game, history[|history| - 1], pair, SideToMove(|history|))
      modifies this
      ensures Live() && history == old(history) + [pair]
    {
      history := history + [pair];
    }

    /**
     * `newgame <cells> <zone>` as written: the history is cleared before the
     * position is read, so a position that fails to read leaves it empty.
     */
    method NewGameAsWritten(cells: string, zone: string) returns (reply: string)
      requires Valid()
      modifies this
      ensures Valid()
      ensures var parsed := PositionText.ParseBoard(cells + " " + zone);
        && (parsed.Some? ==> history == [BoardMovePair(parsed.value, Rules.NULL_MOVE)] && reply == "newgame ok")
        && (parsed.None? ==> history == [] && reply == "newgame invalid pos")
    {
      history := [];
      var board := PositionText.BoardFromString(cells + " " + zone);
      if board.None? {
        return "newgame invalid pos";
      }
      PositionText.ParsedBoard(cells + " " + zone, board.value);
      history := history + [BoardMovePair(board.value, Rules.NULL_MOVE)];
      reply := "newgame ok";
    }

    /**
     * `newgame <cells> <zone>` as evidently intended: the position is read
     * first, and the history is replaced only when it reads; otherwise it is
     * left as it was.
     */
    method NewGame(cells: string, zone: string) returns (reply: string)
      requires Valid()
      modifies this
      ensures Valid()
      ensures NewGameDone(old(history), history, cells, zone, reply)
    {
      var board := PositionText.BoardFromString(cells + " " + zone);
      if board.None? {
        return "newgame invalid pos";
      }
      PositionText.ParsedBoard(cells + " " + zone, board.value);
      history := [BoardMovePair(board.value, Rules.NULL_MOVE)];
      reply := "newgame ok";
    }

    /**
     * The search of `go`: the current board, the side to move, the full
     * window, and `depth` as the maximum depth; nothing changes. Every slot
     * of the line names a cell.
     */
    method SearchCurrent(depth: nat) returns (score: int, line: seq<int>)
      requires Live()
      ensures (score, line) == Search.AlphaBeta(game, Search.JavaPort, Current(), SideToMove(|history|), depth,
                                                OUTCOME_LOSS, OUTCOME_WIN, depth)
      ensures Rules.OnBoard(line)
    {
      var side := SideToMove(|history|);
      var board := Current();
      var pv;
      score, pv := engine.AlphaBeta(board, side, depth, OUTCOME_LOSS, OUTCOME_WIN, depth, game);
      line := pv[..];
      Search.AlphaBetaOnBoard(game, board, side, depth, OUTCOME_LOSS, OUTCOME_WIN, depth);
    }

    /**
     * `go <depth>` with a parsed depth: the search of the current board, its
     * info line, and line[0] played when the line is not empty.
     */
    method Go(depth: int, elapsed: int) returns (reply: string)
      requires Live()
      modifies this
      ensures Live()
      ensures GoDone(game, old(history), history, depth, elapsed, reply)
    {
      if depth <= 0 {
        return "info error invalid depth";
      }
      var side := SideToMove(|history|);
      var board := Current();
      var score, line := SearchCurrent(depth);
      reply := InfoLine(depth, line, score, elapsed);
      if game.moves(board) != [] {
        EngineRootMove(game, board, side, engine.evalTableLarge[..], engine.evalTableSmall[..], depth);
      } else {
        Search.NoMovesNode(game, Search.JavaPort, board, side, depth, OUTCOME_LOSS, OUTCOME_WIN, depth);
      }
      if |line| > 0 {
        var move := line[0];
        var next := engine.ChildBoard(board, move, side, game);
        Push(BoardMovePair(next, move));
      }
    }

    /** `play null`: a copy of the last entry is pushed, so the turn passes; the reply shows the position. */
    method PlayNull() returns (reply: string)
      requires Live()
      modifies this
      ensures Live()
      ensures history == old(history) + [old(history)[|old(history)| - 1]]
      ensures reply == "move pos " + PositionText.PositionString(Abs(old(Current())))
    {
      var pair := history[|history| - 1];
      Push(pair);
      var text := PositionText.BoardString(pair.board);
      reply := "move pos " + text;
    }

    /**
     * `play <move>` with a move that reads: one the generator does not list
     * is illegal; any other is played for the side to move and pushed, and
     * the reply shows the new position.
     */
    method PlayListed(m: int) returns (reply: string)
      requires Live() && 0 <= m < 81
      modifies this
      ensures Live()
      ensures ListedDone(game, old(history), history, m, reply)
    {
      var board := Current();
      var moves := engine.NodeMoves(board, game);
      if m !in moves {
        return "move illegal";
      }
      var side := SideToMove(|history|);
      var next := engine.ChildBoard(board, m, side, game);
      Push(BoardMovePair(next, m));
      var text := PositionText.BoardString(next);
      reply := "move pos " + text;
    }

    /**
     * `play <move>`: `null` passes the turn; a move string that does not
     * read is invalid; a move string that reads is played when listed.
     */
    method Play(moveText: string) returns (reply: string)
      requires Live()
      modifies this
      ensures Live()
      ensures PlayDone(game, old(history), history, moveText, reply)
    {
      if moveText == "null" {
        reply := PlayNull();
        NullIsNoMove(moveText);
      } else {
        reply := PlayText(moveText);
      }
    }

    /** `play <move>` with a move string: one that does not read is invalid; one that reads is played when listed. */
    method PlayText(moveText: string) returns (reply: string)
      requires Live()
      modifies this
      ensures Live()
      ensures (forall m :: !Spells(moveText, m)) ==> history == old(history) && reply == "move invalid"
      ensures forall m :: Spells(moveText, m) ==> ListedDone(game, old(history), history, m, reply)
    {
      var move := MoveFromString(moveText);
      if move.None? {
        return "move invalid";
      }
      reply := PlayListed(move.value);
    }

    /**
     * `undo`: an empty history stays empty; the last entry is removed, but
     * when it was the only one it is put back; either way the reply says the
     * stack is empty. The history never becomes empty this way.
     */
    method Undo() returns (reply: string)
      requires Valid()
      modifies this
      ensures Valid()
      ensures |old(history)| <= 1 ==> history == old(history) && reply == "undo stackempty"
      ensures |old(history)| > 1 ==> history == old(history)[..|old(history)| - 1] && reply == "undo ok"
    {
      if |history| == 0 {
        return "undo stackempty";
      }
      var lastPair := history[|history| - 1];
      history := history[..|history| - 1];
      if |history| == 0 {
        history := history + [lastPair];
        reply := "undo stackempty";
      } else {
        reply := "undo ok";
      }
    }

    /** `gamepos`: the position string of the current board; nothing changes. */
    method GamePos() returns (reply: string)
      requires Live()
      ensures reply == PositionText.PositionString(Abs(Current()))
    {
      reply := PositionText.BoardString(Current());
    }

    /**
     * One command line, split at whitespace: the argument counts each
     * keyword needs, the depth of `go` read by `Integer.parseInt`, and
     * `badkeyword` for anything else. `d` only prints the board and `q`
     * ends the loop. A session with a current position keeps one.
     */
    method Execute(command: seq<string>, elapsed: int) returns (reply: string, quit: bool)
      requires Live()
      modifies this
      ensures Live()
      ensures quit <==> |command| >= 1 && command[0] == "q"
      ensures |command| == 0 ==> history == old(history) && reply == ""
      ensures |command| >= 1 && command[0] == "newgame" ==>
        if |command| < 3 then history == old(history) && reply == "newgame invalid args"
        else NewGameDone(old(history), history, command[1], command[2], reply)
      ensures |command| >= 1 && command[0] == "go" ==>
        if |command| < 2 then history == old(history) && reply == "info error no depth"
        else if ParseInt(command[1]).None? then history == old(history) && reply == "info error invalid depth"
        else GoDone(game, old(history), history, ParseInt(command[1]).value, elapsed, reply)
      ensures |command| >= 1 && command[0] == "play" ==>
        if |command| != 2 then history == old(history) && reply == "move invalid"
        else PlayDone(game, old(history), history, command[1], reply)
      ensures |command| >= 1 && command[0] == "undo" ==>
        && (|old(history)| <= 1 ==> history == old(history) && reply == "undo stackempty")
        && (|old(history)| > 1 ==> history == old(history)[..|old(history)| - 1] && reply == "undo ok")
      ensures |command| >= 1 && command[0] == "gamepos" ==>
        history == old(history) && reply == PositionText.PositionString(Abs(Current()))
      ensures |command| >= 1 && (command[0] == "d" || command[0] == "q") ==> history == old(history) && reply == ""
      ensures |command| >= 1 && command[0] !in {"newgame", "go", "play", "undo", "gamepos", "d", "q"} ==>
        history == old(history) && reply == "badkeyword"
    {
      quit := false;
      reply := "";
      if |command| == 0 {
        return;
      }
      var keyword := command[0];
      if keyword == "newgame" {
        if |command| < 3 {
          reply := "newgame invalid args";
        } else {
          reply := NewGame(command[1], command[2]);
        }
      } else if keyword == "go" {
        if |command| < 2 {
          reply := "info error no depth";
        } else {
          var depth := ParseInt(command[1]);
          if depth.None? {
            reply := "info error invalid depth";
          } else {
            reply := Go(depth.value, elapsed);
          }
        }
      } else if keyword == "play" {
        if |command| != 2 {
          reply := "move invalid";
        } else {
          reply := Play(command[1]);
        }
      } else if keyword == "undo" {
        reply := Undo();
      } else if keyword == "gamepos" {
        reply := GamePos();
      } else if keyword == "d" {
      } else if keyword == "q" {
        quit := true;
      } else {
        reply := "badkeyword";
      }
    }
  }

  /**
   * On a board that encodes a valid position, the engine game lists
   * exactly the legal moves, and the board after a listed move is valid and
   * encodes the position the rules give.
   */
  lemma EngineGameIsRules(g: Search.Game<Board>, large: seq<int>, small: seq<int>, b: Board, m: int,
                          side: Rules.Side)
    requires TablesHold(large, small) && EngineGame(g, large, small) && Valid(b)
    ensures m in g.moves(b) <==> Rules.Legal(Abs(b), m)
    ensures m in g.moves(b) ==>
      Valid(g.play(b, m, side)) && g.play(b, m, side) == Encode(Rules.Play(Abs(b), m, side))
  {
    BoardMoves.GenerateMovesLegal(b);
    assert g.moves(b) == BoardMoves.GenerateMoves(b);
    if m in g.moves(b) {
      Rules.MovesAreLegal(Abs(b));
      LegalIsPlayable(b, m);
      MovedSpec(b, m, side);
      assert g.play(b, m, side) == Moved(b, m, side);
      Rules.PlayPreservesValid(Abs(b), m, side);
      AbsEncode(Rules.Play(Abs(b), m, side));
    }
  }

  /**
   * The position `newgame x any` names does not read (one row where nine
   * are needed), so the written `newgame` leaves the history empty, and a
   * following `gamepos`, `play` or `go` reads an entry that is not there.
   */
  lemma InvalidNewGame()
    ensures PositionText.ParseBoard("x" + " " + "any") == None
  {
    var s := "x" + " " + "any";
    ExpandPlain(s);
    assert s == "x" + [' '] + "any";
    JavaSplitTwo("x", "any", ' ');
    assert JavaSplit("x", '/') == ["x"];
  }
}
