# Ultimate Tic-Tac-Toe engines, modelled and verified in Dafny

This project models the playing engines of the repository and proves them against one
rule-level statement of Ultimate Tic-Tac-Toe. The repository holds five engines and one driver:

- the bitboard engine written three times: `src/Java/Engine.java`, `src/Rust/ut3b2l/src/main.rs`
  and `src/Python/UT3B2L.py`;
- the list engine `UltimateTicTacToe_Python/ultimate-tictactoe-new.py`;
- the string engine `UltimateTicTacToe_Prod/ultimate-tictactoe.py`;
- the command loop of `src/Java/UT3B2L.java`, with its move, score and position notations.

The pieces of the model:

- **Rules** (`rules.dfy`). A position has 81 cells, nine per zone, each empty or holding the
  first or the second player's mark. Its large grid records who won each zone. Its forced zone
  is 0..8, or 9 (`ZONE_ANY`) when any zone may be played. The module defines the legal moves,
  a move, and the invariants of play: a zone is won exactly by the player who holds a line in
  it; a forced zone is neither won nor full.
- **Evaluation** and **Tables** (`evaluation.dfy`, `tables.dfy`). These state the heuristic
  the bitboard engines precompute. Each pair of 9-bit patterns gets a large-grid entry and a
  small-grid entry: a sentinel for a decided pair, 0 for a full drawn pair, and otherwise line
  scores plus a positional score. A position's evaluation adds the large-grid entry to the
  small-grid entries of the open zones.
- **Words** (`words.dfy`). The 64-bit words of the bitboards are sequences of 64 booleans.
  Java's `>>` on `long` is an arithmetic shift (`Sar`). Rust's `>>` on `u64` and Python's `>>`
  on non-negative integers are logical shifts (`Shr`). Left shifts drop the bits past 63.
- **Bitboard** (`bitboard.dfy`). A board is the words `us`, `them` and `share`; the module
  relates a board to the position it stands for (`Abs`) and back (`Encode`). `BoardMoves`,
  `BoardEval` and `BoardSearch` hold the move generator, the evaluation and the search that
  the three ports share.
- **LineHelpers** and **TableBuilder** (`lines.dfy`, `table_builder.dfy`). These model the
  `lines` and `linePresence` bit tricks and the loops that fill the two 2^18-entry tables.
- **JavaEngine** (`java_engine.dfy`). Class `Engine` with its two table arrays, and its
  `generateMoves`, `playMove`, `evaluate` and `alphaBeta` as methods with loops.
- **RustEngine** and **PythonEngine** (`rust_engine.dfy`, `python_engine.dfy`). The same four
  operations, written the way each port writes them.
- **Search** (`search.dfy`). The fail-hard negamax alpha-beta search as a function over any
  game. The `Port` parameter gives the ways the three bitboard ports differ at the leaves
  and in how the line is stored. The module proves that the search is exact inside its
  window.
- **PyLines**, **ListEngine** and **StringEngine** (`py_lines.dfy`, `list_engine.dfy`,
  `string_engine.dfy`). The Python `LINES` slices and the two list and string engines, each
  with its own search and its own sentinels.
- **Text**, **Notation** and **PositionText** (`text.dfy`, `notation.dfy`,
  `position_text.dfy`). The split, join and dot-compression operations on strings; the move
  and score notations; and the position string of `boardString`/`boardFromString`.
- **Driver** (`driver.dfy`). The `main` loop of `UT3B2L.java` as class `Session`, whose
  `history` field is the list of board/move pairs the commands change.

Each engine operation is proved to compute the rules' meaning on the positions the engine
represents. A generator lists the rules' legal moves; a move gives the rules' next position;
an evaluation is the specified heuristic; a search computes the negamax value inside its
window. When a node's score lies strictly inside its window, the line holds at that node's
ply the first generated move worth that value. At the root of the Java `go` and of the two
Python `main` functions this holds for every board with moves, so `line[0]`, the move
played, is a generated move. The string engine's `play_move` departs from the rules in one
case (see "## Findings"); its search is modelled with `play_move` as written, and the
corrected move is modelled beside it.

## Model

| member | source | states |
|---|---|---|
| Rules.Moves | src/Java/Engine.java:143-187 | the legal moves are on the board and strictly ascending |
| Rules.MovesAreLegal | src/Java/Engine.java:143-187 | a cell is listed exactly when the rules allow playing it; the list is strictly ascending |
| Rules.AnyMovesLegal | src/Java/Engine.java:155-167 | with any zone to play, the moves are exactly the empty cells of unwon zones |
| Rules.ZoneMovesLegal | src/Java/Engine.java:168-183 | with a forced zone, the moves are exactly the empty cells of that zone |
| Rules.Play | src/Java/Engine.java:189-218 | a move keeps the position well formed |
| Rules.NextZone | src/Java/Engine.java:209-215 | the next forced zone is the target cell's zone or any zone |
| Rules.PlayPreservesValid | src/Java/Engine.java:189-218 | a legal move keeps the invariants of play: won zones match lines, a forced zone is open |
| Rules.ZoneAfterPlay | src/Java/Engine.java:193-207 | after a legal move each zone is still won exactly by the side that has a line in it |
| Rules.StartValid | src/Java/UT3B2L.java:235 | the starting position satisfies the invariants |
| Rules.LegalPlayKeepsValid | src/Python/UT3B2L.py:106-108 | a sequence of legal moves from a valid position keeps it valid |
| Rules.ReachableValid | src/Python/UT3B2L.py:106-108 | every position reached by legal play from the start is valid |
| Rules.StartMoves | src/Java/UT3B2L.java:235 | from the start all 81 cells are legal, in ascending order |
| Evaluation.EvalNegamax | src/Java/Engine.java:220-249 | the evaluation for the second player is minus that for the first |
| Evaluation.EvalRange | src/Java/Engine.java:220-249 | the evaluation is a sentinel exactly when the large grid has a line, and otherwise at most 3234 in magnitude |
| Evaluation.ClosedZoneScoresZero | src/Java/Engine.java:237-238 | a won or full zone has small entry 0 |
| Evaluation.SkippingIsExact | src/Java/Engine.java:232-247 | skipping won and full zones gives the same sum as scoring all nine |
| Evaluation.EvalMirror | src/Java/Engine.java:52-112 | exchanging the players' marks negates the evaluation |
| Tables.FirstDecisiveMeaning | src/Java/Engine.java:63-92 | a pair is undecided exactly when neither side has a line; a side that alone has a line decides it |
| Tables.EntriesAntisymmetric | src/Java/Engine.java:52-112 | the entries for (them, us) are minus those for (us, them) |
| Tables.LargeEntryRange | src/Java/Engine.java:100-110 | a large entry is the win sentinel exactly when us decides, the loss sentinel exactly when them decides, and otherwise at most 2145 |
| Tables.SmallEntryBound | src/Java/Engine.java:108-110 | a small entry is at most 121 in magnitude |
| Tables.FullPatternIsDrawn | src/Java/Engine.java:104-106 | a full pair without a line for either side is a draw with small entry 0 |
| Tables.PositionScoreBound | src/Java/Engine.java:94-99 | the positional score is at most 57 in magnitude |
| Tables.DoubleChunkValue | src/Java/Engine.java:224 | `w & DBLCHUNK` is the low nine bits plus 512 times the next nine |
| Words.SarIsShr | src/Java/Engine.java:224 | on a word whose sign bit is clear, arithmetic and logical right shifts agree |
| Words.AddDisjoint | src/Java/Engine.java:115-127 | adding words with no common bit is or-ing them |
| Words.BitOfShr | src/Java/Engine.java:161 | `(x >> k) & 1` is the 0/1 word of bit k |
| Words.LowSplit | src/Java/Engine.java:239 | the low n + m bits are the low n bits plus 2^n times the next m |
| Bitboard.ExclZone | src/Python/UT3B2L.py:32 | the Java/Rust and the Python spellings of EXCLZONE are the same mask, which clears exactly bits 54..57 |
| Bitboard.AbsEncode | src/Java/Engine.java:143-218 | encoding a position and reading it back gives the position, and the board meets the layout |
| Bitboard.EncodeAbs | src/Java/Engine.java:143-218 | a board meeting the layout is the encoding of its position |
| Bitboard.StartBoard | src/Java/UT3B2L.java:235 | the board `(0, 0, ZONE_ANY << 54)` encodes the starting position |
| Bitboard.GameOverWords | src/Java/Engine.java:147-148 | `linePresence(share >> 36) \|\| linePresence(share >> 45)` holds exactly when the game is over |
| Bitboard.LegalIsPlayable | src/Java/Engine.java:189-218 | every legal move of a valid board may be played on it |
| Bitboard.PlacedSpec | src/Java/Engine.java:193-204 | placing the stone marks the cell for the mover and nothing else |
| Bitboard.WithWonSpec | src/Java/Engine.java:206-207 | setting the won bit records the zone as won by the mover and nothing else |
| Bitboard.ForcedZoneSpec | src/Java/Engine.java:209-217 | the zone field written is the rules' next zone |
| Bitboard.MovedSpec | src/Java/Engine.java:189-218 | the three steps of `playMove` compose to the rules' move |
| Bitboard.MovedValid | src/Java/Engine.java:189-218 | a legal move on a valid board gives a valid board for the rules' next position |
| Bitboard.MovedZone | src/Java/Engine.java:213-217 | whatever the words, a move leaves a zone field of 0..9 |
| LineHelpers.LinesBits | src/Java/Engine.java:115-127 | each bit of `lines(g)` is the grid cell routed there |
| LineHelpers.LinesGroup | src/Java/Engine.java:115-127 | group k (bits 3k..3k+2) of `lines(g)` holds the three cells of line k |
| LineHelpers.LinesGroupFull | src/Java/Engine.java:115-127 | group k equals LINE exactly when line k is full |
| LineHelpers.LinePresenceSpec | src/Java/Engine.java:129-141 | `linePresence(g)` holds exactly when the low nine bits hold a line |
| LineHelpers.LinePresenceLow | src/Java/Engine.java:129-141 | `linePresence` reads only the low nine bits |
| LineHelpers.LinesAgreeWithPresence | src/Rust/ut3b2l/src/main.rs:91-119 | some group of `lines(g)` is LINE exactly when `line_presence(g)` holds |
| LineHelpers.LinePresenceCall | src/Rust/ut3b2l/src/main.rs:108-119 | a call of `line_presence` answers whether the low nine bits hold a line |
| LineHelpers.PopCountSum | src/Java/Engine.java:41-50 | the nine-term sum counts the set bits among the low nine |
| TableBuilder.PopCountTable | src/Java/Engine.java:38-50 | the loop fills the 512 entries with the number of set bits of each index |
| TableBuilder.LinesMethod | src/Java/Engine.java:57-58 | `lines(us)` and `lines(them)` route each cell to its groups |
| TableBuilder.GroupCount | src/Java/Engine.java:63-65 | looking up group 3k of `lines(g)` counts the cells of line k |
| TableBuilder.ScanLines | src/Java/Engine.java:63-92 | the line loop finds the first decisive line, skipping contested ones, and otherwise sums the line scores |
| TableBuilder.PositionalScore | src/Java/Engine.java:94-99 | three masked popCount lookups per side give the positional score |
| TableBuilder.PairIndex | src/Java/Engine.java:101 | `(them << 9) \| us` is them * 512 + us |
| TableBuilder.PairFull | src/Java/Engine.java:105 | `popCount[us \| them] == 9` exactly when every cell of the pair is held |
| TableBuilder.Entries | src/Java/Engine.java:100-110 | the if-chain gives the specified large and small entries, and writes nothing to the small table for decided or full pairs |
| TableBuilder.PairEntries | src/Java/Engine.java:54-110 | the body for one pair computes both specified entries |
| TableBuilder.FillColumn | src/Java/Engine.java:54-111 | the inner loop writes the specified entries of one `us` for every `them`, and leaves all other entries alone |
| TableBuilder.FillTables | src/Java/Engine.java:52-112 | the nested loops fill both tables with the specified entries |
| TableBuilder.Init | src/Rust/ut3b2l/src/main.rs:126-236 | `init` returns fresh tables holding the specified entries (also Python `init`, src/Python/UT3B2L.py:43-89) |
| BoardMoves.OpenCellsSpec | src/Java/Engine.java:150-186 | before the end of the game the switch's cells are the legal moves |
| BoardMoves.AnyZoneCells | src/Rust/ut3b2l/src/main.rs:267-277 | with any zone to play, the two filters list the empty cells of unwon zones |
| BoardMoves.AnyZoneFree | src/Java/Engine.java:156-165 | the words `us \| them`, `(share >> 18) \| share` and the large bits mark exactly the occupied cells and won zones |
| BoardMoves.SouthZoneCells | src/Rust/ut3b2l/src/main.rs:280-283 | in zones 7 and 8 the free cells come from `(share >> 18) \| share` |
| BoardMoves.NorthZoneCells | src/Rust/ut3b2l/src/main.rs:286-289 | in zones 0..6 the free cells come from `us \| them` |
| BoardMoves.GenerateMovesSpec | src/Rust/ut3b2l/src/main.rs:251-291 | the generator lists the legal moves of the position the board encodes, in order |
| BoardMoves.GenerateMovesLegal | src/Java/Engine.java:143-187 | on a valid board a cell is generated exactly when it is legal; the list is strictly ascending |
| BoardMoves.GenerateMovesOnBoard | src/Java/Engine.java:143-187 | whatever the words, every generated move is a cell 0..80 |
| BoardEval.SideSign | src/Java/Engine.java:226 | `x * (1 - (side << 1))` turns x to the point of view of `side` |
| BoardEval.LargeLookup | src/Java/Engine.java:224 | the large lookup is the large entry of the large grid |
| BoardEval.LargeBitsWon | src/Java/Engine.java:228-230 | bit z of `large` is set exactly when zone z is won; `large == CHUNK` exactly when every zone is won |
| BoardEval.ZoneData | src/Java/Engine.java:235-243 | `usData` and `themData` are the zone's cells of each player |
| BoardEval.ZoneTermSpec | src/Java/Engine.java:237-246 | one zone's contribution is its score in the specified evaluation |
| BoardEval.TableSumSpec | src/Java/Engine.java:232-247 | the zone loops sum the specified zone scores |
| BoardEval.EvaluateSpec | src/Rust/ut3b2l/src/main.rs:359-415 | with the built tables the board evaluation is the specified evaluation of the position, and the two sides' values are opposite |
| BoardEval.EvaluateOpposite | src/Rust/ut3b2l/src/main.rs:367-368 | evaluating for the other side negates the value |
| BoardSearch.EngineGameSimulatesRules | src/Java/Engine.java:251-297 | on valid boards the shared functions are the rules' game seen through `Abs` |
| BoardSearch.AlphaBetaIsRuleSearch | src/Java/Engine.java:251-297 | from a valid board, with the built tables, the board search of any port is that port's search of the rules' position |
| BoardSearch.GeneratedEmpty | src/Java/Engine.java:143-187 | on any board with a zone field of at most 9, a generated move is an empty cell |
| BoardSearch.MovedCells | src/Java/Engine.java:189-204 | after a move a cell is empty exactly when it was empty and is not the move |
| BoardSearch.MovedEmptyCells | src/Java/Engine.java:189-204 | a move on an empty cell removes exactly that cell from the empty count |
| BoardSearch.EngineGameShrinks | src/Java/Engine.java:143-218 | a generated move keeps the zone field at most 9 and lowers the empty count |
| BoardSearch.TableSumBound | src/Java/Engine.java:232-247 | the zone terms of n zones add to at most 121n in magnitude |
| BoardSearch.EvaluateWithin | src/Java/Engine.java:220-249 | with the built tables the board evaluation is a sentinel or at most 3234 in magnitude |
| BoardSearch.EngineGameEvalWithin | src/Java/Engine.java:220-249 | the engines' evaluation never leaves the sentinels' range |
| BoardSearch.EngineRootMove | src/Java/UT3B2L.java:274-304 | on any board the driver holds with moves, the Java root search scores its negamax value strictly inside the window, and line[0] is the first generated move worth it |
| Search.AlphaBeta | src/Java/Engine.java:251-297 | every line has at least `maxDepth - depth` slots; Rust lines have MAX_PLY |
| Search.AlphaBetaValue | src/Java/Engine.java:251-297 | for alpha < beta the score limited to [alpha, beta] is the negamax value limited alike, and a node that searches its moves scores within the window |
| Search.SweepValue | src/Java/Engine.java:275-295 | the move loop computes the best child value limited to [alpha, beta] |
| Search.AlphaBetaLine | src/Java/Engine.java:283-292 | slots outside the plies below a node stay unwritten; a node that searches leaves at its own ply one of its moves, or an unwritten slot when no move raised alpha |
| Search.BestBounds | src/Java/Engine.java:275-295 | the best child value is at least what every move is worth |
| Search.SweepUnraised | src/Java/Engine.java:287-292 | the move loop never scores below alpha, and scoring alpha it returns the line it was given |
| Search.SweepBest | src/Java/Engine.java:287-292 | a loop ending strictly inside its window writes at its ply the first of the moves worth its score, since only `eval > alpha` replaces the line |
| Search.AlphaBetaBestMove | src/Rust/ut3b2l/src/main.rs:470-476 | a node whose score is strictly inside its window scores its negamax value, and its line holds at its ply the first generated move worth that value, no move being worth more |
| Search.JavaValueInside | src/Java/Engine.java:251-272 | in Java, while moves empty cells, the value of a node lies strictly between the sentinels, whatever the depth |
| Search.JavaBestInside | src/Java/Engine.java:275-295 | in Java the best child value lies strictly between the sentinels |
| Search.JavaRootMove | src/Java/UT3B2L.java:274-304 | the Java root search of a board with moves scores its negamax value, strictly between the sentinels, and line[0] is the first generated move worth it |
| Search.AlphaBetaOnBoard | src/Java/UT3B2L.java:286-291 | in Java every slot of a line names a cell, so it can be printed as a move string |
| Search.SimulatedAlphaBeta | src/Java/Engine.java:251-297 | a game simulated by another searches to the same score and line |
| JavaEngine.JavaLargeIndex | src/Java/Engine.java:224 | `(share >> 36) & DBLCHUNK` on `long` is the large-grid index |
| JavaEngine.JavaZoneField | src/Java/Engine.java:150 | `(share >> 54) & 0b1111` on `long` is the zone field |
| JavaEngine.JavaLargeBits | src/Java/Engine.java:228 | `((share >> 36) \| (share >> 45)) & CHUNK` on `long` marks exactly the won zones |
| JavaEngine.JavaZoneData | src/Java/Engine.java:235-243 | the Java shifts on `long` read each zone's cells of each player |
| JavaEngine.AnyZoneJava | src/Java/Engine.java:155-167 | with any zone to play, the cells the two Java loops take from `nwToSw`, `sToSe` and `large` are the open cells |
| JavaEngine.SouthZoneJava | src/Java/Engine.java:168-175 | in zones 7 and 8 the cells the Java loop takes are the open cells |
| JavaEngine.NorthZoneJava | src/Java/Engine.java:176-183 | in zones 0..6 the cells the Java loop takes are the open cells |
| JavaEngine.Engine.constructor | src/Java/Engine.java:37-113 | `Engine()` builds fresh tables holding the specified entries |
| JavaEngine.Engine.GenerateMoves | src/Java/Engine.java:143-187 | `generateMoves` returns the shared generator's list, hence the legal moves |
| JavaEngine.Engine.ScanAny | src/Java/Engine.java:155-167 | the two loops add exactly the free cells of unwon zones, in order |
| JavaEngine.Engine.ScanZone | src/Java/Engine.java:168-183 | the nine-cell loop adds exactly the zone's free cells, in order |
| JavaEngine.Engine.PlaceStone | src/Java/Engine.java:193-204 | the stone is placed and `lineOccupancy` says whether the mover now has a line in the zone |
| JavaEngine.Engine.NextZone | src/Java/Engine.java:209-215 | `zone` is the rules' next zone |
| JavaEngine.Engine.PlayMove | src/Java/Engine.java:189-218 | `playMove` is the shared move, and on a playable move the encoding of the rules' next position |
| JavaEngine.Engine.Evaluate | src/Java/Engine.java:220-249 | `evaluate` is the shared board evaluation over the engine's tables |
| JavaEngine.Engine.AddZones | src/Java/Engine.java:232-247 | the two zone loops add the sum of the zone terms |
| JavaEngine.Engine.AddZone | src/Java/Engine.java:237-239 | one turn skips a won or full zone and otherwise adds its small entry |
| JavaEngine.Engine.AlphaBeta | src/Java/Engine.java:251-297 | `alphaBeta` returns a fresh line and exactly the Java search's score and line |
| JavaEngine.Engine.LoopTurn | src/Java/Engine.java:277-294 | one loop turn keeps the loop equal to the specified sweep |
| JavaEngine.Engine.ChildSearch | src/Java/Engine.java:278-283 | the child search is the specified search of the child with the window negated, its move written at slot `maxDepth - depth` |
| RustEngine.ToggleShift | src/Rust/ut3b2l/src/main.rs:61-70 | `toggle_shift(side, num)` is num for the second player and 0 for the first |
| RustEngine.ToggleEval | src/Rust/ut3b2l/src/main.rs:72-80 | `toggle_eval(side, num)` turns num to the point of view of `side` |
| RustEngine.ToggleEvalTwice | src/Rust/ut3b2l/src/main.rs:72-80 | toggling twice gives the number back |
| RustEngine.PlaceStone | src/Rust/ut3b2l/src/main.rs:307-322 | the stone is placed and `line_occupancy` says whether the mover now has a line in the zone |
| RustEngine.PlayMove | src/Rust/ut3b2l/src/main.rs:298-352 | `play_move` is the shared move, and on a playable move the encoding of the rules' next position |
| RustEngine.NodeMoves | src/Rust/ut3b2l/src/main.rs:441 | the moves a node iterates over are the game's moves, all on the board |
| RustEngine.AlphaBeta | src/Rust/ut3b2l/src/main.rs:422-509 | `alpha_beta` returns exactly the Rust search's score and MAX_PLY line |
| RustEngine.LoopTurn | src/Rust/ut3b2l/src/main.rs:451-484 | one turn of the loop keeps the loop equal to the specified sweep |
| PythonEngine.AndEighteen | src/Python/UT3B2L.py:144 | `side and 18` is 18 for the second player and 0 for the first |
| PythonEngine.GroupsOfZone | src/Python/UT3B2L.py:145-156 | some group of `lines((w >> k) & CHUNK)` is LINE exactly when the nine bits from k hold a line |
| PythonEngine.EitherGroupFull | src/Python/UT3B2L.py:112-116 | the first loop finds a full group exactly when one of the two large-grid words has one |
| PythonEngine.AnyGroupFull | src/Python/UT3B2L.py:115 | the `any(..)` over the eight groups holds exactly when some group is LINE |
| PythonEngine.LargeLineFound | src/Python/UT3B2L.py:112-116 | the first loop finds a line exactly when `line_presence` holds on either large-grid word |
| PythonEngine.AnyZonePython | src/Python/UT3B2L.py:124-130 | with any zone to play, the cells `case 9` takes from `data1`, the masked `data2` and the large bits are the open cells |
| PythonEngine.SouthZonePython | src/Python/UT3B2L.py:131-134 | in zones 7 and 8 the cells the loop takes are the open cells |
| PythonEngine.NorthZonePython | src/Python/UT3B2L.py:135-138 | in zones 0..6 the cells the loop takes are the open cells |
| PythonEngine.ZoneSwitch | src/Python/UT3B2L.py:117-139 | the `match` lists the free cells of an unfinished board |
| PythonEngine.ScanAny | src/Python/UT3B2L.py:124-130 | `case 9` adds exactly the free cells of unwon zones, in order |
| PythonEngine.ScanZone | src/Python/UT3B2L.py:131-138 | a zone case adds exactly the zone's free cells, in order |
| PythonEngine.GenerateMoves | src/Python/UT3B2L.py:110-139 | `generate_moves` returns the shared generator's list, hence the legal moves |
| PythonEngine.PlaceStone | src/Python/UT3B2L.py:143-151 | the stone is placed and `line_occupy` records the mover's zone |
| PythonEngine.NextChunk | src/Python/UT3B2L.py:152-155 | `next_chunk` holds the occupied cells of the target zone |
| PythonEngine.ZoneLineWon | src/Python/UT3B2L.py:156 | `line_won` says whether the mover's zone holds a line |
| PythonEngine.ChunkBeforeWon | src/Python/UT3B2L.py:152-158 | reading `next_chunk` before the won bit is set reads the same cells |
| PythonEngine.PlayMove | src/Python/UT3B2L.py:141-163 | `play_move` is the shared move, and on a playable move the encoding of the rules' next position |
| PythonEngine.Evaluate | src/Python/UT3B2L.py:165-184 | `evaluate` is the shared board evaluation over the tables |
| PythonEngine.AddZone | src/Python/UT3B2L.py:175-183 | one turn skips a full or won zone and otherwise adds its small entry |
| PythonEngine.AlphaBeta | src/Python/UT3B2L.py:186-226 | `alpha_beta` returns a fresh line and exactly the Python search's score and line |
| PythonEngine.LoopTurn | src/Python/UT3B2L.py:210-225 | one turn of the loop keeps the loop equal to the specified sweep |
| PythonEngine.ChildSearch | src/Python/UT3B2L.py:211-220 | the child search is the specified search of the child, its move written at slot `max_depth - depth` |
| PyLines.LinesAreRuleLines | UltimateTicTacToe_Python/ultimate-tictactoe-new.py:3 | the eight slices select exactly the rules' eight lines, in order |
| PyLines.CountOfLine | UltimateTicTacToe_Prod/ultimate-tictactoe.py:14 | counting v on a line's slice counts the line's cells holding v |
| PyLines.ThreeOfLine | UltimateTicTacToe_Python/ultimate-tictactoe-new.py:3 | a slice equals `[v, v, v]` exactly when the line is full of v, and exactly when it counts three v |
| ListEngine.AbsEncode | UltimateTicTacToe_Python/ultimate-tictactoe-new.py:9-30 | encoding a position as lists and reading it back gives it |
| ListEngine.EncodeAbs | UltimateTicTacToe_Python/ultimate-tictactoe-new.py:9-30 | a well-formed list board is the encoding of the position it represents |
| ListEngine.StartBoardIsStart | UltimateTicTacToe_Python/ultimate-tictactoe-new.py:147-161 | the board of `main` is the starting position |
| ListEngine.ThreeIsGameOver | UltimateTicTacToe_Python/ultimate-tictactoe-new.py:11-13 | a large-grid line of three 1s or three -1s exists exactly when the game is over |
| ListEngine.MoveGen | UltimateTicTacToe_Python/ultimate-tictactoe-new.py:9-18 | `move_gen` lists cells of the board, strictly ascending |
| ListEngine.MoveGenMembers | UltimateTicTacToe_Python/ultimate-tictactoe-new.py:9-18 | a move is listed exactly when no large line exists, its cell is 0, and its zone is open or forced |
| ListEngine.MoveGenIsRules | UltimateTicTacToe_Python/ultimate-tictactoe-new.py:9-18 | `move_gen` lists the rules' legal moves, in the same order |
| ListEngine.PlayMove | UltimateTicTacToe_Python/ultimate-tictactoe-new.py:20-30 | `play_move` builds a well-formed board for the rules' next position |
| ListEngine.PlayMoveMeaning | UltimateTicTacToe_Python/ultimate-tictactoe-new.py:20-30 | the new lists and zone are the rules' position after the move |
| ListEngine.ScoreLargeLines | UltimateTicTacToe_Python/ultimate-tictactoe-new.py:35-55 | the large-line loop returns a sentinel at the first decisive line and otherwise sums the line scores 90/20 |
| ListEngine.ScoreZones | UltimateTicTacToe_Python/ultimate-tictactoe-new.py:58-76 | the zone loop adds the line scores of every open zone |
| ListEngine.ScoreZoneLines | UltimateTicTacToe_Python/ultimate-tictactoe-new.py:61-76 | one zone's lines add 8 for two cells and 1 for one, ours minus theirs, skipping contested lines |
| ListEngine.Evaluate | UltimateTicTacToe_Python/ultimate-tictactoe-new.py:32-85 | `evaluate`, with the draw score 0 where the source names `OUTCOME_DRAW`, is the specified list evaluation |
| ListEngine.EvalSentinels | UltimateTicTacToe_Python/ultimate-tictactoe-new.py:35-55 | +10000000 when only the mover has a large line, -10000000 when only the opponent has one, and no decision without a line |
| ListEngine.EvalAntisymmetric | UltimateTicTacToe_Python/ultimate-tictactoe-new.py:32-85 | the evaluation for side False is minus that for side True, and both or neither reach the undefined name |
| ListEngine.EvalBound | UltimateTicTacToe_Python/ultimate-tictactoe-new.py:32-85 | without a large line the evaluation is at most 3234 in magnitude |
| ListEngine.EvalAsWrittenReached | UltimateTicTacToe_Python/ultimate-tictactoe-new.py:56-57 | on valid positions with moves the undefined name is never reached |
| ListEngine.UndefinedDraw | UltimateTicTacToe_Python/ultimate-tictactoe-new.py:56-57 | a large grid with every zone won and no line makes `evaluate` reach the undefined `OUTCOME_DRAW` |
| ListEngine.ScoreNoMoves | UltimateTicTacToe_Python/ultimate-tictactoe-new.py:88-97 | a node without moves scores ±10000000 adjusted by the depth searched, or 0 |
| ListEngine.AlphaBeta | UltimateTicTacToe_Python/ultimate-tictactoe-new.py:87-110 | `alpha_beta` returns exactly the specified list search |
| ListEngine.SearchMoves | UltimateTicTacToe_Python/ultimate-tictactoe-new.py:100-110 | the move loop returns exactly the specified sweep from an empty line |
| ListEngine.SearchChild | UltimateTicTacToe_Python/ultimate-tictactoe-new.py:102 | a child is the specified search after the move, with the window negated and swapped |
| ListEngine.AlphaBetaValue | UltimateTicTacToe_Python/ultimate-tictactoe-new.py:87-110 | for alpha < beta the score limited to [alpha, beta] is the negamax value limited alike |
| ListEngine.AlphaBetaLine | UltimateTicTacToe_Python/ultimate-tictactoe-new.py:100-110 | the returned line is a playable line of at most `depth` moves |
| ListEngine.BestBounds | UltimateTicTacToe_Python/ultimate-tictactoe-new.py:100-110 | the best child value is at least what every move is worth |
| ListEngine.SweepUnraised | UltimateTicTacToe_Python/ultimate-tictactoe-new.py:105-109 | the move loop never scores below alpha, and scoring alpha it returns the line it was given |
| ListEngine.SweepBest | UltimateTicTacToe_Python/ultimate-tictactoe-new.py:105-109 | a loop ending strictly inside its window returns a line starting with the first of the moves worth its score |
| ListEngine.AlphaBetaBestMove | UltimateTicTacToe_Python/ultimate-tictactoe-new.py:87-110 | a node scoring strictly inside its window scores its negamax value, and its line starts with the first generated move worth it, no move being worth more |
| ListEngine.PlayableIsLegal | UltimateTicTacToe_Python/ultimate-tictactoe-new.py:9-30 | a playable line is a legal line of the rules |
| ListEngine.ListGameImplements | UltimateTicTacToe_Python/ultimate-tictactoe-new.py:9-85 | the engine's functions form a game that implements the list engine |
| ListEngine.RootSearch | UltimateTicTacToe_Python/ultimate-tictactoe-new.py:166-168 | the call of `main` on a node with moves scores the negamax value, and line[0], the move played, is the first generated move worth it |
| ListEngine.EvalStringBand | UltimateTicTacToe_Python/ultimate-tictactoe-new.py:132-140 | a score string's first character names its band |
| ListEngine.EvalStringInjective | UltimateTicTacToe_Python/ultimate-tictactoe-new.py:132-140 | different scores have different strings |
| ListEngine.EvalStringMate | UltimateTicTacToe_Python/ultimate-tictactoe-new.py:132-136 | a win n plies away is written "W" and n, a loss "L" and n |
| ListEngine.EvalStringOfEval | UltimateTicTacToe_Python/ultimate-tictactoe-new.py:132-140 | a heuristic evaluation is never written as a win or a loss |
| StringEngine.StartBoardIsStart | UltimateTicTacToe_Prod/ultimate-tictactoe.py:124-127 | the board of `main` is the starting position |
| StringEngine.ThreeIsGameOver | UltimateTicTacToe_Prod/ultimate-tictactoe.py:18-20 | a large-grid line counting three 'X' or three 'O' exists exactly when the game is over |
| StringEngine.SortPermutes | UltimateTicTacToe_Prod/ultimate-tictactoe.py:25 | the sort rearranges the list |
| StringEngine.SortDescending | UltimateTicTacToe_Prod/ultimate-tictactoe.py:25 | the sorted keys descend |
| StringEngine.SortStable | UltimateTicTacToe_Prod/ultimate-tictactoe.py:25 | moves of equal key keep their order |
| StringEngine.MoveGenIsRules | UltimateTicTacToe_Prod/ultimate-tictactoe.py:16-26 | `move_gen` is the rules' moves sorted stably by key, largest first: a permutation, descending, stable |
| StringEngine.MoveGenLegal | UltimateTicTacToe_Prod/ultimate-tictactoe.py:16-26 | on a valid position a move is listed exactly when it is legal |
| StringEngine.PlayAsWritten | UltimateTicTacToe_Prod/ultimate-tictactoe.py:28-42 | the as-written move keeps the board well formed and places the stone and won zone as the rules do |
| StringEngine.PlayMove | UltimateTicTacToe_Prod/ultimate-tictactoe.py:28-42 | the corrected move gives a well-formed board for the rules' next position |
| StringEngine.PlacedMeaning | UltimateTicTacToe_Prod/ultimate-tictactoe.py:29-36 | the new zones and large grid are the rules' cells and large grid after the move |
| StringEngine.AsWrittenAgrees | UltimateTicTacToe_Prod/ultimate-tictactoe.py:37-40 | as written and corrected agree when the zone played in and the zone sent to are both full or both not |
| StringEngine.AsWrittenZone | UltimateTicTacToe_Prod/ultimate-tictactoe.py:37-40 | as written, a move leaving room in its own zone forces the zone of its cell whenever that zone is unwon, full or not |
| StringEngine.SquareFocusFinding | UltimateTicTacToe_Prod/ultimate-tictactoe.py:37-40 | in a valid position where X may play cell 1 of zone 0 and zone 1 is full: as written zone 1 is forced and no move is listed; corrected, any zone may be played and cell 0 is listed |
| StringEngine.AsWrittenStops | UltimateTicTacToe_Prod/ultimate-tictactoe.py:37-40 | as written, X playing cell 1 of zone 0 forces full zone 1, where `move_gen` lists nothing |
| StringEngine.CorrectedGoesOn | UltimateTicTacToe_Prod/ultimate-tictactoe.py:37-40 | corrected, the same move leaves any zone to play, cell 0 among the moves |
| StringEngine.ForcedFullZone | UltimateTicTacToe_Prod/ultimate-tictactoe.py:24 | a forced zone without an empty cell gives no moves |
| StringEngine.ScoreLargeLines | UltimateTicTacToe_Prod/ultimate-tictactoe.py:47-63 | the large-line loop returns a sentinel at the first complete line and otherwise sums the line scores 200/100 |
| StringEngine.ScoreZones | UltimateTicTacToe_Prod/ultimate-tictactoe.py:66-82 | the zone loop adds the line scores of every open zone |
| StringEngine.ScoreZoneLines | UltimateTicTacToe_Prod/ultimate-tictactoe.py:71-82 | one zone's lines add 25 for two cells and 10 for one, ours minus theirs |
| StringEngine.Evaluate | UltimateTicTacToe_Prod/ultimate-tictactoe.py:44-83 | `evaluate` is the specified string evaluation |
| StringEngine.FirstThreeIsFirstDecisive | UltimateTicTacToe_Prod/ultimate-tictactoe.py:49-63 | not skipping contested lines changes no decision: a complete line is untouched by the other side |
| StringEngine.EvalSentinels | UltimateTicTacToe_Prod/ultimate-tictactoe.py:47-63 | OUTCOME_WIN when only the mover has a large line, OUTCOME_LOSS when only the opponent has one, and no decision without a line |
| StringEngine.EvalAntisymmetric | UltimateTicTacToe_Prod/ultimate-tictactoe.py:44-83 | the evaluation for side False is minus that for side True |
| StringEngine.EvalBound | UltimateTicTacToe_Prod/ultimate-tictactoe.py:44-83 | without a large line the evaluation is at most 3400 in magnitude |
| StringEngine.AlphaBeta | UltimateTicTacToe_Prod/ultimate-tictactoe.py:98-116 | `alpha_beta`, with `play_move` as written, returns exactly the specified string search of the engine's game |
| StringEngine.SearchMoves | UltimateTicTacToe_Prod/ultimate-tictactoe.py:106-116 | the move loop returns exactly the specified sweep from `pv = prev_line` |
| StringEngine.SearchChild | UltimateTicTacToe_Prod/ultimate-tictactoe.py:108-110 | a child is the specified search after `play_move` as written, the window negated and the move appended to the line |
| StringEngine.AlphaBetaValue | UltimateTicTacToe_Prod/ultimate-tictactoe.py:98-116 | for alpha < beta the score limited to [alpha, beta] is the negamax value limited alike, whatever line is given |
| StringEngine.SweepFirstValue | UltimateTicTacToe_Prod/ultimate-tictactoe.py:113-115 | from an empty line the first child is adopted even at or below alpha, and the limited score is still the limited value |
| StringEngine.AlphaBetaLine | UltimateTicTacToe_Prod/ultimate-tictactoe.py:98-116 | the returned line extends the given one by a playable line of at most `depth` moves, at least one from an empty line |
| StringEngine.ChildLine | UltimateTicTacToe_Prod/ultimate-tictactoe.py:108-110 | the line a child returns holds the move just after the line it was given |
| StringEngine.BestBounds | UltimateTicTacToe_Prod/ultimate-tictactoe.py:106-116 | the best child value is at least what every move is worth |
| StringEngine.SweepUnraised | UltimateTicTacToe_Prod/ultimate-tictactoe.py:111-115 | from a nonempty line the move loop never scores below alpha, and scoring alpha it returns the line it was given |
| StringEngine.SweepBest | UltimateTicTacToe_Prod/ultimate-tictactoe.py:111-115 | a loop ending strictly inside its window holds, just after the given line, the first of the moves worth its score |
| StringEngine.AlphaBetaBestMove | UltimateTicTacToe_Prod/ultimate-tictactoe.py:98-116 | a node scoring strictly inside its window scores its negamax value, and just after the given line stands the first generated move worth it, no move being worth more |
| StringEngine.PlayableIsLegal | UltimateTicTacToe_Prod/ultimate-tictactoe.py:16-42 | with the corrected move, a playable line is a legal line of the rules |
| StringEngine.GameStep | UltimateTicTacToe_Prod/ultimate-tictactoe.py:16-42 | with the corrected move, a generated move is legal and gives the rules' next position |
| StringEngine.StringGameImplements | UltimateTicTacToe_Prod/ultimate-tictactoe.py:16-83 | the engine's functions, with `play_move` as written, form a game that implements the string engine |
| StringEngine.CorrectedGamePlays | UltimateTicTacToe_Prod/ultimate-tictactoe.py:16-42 | the corrected game lists `move_gen`'s moves and plays the corrected move |
| StringEngine.StringGameBounded | UltimateTicTacToe_Prod/ultimate-tictactoe.py:44-83 | in the engine's game every node with moves evaluates within 3400 of zero |
| StringEngine.CorrectedGameBounded | UltimateTicTacToe_Prod/ultimate-tictactoe.py:44-83 | in the corrected game every node with moves evaluates within 3400 of zero |
| StringEngine.RootSearch | UltimateTicTacToe_Prod/ultimate-tictactoe.py:131-133 | for any game whose evaluations are bounded, with depth at least 1, the root call on a node with moves scores the negamax value, and `line[0]` is the first generated move worth it |
| StringEngine.MainSearch | UltimateTicTacToe_Prod/ultimate-tictactoe.py:131-133 | the searches of `main`, with `play_move` as written, score the negamax value of the engine's game, and `line[0]`, the move played, is the first listed move worth it |
| StringEngine.SearchesPart | UltimateTicTacToe_Prod/ultimate-tictactoe.py:98-110 | after X plays cell 1 of zone 0 in the finding's position, the search as written meets a leaf without moves and scores it a draw at every depth, while the corrected child has moves |
| StringEngine.DrawnLeaf | UltimateTicTacToe_Prod/ultimate-tictactoe.py:99-103 | a node without moves and without a large line returns the draw score and the line it was given |
| StringEngine.AsWrittenChild | UltimateTicTacToe_Prod/ultimate-tictactoe.py:28-42 | as written, that child has no move and no large line |
| StringEngine.AsWrittenLarge | UltimateTicTacToe_Prod/ultimate-tictactoe.py:29-36 | one stone in zone 0 wins nothing, so the large grid stays empty |
| StringEngine.RootValue | UltimateTicTacToe_Prod/ultimate-tictactoe.py:131 | the root score is the negamax value |
| Text.JoinSplit | src/Java/UT3B2L.java:180 | joining a split gives the string back |
| Text.JavaSplit | src/Java/UT3B2L.java:70 | no field of Java's `split` holds the separator |
| Text.JavaSplitJoin | src/Java/UT3B2L.java:164 | a string is its Java split's fields joined, followed by one separator per dropped empty field |
| Text.Compress | src/Java/UT3B2L.java:138-147 | the replace chain leaves no dot |
| Text.ExpandCompress | src/Java/UT3B2L.java:138-163 | expanding the compressed rows gives them back |
| Text.IntStringInjective | src/Java/UT3B2L.java:93-104 | different integers have different numerals |
| Notation.ZoneNames | src/Java/UT3B2L.java:23 | the nine zone names are distinct and hold neither '/', ' ', a digit nor "any" |
| Notation.MoveStringFields | src/Java/UT3B2L.java:65-70 | a move string, with any number of '/' after it, splits into its zone and cell names |
| Notation.MoveStringInjective | src/Java/UT3B2L.java:65-67 | different moves have different strings (also Rust `move_string`, Python `move_string`) |
| Notation.MoveFromString | src/Java/UT3B2L.java:69-83 | `moveFromString` accepts exactly the move strings, with any number of '/' after them, and reads each as its move; anything else is a FormatException |
| Notation.EvalStringBand | src/Java/UT3B2L.java:93-104 | a score string's first character names its band (loss, win, draw, positive, negative) |
| Notation.EvalStringInjective | src/Java/UT3B2L.java:93-104 | different scores have different strings (also Rust `eval_string`, src/Rust/ut3b2l/src/main.rs:591-601) |
| Notation.EvalStringMate | src/Python/UT3B2L.py:254-258 | a win n plies away is written "W" and n, a loss "L" and n |
| Notation.EvalStringOfEvaluation | src/Java/UT3B2L.java:93-104 | the static evaluation of an unfinished game is never written as a win or loss |
| PositionText.ZoneOfName | src/Java/UT3B2L.java:169-179 | a zone name is one of the nine names or "any", and reads as its zone |
| PositionText.CellCharAt | src/Java/UT3B2L.java:120-132 | the character appended is the cell's: 'x' looked at before 'o' |
| PositionText.RowIndicesAt | src/Java/UT3B2L.java:113-118 | the `k` loop lists the nine cells of the display row |
| PositionText.RowString | src/Java/UT3B2L.java:119-133 | the row holds the characters of the listed cells |
| PositionText.DisplayRows | src/Java/UT3B2L.java:110-137 | the row loops build the nine display rows of the position |
| PositionText.BoardString | src/Java/UT3B2L.java:106-150 | `boardString` is the position string of the board's position |
| PositionText.RowIndices | src/Java/UT3B2L.java:185-194 | the triple loop lists the cell shown at each of the 81 places |
| PositionText.ReadChar | src/Java/UT3B2L.java:197-207 | one character sets the bit of its cell for 'x', else 'o' |
| PositionText.ReadCells | src/Java/UT3B2L.java:195-208 | the character loop reads every row character into the words |
| PositionText.MarkZone | src/Java/UT3B2L.java:212-215 | a zone gets the first player's won bit on their line, else the second's |
| PositionText.FirstSeven | src/Java/UT3B2L.java:209-216 | the first loop marks zones 0..6 from `firstSevenUs` and `firstSevenThem` |
| PositionText.LastTwo | src/Java/UT3B2L.java:217-224 | the second loop marks zones 7 and 8 from `lastTwoUs` and `lastTwoThem` |
| PositionText.WonBits | src/Java/UT3B2L.java:209-224 | the won-zone loops mark each zone for the first player with a line, else the second, and change nothing else |
| PositionText.ZoneShare | src/Java/UT3B2L.java:169-179 | the zone field found is the name's zone, at bit 54 |
| PositionText.ReadRows | src/Java/UT3B2L.java:180-225 | the cell field reads as specified: nine rows of nine, or a FormatException |
| PositionText.BoardFromString | src/Java/UT3B2L.java:152-226 | `boardFromString` computes the specified reader, None for a FormatException |
| PositionText.ParsedBoard | src/Java/UT3B2L.java:209-225 | a board that reads meets the layout; a zone is won by the first player exactly when they have a line, by the second when they have one and the first does not |
| PositionText.PositionRoundTrip | src/Java/UT3B2L.java:106-226 | reading the string of a valid position gives the position's encoding back |
| PositionText.BoardRoundTrip | src/Java/UT3B2L.java:106-226 | `boardFromString(boardString(b)) == b` for every valid board |
| Driver.InitialBoard | src/Java/UT3B2L.java:235 | the first history board encodes the starting position and is valid |
| Driver.ParseInt | src/Java/UT3B2L.java:269 | a value read fits an `int` |
| Driver.ParseIntString | src/Java/UT3B2L.java:269 | every `int` numeral reads back as its value |
| Driver.MoveStrings | src/Java/UT3B2L.java:85-91 | one move string per slot of the line |
| Driver.PvStringFields | src/Java/UT3B2L.java:291 | the printed line splits back at ' ' into its move strings |
| Driver.PvStringInjective | src/Java/UT3B2L.java:291 | different lines print differently |
| Driver.EngineGameIsRules | src/Java/UT3B2L.java:323-326 | on a valid board the engine lists exactly the legal moves, and a listed move gives the valid encoding of the rules' next position |
| Driver.Session.constructor | src/Java/UT3B2L.java:231-235 | the engine is built, and the history holds the starting board with NULL_MOVE |
| Driver.Session.Push | src/Java/UT3B2L.java:298-304 | `history.add` appends the pair and keeps the history's invariant |
| Driver.Session.NewGameAsWritten | src/Java/UT3B2L.java:250-261 | as written, a position that reads replaces the history; one that does not leaves it empty |
| Driver.Session.NewGame | src/Java/UT3B2L.java:245-262 | corrected, a position that reads replaces the history; one that does not leaves it as it was |
| Driver.InvalidNewGame | src/Java/UT3B2L.java:250-261 | `newgame x any` names a position that does not read |
| Driver.Session.SearchCurrent | src/Java/UT3B2L.java:274-286 | the search of `go` is the Java search of the current board for the side to move, with every slot a cell |
| Driver.Session.Go | src/Java/UT3B2L.java:263-309 | a depth of 0 or less is refused and changes nothing; otherwise the reply is the info line; a board without moves gives an empty line and nothing is pushed; on a board with moves the score is the negamax value and line[0], the first generated move worth it, is played and pushed |
| Driver.Session.PlayNull | src/Java/UT3B2L.java:315-318 | `play null` pushes a copy of the last entry and shows the position |
| Driver.Session.PlayListed | src/Java/UT3B2L.java:320-330 | a generated move is played for the side to move and pushed; any other is illegal and changes nothing |
| Driver.Session.PlayText | src/Java/UT3B2L.java:320-333 | a move string that does not read is invalid and changes nothing; one that reads is played and pushed with the new position as reply when listed, and is illegal otherwise |
| Driver.Session.Play | src/Java/UT3B2L.java:310-335 | `null` pushes a copy of the last entry and shows the position; an unreadable move is invalid; a move that reads is played and pushed when listed and illegal otherwise, with the reply of each case |
| Driver.Session.Undo | src/Java/UT3B2L.java:336-348 | the last entry is removed unless it is the only one; the replies say which |
| Driver.Session.GamePos | src/Java/UT3B2L.java:349-350 | the reply is the current position's string; nothing changes |
| Driver.Session.Execute | src/Java/UT3B2L.java:239-361 | per keyword: too few arguments get that keyword's error reply and change nothing; `newgame` has the effect and reply of the corrected `Driver.Session.NewGame`; `go`, `play` and `undo` have exactly the effect and reply of their commands, `gamepos` shows the position, `d` and `q` change nothing, `q` alone quits, and any other keyword is `badkeyword` |

## Left out

- Input and output are left out: `printBoard`/`print_board`, `Scanner`/`input`, the timing of `go`, and `main` in the Rust, Python and string engines. `Driver.Session.Execute` takes the tokens of a command line and returns the reply line. `Driver.Session.Go` takes the elapsed time as a parameter.
- The Rust and Python `main` loops and `input_player_move` are left out: they only read moves, print and call the modelled functions.
- Driver.Session.Execute: its `newgame` is the corrected `Driver.Session.NewGame` (first row of "## Findings"), so a position that does not read leaves the history as it was. As written (UT3B2L.java:251-260), `history.clear()` runs first and the history is left empty; `Driver.Session.NewGameAsWritten` models that command alone. The session never reaches the empty history, so the commands that would then fail on `history.get(-1)` are not modelled in that state, nor is `undo`'s reply there (UT3B2L.java:337-339).
- Driver.ParseInt: only the ASCII digits '0'..'9' are read. `Integer.parseInt` (UT3B2L.java:269) reads digits through `Character.digit`, which also accepts the decimal digits of other scripts, such as the fullwidth '５' or the Arabic-Indic '٣'. So `go ５` searches to depth 5 in Java, while the model replies "info error invalid depth".
- The `d` command only prints the board; `Driver.Session.Execute` models it as doing nothing, and `q` as setting `quit`.
- The Java `split("\\s+")` of a command line is not modelled; the command arrives already split.
- Java's `split` is modelled with limit 0 (`Text.JavaSplit`): trailing empty fields are dropped, and a string without the separator is its own field. Regular-expression separators other than one character are not modelled.
- Python's unbounded integers are modelled as 64-bit words. The Python bitboard engine never sets a bit above 63, so nothing is lost.
- Arithmetic on Java `int`, Rust `i32` and Python scores is unbounded in the model. Every score stays far below 2^31, so nothing wraps.
- Rust iterators (`filter`, `chain`, `fold`, the `loop` over `move_list.next()`) are modelled as the sequences and loops they stand for. Their laziness is not modelled.
- Python's `[None] * n` lines are modelled with NULL_MOVE in the unwritten slots. Printing a line with `None` in it is not modelled.
- The tables are modelled as a specification (`Tables.LargeEntry`, `Tables.SmallEntry`) that the fill loops are proved to compute. No entry's concrete value is stated.
- Search.JavaRootMove: the root guarantee is proved for the Java port only. The Rust and Python ports score a horizon leaf by the evaluation unshifted, so a root score can meet the window's edge, where Search.AlphaBetaBestMove promises nothing about the move.
- PositionText.ParseRows: Java's `row.length()` (UT3B2L.java:180-183) counts UTF-16 code units, and a Dafny string counts characters. The two differ on characters outside the Basic Multilingual Plane: a row of eight characters holding one such character has Java length 9, so Java reads it, each half of the pair as an empty cell, while `ParseRows` refuses it; a row of nine characters holding one is read here and refused by Java.
- RustEngine.AlphaBeta: the model takes `max_depth` of at most MAX_PLY (81), through `Search.Bounds`. The Rust `main` (main.rs:646-656) reads any `usize`. Each slot is written at the ply `max_depth - depth` (main.rs:468), which stays below 81 because no game lasts longer. So a larger depth is a search to the end of the game, with leaves scored by the no-moves branch (main.rs:495-504). Those depths are not modelled.
- PythonEngine.AlphaBeta: negative depths are not modelled (`depth: nat`). `int(input(...))` at UT3B2L.py:280 accepts them; `depth == 0` (UT3B2L.py:207) then never holds, and the search runs to the end of the game.
- ListEngine.AlphaBeta: negative depths are not modelled (`depth: nat`). `int(input(...))` at ultimate-tictactoe-new.py:143 accepts them; `depth == 0` (ultimate-tictactoe-new.py:98) then never holds, and the search runs to the end of the game.
- StringEngine.AlphaBeta: negative depths are not modelled (`depth: nat`). `int(sys.argv[1])` at ultimate-tictactoe.py:10 accepts them; `depth == 0` (ultimate-tictactoe.py:104) then never holds, and the search runs to the end of the game.
- ListEngine.RootSearch and StringEngine.RootSearch require a search depth of at least 1. At depth 0 the list engine's `main` would index an empty line, and so would the string engine's (`line[0]` at ultimate-tictactoe.py:133).
- ListEngine.EvalStringBand, ListEngine.EvalStringMate and ListEngine.EvalStringOfEval take the search depth as a parameter. `main` in ultimate-tictactoe-new.py assigns `SEARCHING_DEPTH` at module level, so `eval_string` reads that value.
- The Python port's `line[max_depth - depth] = mv` writes into the child's list in place; `PythonEngine.AlphaBeta` models each line as a fresh array, which is what the recursion returns.

## Findings

| source | as written | input that shows it | evidently intended | confidence | as-written member | corrected member |
|---|---|---|---|---|---|---|
| src/Java/UT3B2L.java:250-261 | `history.clear()` runs before `boardFromString` can throw, so a position that does not read leaves the history empty; a later `go`, `play` or `gamepos` then reads `history.get(-1)` | the command `newgame x any` | read the position first and keep the history when it does not read | not executed | Driver.Session.NewGameAsWritten, Driver.InvalidNewGame | Driver.Session.NewGame |
| UltimateTicTacToe_Python/ultimate-tictactoe-new.py:56-57 | `return OUTCOME_DRAW` names a constant the file never defines, so a large grid with every zone won and no line raises NameError | nine won zones, X holding zones 0, 2, 3, 7, 8 and O holding 1, 4, 5, 6 (`ListEngine.DrawnBoard`): no large line for either side; `ListEngine.FullUndecided` covers every such grid | return the draw score 0 | not executed | ListEngine.UndefinedDraw | ListEngine.Evaluate |
| UltimateTicTacToe_Prod/ultimate-tictactoe.py:37-40 | the test of whether the next zone is full reads `square_focus`, the zone just played in (`move // 9`), where the rules look at the zone sent to (`move % 9`) | zone 1 full without a line, all else empty, any zone to play: X plays cell 1 of zone 0, sending O to full zone 1, which is forced and has no move | test `small_grids[move % 9]` after the move, so a full target zone leaves any zone to play | not executed | StringEngine.PlayAsWritten, StringEngine.SquareFocusFinding, StringEngine.SearchesPart | StringEngine.PlayMove, StringEngine.CorrectedGame |
