# Reversi rules engine and alpha-beta search, modelled in Dafny

This project models the rules engine and the AI of an 8x8 Reversi (Othello) game in `main.py`:

- **`ReversiBoard`**: the opening layout, the bounds test, legal-move generation, move application with disc flipping, and disc counting.
- **`ReversiAI`**: the player and opponent it derives at construction, the positional weight table, the static evaluator, and depth-bounded minimax with fail-soft alpha-beta pruning.
- **The game loop's end-of-game test**: neither the side to move nor the other side has a legal move.

Everything is pure. A board is a value: a sequence of 64 integer cells in row-major order, with cell (x, y) at index 8x + y. This is what the per-branch `deepcopy` of the search amounts to. Modules follow the program's structure:

| file | module | what it holds |
|---|---|---|
| `board.dfy` | `ReversiBoard` | cells, bounds, `Put`, the opponent rule, the opening, counting |
| `rules.dfy` | `Rules` | the eight directions, the walk over opponent discs, the per-cell test, move generation, and the flanking rule it implements |
| `moves.dfy` | `Moves` | move application direction by direction, characterised cell by cell, and disc accounting |
| `evaluator.dfy` | `Evaluator` | the weight table, `NewAI`, `Evaluate` and its range and symmetry |
| `search.dfy` | `Search` | alpha-beta over an explicit game tree, plain minimax as the reference, and the proofs connecting them |
| `engine.dfy` | `Engine` | the game tree the rules span from a board; `Minimax` and `ChooseMove` on boards; board-level minimax |
| `game.dfy` | `Game` | the end-of-game test and what it means |
| `scenario.dfy` | `OpeningScenario` | the opening position worked through: side 1's four moves in order, and (2,3) played out |

The float infinities that start the search become the score datatype `NegInf | Fin(v) | PosInf`, with the same order. The `get_valid_moves`/`make_move` callbacks of `minimax` are fixed to the board's own functions.

`make_move` does not check legality: on any on-board cell it places the disc and flips only the runs its own disc closes off (main.py:91-107). `Moves.MakeMove` does the same.

The search runs on a `Tree` whose nodes carry their board's static score and one branch per legal move in generation order. The tree is cut off at depth 0 or when the side to move has no move. Because every function is pure, searching this tree gives the same results as the program's lazily built child boards. The search itself (`Search.AlphaBeta` with its two move loops) follows the source line for line:
- the best move is replaced only on a strict improvement;
- alpha (or beta) is updated after every child;
- the loop stops once beta <= alpha.

Plain minimax (`Search.Value`, `Engine.MinimaxValue`) is the partner definition. Against it the search is proved:
- to keep the Knuth–Moore fail-soft bounds at every node, for every window with alpha < beta;
- with the full window at the root, to return exactly the minimax value and the first legal move, in generation order, that reaches it.

## Model

| member | source | states |
|---|---|---|
| ReversiBoard.OnBoard | main.py:67-68 | the bounds test on both coordinates; characterised by `ReversiBoard.OnBoardIsIndexed` |
| ReversiBoard.OnBoardIsIndexed | main.py:67-68 | a cell passes the bounds test exactly when its row-major index lies in 0..63 and that index leads back to the same cell |
| ReversiBoard.Opponent | main.py:71 | the opponent differs from the side and is never the empty value; for sides 1 and 2 it is the other side, 3 - p |
| ReversiBoard.Opening | main.py:62-65 | the board `__init__` builds; characterised by `ReversiBoard.OpeningCells`, `ReversiBoard.OpeningAt` and `ReversiBoard.OpeningLayout` |
| ReversiBoard.OpeningCells | main.py:62-65 | index by index, the opening agrees with the table `Initial`: side 2 at indices 27 and 36, side 1 at 28 and 35, empty elsewhere |
| ReversiBoard.OpeningAt | main.py:62-65 | the opening holds side 2 on (3,3) and (4,4), side 1 on (3,4) and (4,3), and every other cell is empty |
| ReversiBoard.OpeningLayout | main.py:62-65 | the opening has two discs per side and four occupied cells |
| ReversiBoard.CountDiscs | main.py:109-112 | the pair of disc counts of sides 1 and 2; characterised by `ReversiBoard.CountIsMultiplicity`, and by `Moves.PlacementAccounting` for how a move changes it |
| ReversiBoard.CountIsMultiplicity | main.py:109-112 | the recursive count of a value equals its multiplicity in the multiset of cells, which is what counting the non-zero entries of the mask yields |
| Rules.DirectionsComplete | main.py:72 | every direction appears exactly once in the list; the list's offsets are the program's eight (dx, dy) pairs in the program's order, and every non-zero offset with both parts in -1..1 is one of them |
| Rules.Scan | main.py:75-88 | the scan of the first n cells keeps only on-board empty cells below index n, in strictly increasing row-major order; which cells it keeps is stated by `Rules.ValidMovesIffLegalAt` |
| Rules.ValidMoves | main.py:70-89 | every generated move is on the board and empty, and the list is in strictly increasing row-major order, so no cell appears twice |
| Rules.ValidMovesIffLegalAt | main.py:75-88 | a cell is generated exactly when it passes the per-cell test: empty, and some direction captures |
| Rules.RunShape | main.py:80-85 | the walk crosses the cells 1..n steps away, all holding the opponent, and halts at step n+1 on a cell that is off the board or not the opponent's |
| Rules.CapturesIffAnchoredRun | main.py:80-86 | one direction's walk test holds exactly when, for some k >= 1, the cells 1..k steps away hold the opponent and the cell k+1 steps away is on the board and holds the mover |
| Rules.AnyCaptureIff | main.py:79-88 | the direction loop that stops at its first success accepts exactly when some listed direction captures |
| Rules.LegalAtIffFlanks | main.py:77-88 | the per-cell test is the Reversi rule: empty, and placing there flanks an opponent run |
| Rules.ValidMovesFlanking | main.py:70-89 | a cell is a legal move exactly when it is on the board, empty and flanks an opponent run, in both directions of the equivalence |
| Moves.PutAll | main.py:106-107 | setting a list of cells to v changes exactly the listed cells to v |
| Moves.CapturedIsOpponent | main.py:100-107 | a cell captured by a placement held an opponent disc and is not the placed cell |
| Moves.FlipDirsSpec | main.py:96-107 | after the directions are handled in order, each on the board the earlier ones left, a cell that lies in a run flanked along one of those directions on the original board holds the mover, and every other cell is unchanged |
| Moves.FlippedIffCaptured | main.py:96-107 | lying in the run one of the eight directions flips is the same as being captured |
| Moves.MakeMove | main.py:91-107 | `make_move` on a board value; characterised by `Moves.MakeMoveSpec` and `Moves.MakeMoveCellwise` |
| Moves.MakeMoveSpec | main.py:91-107 | after the move the placed cell holds the mover; every other cell holds the mover if it was captured and is unchanged otherwise |
| Moves.MakeMoveCellwise | main.py:91-107 | every cell other than the placed one either keeps its value or turns from opponent to mover |
| Moves.FlankingMoveFlips | main.py:86-107 | a placement that flanks some run turns at least one opponent disc into the mover's |
| Moves.PlacementAccounting | main.py:91-112 | a placement on an empty cell raises the mover's count by one plus the flips, lowers the opponent's count by the flips, and raises the occupied count by one |
| Moves.LegalMoveAccounting | main.py:86-112 | for a generated move: at least one flip, the mover gains one plus the flips, the opponent loses exactly the flips, and one more cell is occupied |
| Evaluator.NewAI | main.py:7-10 | the AI keeps its player and depth, and its opponent is a different value, 3 - player for the two sides |
| Evaluator.AbsWeightTotal | main.py:11-20 | the absolute weights of the table sum to 768, the largest possible magnitude of a score |
| Evaluator.Evaluate | main.py:22-25 | the static score; characterised by `Evaluator.EvaluateIsCellSum`, `Evaluator.EvaluateBounded`, `Evaluator.EvaluateAntisymmetric` and `Evaluator.EvaluateAfterPut` |
| Evaluator.EvaluateIsCellSum | main.py:22-25 | the difference of the two masked weight sums is the cell-by-cell sum of signed weights |
| Evaluator.EvaluateBounded | main.py:22-25 | no board scores outside -768..768, whatever the player and opponent values |
| Evaluator.EvaluateAntisymmetric | main.py:22-25 | for the two sides, swapping player and opponent negates the score on every board |
| Evaluator.EvaluateAfterPut | main.py:22-25 | the empty board scores 0, and filling one empty cell moves the score by exactly that cell's signed weight |
| Search.AlphaBeta | main.py:27-58 | the score is always finite; a move comes back exactly when the node has branches, and it is one of the node's moves; a leaf returns its static score |
| Search.AlphaBetaFailSoft | main.py:27-58 | for every window alpha < beta: a true value at most alpha gives a result between it and alpha; one strictly inside the window is returned exactly; one at least beta gives a result between beta and it |
| Search.MaxLoop | main.py:33-45 | the maximising move loop; once it has run, the best-so-far holds a finite score and one of the node's moves; its bounds are stated by `Search.MaxLoopFailSoft` and `Search.MaxLoopExact` |
| Search.MinLoop | main.py:46-58 | the minimising move loop, with the same guarantee; its bounds are stated by `Search.MinLoopFailSoft` and `Search.MinLoopExact` |
| Search.MaxLoopFailSoft | main.py:33-45 | the maximising loop, resumed at any child with a best-so-far satisfying the fail-soft bounds for the earlier children, satisfies them for the maximum of all children |
| Search.MinLoopFailSoft | main.py:46-58 | the minimising loop keeps the fail-soft bounds for the minimum of all children likewise |
| Search.MaxLoopExact | main.py:33-45 | with beta infinite the maximising loop never stops early and returns the maximum child value together with the first child reaching it |
| Search.MinLoopExact | main.py:46-58 | with alpha at minus infinity the minimising loop returns the minimum child value together with the first child reaching it |
| Search.AlphaBetaRootExact | main.py:27-58 | with the full window the search returns exactly the minimax value and the first move, in branch order, reaching it |
| Search.AlphaBetaWithin | main.py:27-58 | if every static score in the tree lies in lo..hi, so does the search's score, in any window |
| Engine.GameTree | main.py:27-37 | every static score in the game tree, at every depth, lies in -768..768; its shape is stated by `Engine.GameTreeMoves` |
| Engine.GameTreeMoves | main.py:28-37 | the tree's branches are the side to move's legal moves in generation order, none at depth 0, and the node's score is its board's static score |
| Engine.Minimax | main.py:27-58 | the score is finite; no move comes back exactly when depth is 0 or the side to move has no legal move, and then the score is the board's static score; otherwise the move is a legal move of that side |
| Engine.ChooseMove | main.py:222-226 | the AI passes exactly when its depth is 0 or it has no legal move, and otherwise plays one of its legal moves |
| Engine.GameTreeValue | main.py:27-58 | the unpruned value of the game tree is the board-level minimax value, and its child values are the values of the legal moves |
| Engine.MinimaxFailSoft | main.py:27-58 | on boards, every window alpha < beta keeps the fail-soft bounds against board-level minimax |
| Engine.MinimaxRootExact | main.py:223-224 | the root call with -inf and +inf returns the board-level minimax value and the first legal move that reaches it |
| Engine.ChooseMoveIsFirstBest | main.py:222-226 | the move the AI plays is the first legal move, in generation order, whose minimax value is the best it can force |
| Engine.MinimaxValueBounded | main.py:22-58 | the minimax value of any board, at any depth, lies in -768..768 |
| Engine.MinimaxBounded | main.py:27-58 | whatever the window, the search's score lies in -768..768 |
| Game.GameOver | main.py:199 | the end-of-game test; characterised by `Game.GameOverIffStuck` |
| Game.NoMovesIffStuck | main.py:194-199 | a side has no legal move exactly when no empty cell flanks an opponent run for it |
| Game.GameOverIffStuck | main.py:199-202 | the game is over exactly when neither side can flank from any empty cell, whichever side is to move |
| Game.FullBoardOver | main.py:199-202 | a board with no empty cell ends the game |
| Game.FlanksNeedsBoth | main.py:79-88 | flanking needs an opponent disc and an own disc on the board |
| Game.OneColourOver | main.py:199-202 | once one side has no discs left, neither side can move and the game is over |
| Game.OpeningHasMoves | main.py:62-89 | at the opening both sides have a legal move |
| Game.OpeningNotOver | main.py:199-202 | the game is not over at the opening, whichever side is to move |
| OpeningScenario.OpeningRuns | main.py:62-88 | every run side 1 flanks at the opening is a single side-2 disc, reached from (2,3) looking down, (3,2) looking right, (4,5) looking left or (5,4) looking up |
| OpeningScenario.RowMajorUnique | main.py:75-87 | two row-major lists holding the same cells are equal, so the generated list is fixed by its set of cells |
| OpeningScenario.OpeningMovesOfSide1 | main.py:70-89 | at the opening, side 1's legal moves are exactly (2,3), (3,2), (4,5), (5,4), in that order |
| OpeningScenario.OpeningCaptures | main.py:91-107 | at the opening, playing (2,3) for side 1 captures (3,3) and no other cell |
| OpeningScenario.OpeningFirstFlip | main.py:91-107 | that move turns exactly one disc of side 2 into side 1 |
| OpeningScenario.OpeningFirstMove | main.py:91-112 | after that move (2,3) and (3,3) hold side 1 and every other cell is unchanged, and the disc counts are (4, 1) |

## Left out

- The pygame shell is not modelled: window, drawing, fonts, frame pacing, delays, mouse-to-cell mapping, QUIT handling and turn toggling (main.py:114-193, 196-198, 203-221, 227-232). These are I/O. Only the move list of the side to move (main.py:194), the end-of-game test (main.py:199-202) and the AI's choice of move (main.py:222-226, `Engine.ChooseMove`) are modelled. The pass at main.py:204-206 is event-loop plumbing.
- numpy boolean masks, `np.sum` and `count_nonzero` are written as explicit sums and counts over the 64 cells (`Evaluator.WeightOf`, `ReversiBoard.Count`).
- `copy.deepcopy` and the in-place writes of `make_move` are value semantics here: `Moves.MakeMove` returns the new board. The direction loop still works on the board that the earlier directions left, as the in-place `make_move` does (main.py:96-107).
- The board is one flat sequence of 64 cells rather than an 8x8 array. Cells are plain integers, as in the numpy array. Nothing restricts them to 0, 1 and 2.
- Moves.MakeMove: requires the target cell to be on the board. The source is only ever called with generated moves, or with clicks already checked against them. Python's negative-index wrap-around for an off-board call is not modelled.
- The search explores an eagerly described game tree (`Engine.GameTree`) instead of building each child board when its loop reaches it. As everything is pure, the results are the same. Cost and the number of nodes visited are not modelled.
- Search.AlphaBeta: the move returned at an inner node is discarded by its caller (main.py:38, 51). Its exact identity is therefore proved only at the root with the full window (`Search.AlphaBetaRootExact`). Inside a narrower window only membership among the node's moves is stated.
- Depth is a natural number. The program builds its AI with depth 3 (main.py:187). A negative depth never meets the `depth == 0` test at main.py:29; the source would then search until the side to move has no legal move, which ends the recursion within 60 plies, since every move fills an empty cell (main.py:77, 92).
- Evaluator.EvaluateAntisymmetric: stated for the two sides 1 and 2 only. For a player value p outside 1 and 2, the AI's opponent is 2, but the AI built for player 2 has opponent 1, not p (main.py:9), so the roles do not simply swap and the identity fails.
- The opening scenario is proved for side 1 only. Side 2's symmetric moves are covered only by `Game.OpeningHasMoves`, which states that side 2 has at least one move.
