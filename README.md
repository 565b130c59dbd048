# two-player-games: search core, engine loop and tic-tac-toe rules in Dafny

This project models the core of `two-player-games`, a small engine for
two-player, turn-based, perfect-information games:

- **Position evaluations** (`position_evaluator.dfy`). `Winning | Losing |
  Estimate(x)` and its hand-written comparison and equality. `Winning` is
  the top element and `Losing` the bottom one. Two estimates compare by
  their payload.
- **The game abstraction** (`game.dfy`). A rule pack `Rules<P, M>` bundles
  `apply`, the move generator, the oracle (`is_terminal`, `next_player`)
  and a `height` measure as function values. `Finite` states that the game
  tree is finite. `Consistent` states that the generator and the oracle
  agree: a non-terminal position has a move.
- **Move strategies** (`move_strategy.dfy`). `Search` is one recursive
  specification for both exhaustive strategies. A terminal child is scored
  by the evaluator, and a non-terminal child by its own backed-up value.
  Each level keeps the first move whose value is strictly the best. The Max
  strategy maximizes at every level. Minimax alternates and maximizes at
  the root. The loop-based methods `MaxChooseMoveRecursive` and
  `MinimaxChooseMoveRecursive` follow the source statement by statement and
  are proved to compute exactly `Search`. The `moves[0]` panic on an empty
  move list and the `choose_move` panic at a terminal position are values
  (`NoLegalMoves`, `Panic(..)`), so the fatal paths are stated and proved.
- **The game engine** (`engine.dfy`). `GameEngine` is a class with the
  source's fields. `Run` is the source's `while` loop. Its invariant is that
  the current position is the initial one with the recorded history
  replayed, and that the history is legal. Every recorded move is the one
  that the player named by the oracle chose. The loop exits only at a
  terminal position, when the oracle names nobody, or when a strategy
  panics.
- **Tic-tac-toe** (`tictactoe.dfy`). The only concrete rule pack: `apply`,
  the oracle, the generator (as a function and as the source's loop) and
  the perspective-bound evaluator. Its rule pack is proved `Finite` and
  `Consistent`, so the strategies' "non-terminal implies some move"
  precondition is proved here, not assumed.
- **A tic-tac-toe match** (`tictactoe_match.dfy`). The engine is built on
  the tic-tac-toe rule pack and run once. The run never panics. It ends at
  a terminal position unless the starting position's last player is
  neither 0 nor 1.

## Model

| member | source | states |
|---|---|---|
| PositionEvaluator.Compare | src/positionevaluator.rs:22-34 | `partial_cmp` with its arms in source order; it answers `Equal` exactly when both evaluations are the same value |
| PositionEvaluator.WinningIsTop | src/positionevaluator.rs:25-27 | `Winning` equals only `Winning`, is greater than every other evaluation, and every other evaluation is less than it |
| PositionEvaluator.LosingIsBottom | src/positionevaluator.rs:28-30 | `Losing` equals only `Losing`, is less than every other evaluation, and every other evaluation is greater than it |
| PositionEvaluator.EstimatesCompareByPayload | src/positionevaluator.rs:31 | two estimates are less, greater or equal exactly as their payloads are |
| PositionEvaluator.EqAgreesWithCompare | src/positionevaluator.rs:36-45 | `eq` holds exactly when `partial_cmp` answers `Equal`, and exactly for equal values |
| PositionEvaluator.CompareAntisymmetric | src/positionevaluator.rs:62-85 | `a > b` exactly when `b < a`; equality is symmetric |
| PositionEvaluator.CompareTransitive | src/positionevaluator.rs:62-85 | `<` and `>` are transitive |
| PositionEvaluator.CompareTotal | src/positionevaluator.rs:62-85 | any two evaluations are equal or one is strictly less than the other |
| MoveStrategy.SentinelIsWorst | src/core/move_strategy.rs:141 | the initial "best" (`Losing` when maximizing, `Winning` when minimizing) is improved on by every other evaluation |
| MoveStrategy.ArgBestIsFirstBest | src/core/move_strategy.rs:149-155 | the index kept by the strict-improvement scan holds a value nothing beats, and that value strictly beats every earlier one (first-occurrence tie-break) |
| MoveStrategy.BestStep | src/core/move_strategy.rs:75-78 | one loop iteration: the running best is replaced exactly on strict improvement, and it stays the first best of the values scanned |
| MoveStrategy.ChildEvaluationsAbort | src/core/move_strategy.rs:70 | a panic in one child's search makes the whole scan panic |
| MoveStrategy.ChildEvaluationsAt | src/core/move_strategy.rs:70-74 | each child's value is the evaluator's score when the child is terminal, and its backed-up value otherwise, in generator order |
| MoveStrategy.SearchTerminalIff | src/core/move_strategy.rs:60-62 | the search returns "no move" exactly at terminal positions |
| MoveStrategy.EmptyMovesAbort | src/core/move_strategy.rs:64-65 | an empty move list at a non-terminal position makes the search fail instead of inventing a move |
| MoveStrategy.SearchBestIsFirstOptimal | src/core/move_strategy.rs:64-80 | a successful search returns a legal move whose child value is the best of all children (max or min as the level says), and every earlier child is strictly worse |
| MoveStrategy.SearchMoveIsLegal | src/core/move_strategy.rs:65-78 | the returned move is one of the generator's moves for the position |
| MoveStrategy.ImmediateWinIsFound | src/core/move_strategy.rs:75-78 | at a maximizing level, a move that ends the game in a `Winning` position makes the backed-up value `Winning` |
| MoveStrategy.SourceTestIsBetter | src/core/move_strategy.rs:149-155 | the Minimax loop's two-armed test (`>` when maximizing, `<` when minimizing) holds exactly when the new value strictly improves on the running best for that level |
| MoveStrategy.ScanStep | src/core/move_strategy.rs:75-78 | replacing the running best move and value exactly on strict improvement keeps them the move and value at the first best index of the values scanned |
| MoveStrategy.AllChildrenWinning | src/core/move_strategy.rs:66-80 | a level whose every child is worth `Winning` backs up `Winning`, maximizing or not |
| MoveStrategy.FirstWinningMoveIsChosen | src/core/move_strategy.rs:75-78 | at a maximizing level with a consistent rule pack, a first move worth `Winning` is the move returned, since no later value is strictly greater |
| MoveStrategy.SearchNeverAborts | src/core/move_strategy.rs:64-65 | with a consistent rule pack the search never panics and succeeds at every non-terminal position |
| MoveStrategy.MaxChooseMoveRecursive | src/core/move_strategy.rs:59-81 | the loop with sentinel `Losing` and strict `>` computes the maximizing `Search` at every level |
| MoveStrategy.MinimaxChooseMoveRecursive | src/core/move_strategy.rs:134-158 | the loop with the flag-dependent sentinel and strict `>` or `<` computes the alternating `Search` |
| MoveStrategy.MaxChooseMove | src/core/move_strategy.rs:91-96 | the chosen move is legal; it panics with "no move" exactly at terminal positions; it never panics with a consistent rule pack |
| MoveStrategy.MinimaxChooseMove | src/core/move_strategy.rs:168-173 | the same, with the root maximizing |
| MoveStrategy.ChooseMove | src/core/move_strategy.rs:19-23 | dispatch to either strategy, with the same guarantees |
| TicTacToe.Apply | src/tictactoe.rs:18-23 | the move's piece lands in its cell, every other cell is unchanged, and the last player flips 0 and 1 and is always 0 or 1 afterwards |
| TicTacToe.ApplyMove | src/tictactoe.rs:18-23 | copying the receiver and assigning on the copy yields `Apply` |
| TicTacToe.TurnAlternation | src/tictactoe.rs:37-43 | after a move the oracle names the other player, and always names someone |
| TicTacToe.TerminalIffLineOrFull | src/tictactoe.rs:45-73 | terminal exactly when X or O fills one of the eight lines, or the board is full |
| TicTacToe.MovesBelow | src/tictactoe.rs:84-90 | after visiting the first `n` cells, the moves are exactly the empty ones among them, in ascending order, each with the piece to play |
| TicTacToe.GetMoves | src/tictactoe.rs:79-93 | the generator's loop returns exactly the empty cells in ascending order, with `O` after player 0 and `X` otherwise |
| TicTacToe.GeneratorAgreesWithOracle | src/tictactoe.rs:80-83 | every generated move carries the piece of the player the oracle names |
| TicTacToe.NoMovesIffFull | src/tictactoe.rs:52-62 | the move list is empty exactly on a full board, so an empty list only comes from a terminal position |
| TicTacToe.WonBoardStillHasMoves | src/tictactoe.rs:178-179 | the test's `XXX` top-row board is terminal yet has six moves |
| TicTacToe.EmptyCountAfterFill | src/tictactoe.rs:20 | filling an empty cell removes exactly one empty cell |
| TicTacToe.MoveLowersHeight | src/tictactoe.rs:18-23 | every legal move lowers the number of empty cells by one |
| TicTacToe.TicTacToeRules | src/tictactoe.rs:36-93 | the tic-tac-toe rule pack is finite and consistent |
| TicTacToe.TicTacToePositionEvaluator.Evaluate | src/tictactoe.rs:119-132 | `Winning` exactly when the evaluator's piece has a line; otherwise `Losing` exactly when the other piece has one; otherwise `Estimate(0.0)` |
| TicTacToe.DecidedOnlyWhenTerminal | src/tictactoe.rs:119-132 | an evaluator commits to `Winning` or `Losing` only at a terminal position |
| TicTacToe.EvaluatorsMirror | src/tictactoe.rs:119-132 | when at most one piece has a line, the X and O evaluators see each other's win as a loss and agree only on `Estimate(0.0)` |
| TicTacToe.StrategiesNeverPanic | src/core/move_strategy.rs:64-65 | both strategies succeed on every non-terminal tic-tac-toe position |
| TicTacToe.WinningMoveIsSeen | src/tictactoe.rs:125-126 | when the side to move can complete its own line, both strategies back up `Winning` with that side's evaluator |
| TicTacToe.WinningChild | src/core/move_strategy.rs:70-74 | seen from the parent, a child where X can complete a line is worth `Winning` to X's evaluator |
| TicTacToe.ForkIsWinning | src/core/move_strategy.rs:70-78 | the position after X takes cell 0 of the fork position is worth `Winning`: each of O's two replies leaves X a completing move |
| TicTacToe.ForkSearch | src/core/move_strategy.rs:75-78 | both strategies return cell 0, worth `Winning`, at the fork position |
| TicTacToe.ImmediateWinNotPreferred | src/core/move_strategy.rs:149-155 | at the fork position cell 8 is legal and completes a line of X's at once, yet both strategies return cell 0 |
| Engine.ReplayConcat | src/core/engine.rs:47-50 | replaying a history in two pieces is replaying it at once |
| Engine.LegalHistoryIsBounded | src/core/engine.rs:39-51 | a legal history is no longer than the height of its initial position, so every run terminates |
| Engine.PickedMeansPlayerNamed | src/core/engine.rs:41-45 | a recorded move was picked where the oracle named player 0 or player 1 |
| Engine.LegalStep | src/core/engine.rs:47-50 | applying a legal move extends the legal history and the replayed position |
| Engine.SuffixStep | src/core/engine.rs:47-50 | the moves appended during a run replay from the position the run started at |
| Engine.PickedStep | src/core/engine.rs:41-50 | appending the move the named player picked keeps "every move of this run was picked by the player to move" |
| Engine.GameEngine.constructor | src/core/engine.rs:27-36 | the history is empty, the current position is the initial one, and the players and the rules are the arguments |
| Engine.GameEngine.Run | src/core/engine.rs:38-52 | the history only grows; the current position is the initial one with the history replayed and the start position with the new moves replayed; each new move was picked by the player to move; `Finished` exactly at a terminal position; `Stopped` only when the oracle names nobody; a panic only from an inconsistent rule pack |
| TicTacToeMatch.ReplayKeepsPlayerKnown | src/tictactoe.rs:21 | after any tic-tac-toe move the oracle names a player |
| TicTacToeMatch.NamedIffKnown | src/tictactoe.rs:37-43 | the oracle names player 0 or 1, and the engine has a player to ask, exactly when the last player is 0 or 1 |
| TicTacToeMatch.PlayTicTacToe | src/core/engine.rs:27-52 | a tic-tac-toe run never panics; it stops early exactly when the start position is non-terminal with last player other than 0 or 1; otherwise it ends at a terminal position after a legal history of at most as many plies as there were empty cells |

## Left out

- The `f64` payload of `Estimate` is a `real`. NaN, and the `None` that `partial_cmp` returns for it, are not modelled.
- The `println!` of each position in `run` is I/O and is left out.
- In the source, each strategy owns its own move generator and oracle, and the engine owns a separate oracle. The model gives all of them the engine's rule pack.
- Players are an assumption of the model: each player is one of the two strategies over the engine's rule pack, and its `pick_move` is that strategy's `choose_move`. The source defines no such player. `src/core/player.rs:4-6` is a bare trait, `ConnectFourPlayer::pick_move` is `todo!()` (`src/connect_four.rs:78-81`), and `TicTacToePlayer` is imported by a test (`src/tictactoe.rs:139`) but never defined. An arbitrary player could return an illegal move. Then the legal-history part of `Engine.GameEngine.Valid`, the `decreases` of `Engine.GameEngine.Run` and `Engine.LegalHistoryIsBounded` would no longer apply, so termination of `Run` would not be proved. Only "the current position is the initial one with the history replayed" would still hold.
- Rust generics, `PhantomData`, ownership and borrowing are not modelled. `apply` returns a new value, as the source's copy does.
- The game tree is finite in the source only by assumption. The model states it with the `height` measure of the rule pack and the `Finite` predicate, and proves it for tic-tac-toe.
- TicTacToe.Apply: the move's cell is a subset type `< 9`. Rust panics on an out-of-range cell, and the generator never makes one.
- TicTacToe.Apply: `last_player + 1` cannot overflow, because integers are unbounded. The overflow at `usize::MAX` is not modelled.
- The end-to-end claim that two Minimax players on tic-tac-toe draw from the empty board is not proved. It needs an exhaustive evaluation of the whole game tree.
- `src/connect_four.rs` is not part of this model: every body there is `todo!()`. `src/main.rs` only wires connect-four players into the engine. The modules not declared in `src/main.rs` (`src/engine.rs`, `src/game.rs`, `src/oracle.rs`, `src/movestrategy.rs`, `src/player.rs`, `src/movegenerator.rs`) are older duplicates and are not modelled. The trait-only files become the `Rules` bundle and the `Strategy` datatype.
- TicTacToe.NoMovesIffFull: the strategies need only one direction from the generator, "a non-terminal position has a move" (`Game.Consistent`), and the tic-tac-toe rule pack has it. The converse does not hold in the code: a board with a line and empty cells is terminal and still has moves (`TicTacToe.WonBoardStillHasMoves`, the board of the test at `src/tictactoe.rs:178-179`). What is proved is that an empty list means a full, terminal board.
- Neither strategy prefers an immediate win. Both keep the first move in generator order whose backed-up value is `Winning`, and a later move must be strictly better to replace it. `TicTacToe.ImmediateWinNotPreferred` shows a position where cell 8 wins at once, yet both strategies return cell 0, which wins only two plies later. Whatever O replies, X still wins, two plies later than it could have.
