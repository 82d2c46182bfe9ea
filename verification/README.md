# Kalah (Mancala): three engines and their alpha-beta search

This project models the game logic of three small Kalah/Mancala programs.
Each one is modelled as written. The three disagree on several rules, and
the model does not reconcile them.

- `test.py` has a 14-slot board: pits `A`..`F` for player 1, store `1`,
  pits `G`..`L` for player 2, store `2`. It has a move engine that returns
  an extra-turn flag, an end-of-game sweep of the non-empty side, a winner
  and evaluation function, and depth-4 minimax with alpha-beta pruning for
  the computer (player 1, `MAX`).
- `test2.py` has the same ring with stores named `P1`/`P2`. Its capture
  rule and sowing walk differ. Its end-of-game sweep empties both sides
  into their own stores. Its minimax stops at depth 1 instead of 0, uses a
  fail-high/fail-low cut, and searches to depth 5.
- `test3.py` keeps two rows of six pits and two stores. Moves are letters
  `I`..`N`, decoded to a row index with `ord(move) - ord('I')`. The row
  index follows Python list indexing, including negative indices and
  `IndexError`.

Modules:

- `Common`: `Option`, `Player`, `Sum`, and the winner/score result.
- `Extended`: integers extended with `-math.inf` / `math.inf`, the order
  on them, and the fail-soft window predicate.
- `Ring`: the 14-slot board shared by `test.py` and `test2.py`, covering:
  - slot numbering (A..F = 0..5, store 1 = 6, G..L = 7..12, store 2 = 13),
    the successor, ownership and opposite tables;
  - the store sweep loop;
  - `Drops`, a reference definition of the slots a sowing walk fills, with
    a closed form (the k-th seed lands k places further round the
    13-slot cycle that skips the opponent's store);
  - the move list, the winner and the evaluation, which both scripts write
    alike.
- `Search`: one iteration of a search loop (improve best, raise alpha or
  lower beta, cut), shared by both minimax engines.
- `Kalah1`, `Kalah1Search`: `test.py`.
- `Kalah2`, `Kalah2Search`: `test2.py`.
- `TwoRow`: `test3.py`.

Mutable Python objects and `copy.deepcopy` become values:
- every move returns a new board;
- `gameOver`, which sweeps the board it is asked about, returns the flag
  and the swept board together (`Ring.Ended`).

Each search is written for any `Search.Game`: a move function, an end
test, a leaf score and a move list. Lemmas about one node only need the
game's three facts: there is a move unless the game is over, moves keep
the seeds, and scores stay within them. `Engine` in each search module is
the script's own game: `doMove`/`do_move`, `gameOver`/`game_over`,
`evaluate` of the swept board, and `possibleMoves`/`possible_moves`.
`ComputerTurnChoosesFirstBest` applies the search to it at the script's
depth.

For each search engine the model has two definitions:
- the pruned search as written (`AlphaBeta`, `Scan`);
- an unpruned reference minimax (`Minimax`, `UScan`) with the same
  tie-breaking.

The lemmas connect the two:
- the fail-soft window property at every node;
- equality of value AND chosen pit at the root window
  (`-math.inf`, `math.inf`).

Each engine's behaviour on concrete positions is shown by lemmas over
arbitrary boards that meet a few slot conditions. Two examples:
- `test.py` checks the capture two slots past the last sown seed;
- `test.py` grants the extra turn when the last seed lands in pit `F`.

## Model

| member | source | states |
|---|---|---|
| Ring.Pits | test.py:14-18 | each side has six pits, listed in board order, and a slot is listed exactly when that player owns it |
| Ring.Opposite | test.py:20-24 | the pit facing a pit is a pit on the other player's side, and the i-th pit of one side faces the (5-i)-th of the other (`A` with `L`, ..., `F` with `G`) |
| Ring.OppositeInvolution | test.py:20-24 | facing is symmetric (the opposite of the opposite is the pit itself), never maps a pit to itself, and switches owner |
| Ring.RingOrder | test.py:26-31 | the successor table visits player 1's pits in order, then store 1, then player 2's pits, then store 2, then back to `A` |
| Ring.Init | test.py:5-12 | a new board has four seeds in each of the twelve pits and empty stores |
| Ring.FourPerPit | test.py:5-12 | the initial layout holds 48 seeds |
| Ring.SideTotalZero | test.py:96-97 | a side's seed total is zero exactly when every pit on that side is empty |
| Ring.SumBySide | test.py:92-111 | the board total is the two sides' pit totals plus the two stores |
| Ring.Collect | test.py:101-108 | the sweep loop adds the listed pits' total to the store, empties exactly those pits and leaves every other slot alone |
| Ring.CollectConserves | test.py:101-108 | the sweep loop neither creates nor destroys seeds |
| Ring.CollectEmpty | test.py:101-108 | sweeping pits that are already empty leaves the board unchanged |
| Ring.Drops | test.py:56-67 | the sowing path has one slot per seed and never contains the skipped store |
| Ring.DropsWalk | test.py:56-67 | the path starts at the first slot that is not skipped and each further seed goes to the next slot that is not skipped |
| Ring.DropsClosedForm | test.py:56-67 | the k-th seed lands k places past the first one on the 13-slot cycle without the skipped store, however many laps the walk makes |
| Ring.Movable | test.py:37-40 | the filter keeps exactly the listed pits that hold seeds, and keeps board order |
| Ring.AllPitsEmpty | test.py:96-97 | a swept board shows both sides empty and its total is the two stores |
| Ring.PossibleMoves | test.py:33-40 | the legal moves are exactly the mover's non-empty pits, in board order; `possible_moves` in test2.py (lines 25-27) is the same rule |
| Ring.FindWinner | test.py:113-125 | player 1 wins exactly on a larger store, player 2 exactly on a larger store, otherwise a tie; the reported score is the larger store; `find_winner` in test2.py (lines 83-89) is the same rule, naming the computer and the human |
| Ring.EvaluateNamesWinner | test.py:113-131 | the evaluation is positive, negative or zero exactly when player 1 wins, player 2 wins or it is a tie; test2.py's `evaluate` (lines 91-92) is the same difference |
| Search.Improve | test.py:202-204 | a candidate replaces the best value only when strictly better, so the kept value is at least as good as both and ties keep the earlier one |
| Search.MaxStep | test.py:202-209 | one `MAX` iteration: raising alpha then cutting at `beta <= alpha` cuts exactly when the best value reaches beta, a cut value is a lower bound of the unpruned best, and without a cut the window invariant is kept |
| Search.MinStep | test.py:223-230 | mirror of `MaxStep` for the `MIN` loop |
| Search.RootStep | test.py:171 | at the root window a searched value beats the current best exactly when the true value does, and is then exact |
| Kalah1.Sow | test.py:56-67 | the sowing loop never drops a seed into the opponent's store |
| Kalah1.SowFollowsDrops | test.py:56-67 | the sown board is the original plus one seed for every occurrence of a slot on the reference path |
| Kalah1.SowEndsPastLastDrop | test.py:56-67 | when the loop ends, `current_pit` is the successor of the slot that got the last seed (not that slot) |
| Kalah1.SowPit | test.py:48-67 | emptying the chosen pit and sowing its seeds leaves the opponent's store alone unless that store was the pit picked |
| Kalah1.SowPitConserves | test.py:48-67 | emptying the chosen pit and sowing its seeds keeps the board total |
| Kalah1.SowPitSpec | test.py:48-67 | picking up a pit empties it and sows exactly its seeds along the path from its successor, skipping the opponent's store |
| Kalah1.SowConserves | test.py:56-67 | sowing n seeds adds exactly n to the board total |
| Kalah1.Capture | test.py:69-79 | a capture never touches the opponent's store and never lowers the mover's store |
| Kalah1.CaptureConserves | test.py:69-79 | a capture moves seeds but keeps the total |
| Kalah1.DoMoveConserves | test.py:42-82 | a move keeps the total of 14 slots, leaves the opponent's store alone and never lowers the mover's store |
| Kalah1.CaptureSlot | test.py:67-70 | the slot tested for capture is two past the slot that got the last seed |
| Kalah1.CaptureAsWritten | test.py:69-79 | a capture fires exactly when the tested slot is the mover's pit holding 1 and its opposite is non-empty; it then empties both and adds both counts to the mover's store, otherwise the sown board is returned |
| Kalah1.ExtraTurnAsWritten | test.py:81-82 | the extra-turn flag is set exactly when the last seed fell into the mover's pit just before the store (pit `F` or `L`), not the store itself |
| Kalah1.LastSeedInStoreNoExtraTurn | test.py:42-82 | playing `C` with four seeds puts the last seed in store 1 and grants no extra turn |
| Kalah1.LastSeedInFExtraTurn | test.py:42-82 | playing `B` with four seeds ends in `F` and grants an extra turn |
| Kalah1.CaptureTwoPastLanding | test.py:69-79 | a single seed sown from `A` into `B` captures at `D` (two past), taking `D` and `I` into store 1 |
| Kalah1.GameOver | test.py:92-111 | the game is over exactly when a side is empty; an unfinished board is left alone, and a finished board has all twelve pits empty |
| Kalah1.GameOverConserves | test.py:99-110 | the end-of-game sweep keeps the total |
| Kalah1.GameOverSweep | test.py:99-108 | after the sweep each store holds its old count plus its own side's remaining seeds |
| Kalah1.GameOverTotal | test.py:99-110 | after the sweep the two stores hold every seed on the board |
| Kalah1.SweepOneSide | test.py:101-108 | sweeping only the non-empty side leaves the empty side's store correct as well |
| Kalah1.GameOverIdempotent | test.py:92-111 | asking again after a sweep reports over and changes nothing |
| Kalah1Search.Engine | test.py:33-131 | the script's game ends exactly when one side's six pits are empty, gives the mover a move in every position that is not over, its moves keep the seeds, and its leaf score lies within them |
| Kalah1Search.EngineFacts | test.py:33-131 | `possibleMoves` is non-empty unless `gameOver` holds, `doMove` keeps the seeds on the board, and `evaluate` after the sweep lies within minus and plus the seeds on the board |
| Kalah1Search.AlphaBeta | test.py:185-232 | the search value is always finite and an inner node always names a pit |
| Kalah1Search.Scan | test.py:192-232 | the move loop returns a finite value and a pit once it has a move to try |
| Kalah1Search.Minimax | test.py:185-232 | the unpruned reference search is finite and names a pit at inner nodes |
| Kalah1Search.UScan | test.py:192-232 | the unpruned move loop returns a finite value and a pit once it has a move to try |
| Kalah1Search.UScanKeepsBest | test.py:202-204 | the loop never ends with a value worse than the one it started from |
| Kalah1Search.AlphaBetaWindow | test.py:185-232 | the pruned value meets the fail-soft property against unpruned minimax for every window |
| Kalah1Search.MaxScanWindow | test.py:192-211 | the `MAX` loop with its cut is fail-soft against the unpruned loop |
| Kalah1Search.MinScanWindow | test.py:213-232 | the `MIN` loop with its cut is fail-soft against the unpruned loop |
| Kalah1Search.AlphaBetaIsMinimax | test.py:171 | from the window (`-math.inf`, `math.inf`) pruning changes neither the value nor the chosen pit |
| Kalah1Search.RootMaxScan | test.py:192-211 | at the root window the `MAX` loop never cuts and equals the unpruned loop |
| Kalah1Search.RootMinScan | test.py:213-232 | at the root window the `MIN` loop never cuts and equals the unpruned loop |
| Kalah1Search.PrependNoBetter | test.py:196-204 | "no move beats x" extends to one more move at the front of the list when that move does not beat x |
| Kalah1Search.PrependEarlierWorse | test.py:196-204 | "the first k moves are strictly worse than x" extends to k+1 when a move strictly worse than x is put in front |
| Kalah1Search.UScanFindsFirstBest | test.py:196-204 | the loop's result is the first move whose value no other move beats, or the starting best if none beats it |
| Kalah1Search.MinimaxChoosesFirstBest | test.py:185-232 | at an inner node the chosen pit is a legal move with an optimal value and every earlier legal move is strictly worse |
| Kalah1Search.ComputerTurnChoosesFirstBest | test.py:166-171 | the computer's depth-4 search on this script's game picks the first legal pit of optimal minimax value, and its value lies within the seeds on the board |
| Kalah1Search.MinimaxBounded | test.py:185-232 | the minimax value lies between minus and plus the number of seeds on the board |
| Kalah1Search.UScanBounded | test.py:192-232 | the move loop keeps its best value within the seed bound |
| Kalah1Search.MoveValueBounded | test.py:196-200 | the value of playing a pit lies within the seeds on the board |
| Kalah1Search.ScanPitListed | test.py:196-211 | the pit the loop reports is the one it started with or one of the moves it tried |
| Kalah1Search.AlphaBetaPitLegal | test.py:185-232 | at an inner node the search returns a legal move for the mover, whatever the window |
| Kalah2.NextMatchesTable | test2.py:18-23 | the ring successor agrees with the letter table `next_pits` on every slot |
| Kalah2.PitsMatchTables | test2.py:13-17 | the pit tuples are `A`..`F` and `G`..`L`, and the computed opposite letter `76 - (i - 65)` is the ring's opposite pit |
| Kalah2.Sow | test2.py:33-38 | the sowing loop never drops a seed into the opponent's store |
| Kalah2.SowFollowsDrops | test2.py:33-38 | the sown board is the original plus one seed for every occurrence of a slot on the reference path |
| Kalah2.SowEndsOnLastDrop | test2.py:33-38 | the loop's `current` ends on the reference path's last slot, the one that got the last seed |
| Kalah2.SowConserves | test2.py:33-38 | sowing n seeds adds exactly n to the board total |
| Kalah2.SowPit | test2.py:29-38 | emptying the chosen pit and sowing its seeds leaves the opponent's store alone unless that store was the pit picked |
| Kalah2.SowPitConserves | test2.py:29-38 | emptying the chosen pit and sowing its seeds keeps the board total |
| Kalah2.SowPitSpec | test2.py:29-38 | picking up a pit empties it and sows its seeds along the path from its successor, ending on the last sown slot (or the pit itself when it was empty) |
| Kalah2.Capture | test2.py:40-47 | a capture never touches the opponent's store and never lowers the mover's store |
| Kalah2.CaptureConserves | test2.py:40-47 | a capture keeps the total |
| Kalah2.DoMoveConserves | test2.py:29-47 | a move keeps the total, leaves the opponent's store alone and never lowers the mover's store |
| Kalah2.CaptureSlot | test2.py:32-40 | the slot tested for capture is the one that got the last seed |
| Kalah2.CaptureAsWritten | test2.py:40-47 | a capture fires exactly when the last seed made one of the mover's pits hold 1, even facing an empty pit; it empties both pits and adds the opposite count plus one to the store |
| Kalah2.CaptureFacingEmptyPit | test2.py:40-47 | a lone seed landing in an empty pit opposite an empty pit still goes to the store |
| Kalah2.LastSeedInStore | test2.py:29-47 | playing `C` with four seeds ends in store `P1` with no capture |
| Kalah2.CollectRemaining | test2.py:53-59 | sweeping empties all twelve pits |
| Kalah2.CollectRemainingStores | test2.py:53-59 | each store gains its own side's remaining seeds |
| Kalah2.CollectRemainingConserves | test2.py:53-59 | the sweep keeps the total |
| Kalah2.SweepBothIsSweepOne | test2.py:53-59 | when one side is empty, sweeping both sides is the same as sweeping the other side only |
| Kalah2.IsGameOver | test2.py:49-51 | the game is over exactly when one side's six pits hold no seeds in total |
| Kalah2.GameOver | test2.py:49-81 | over exactly when a side is empty; unfinished boards are left alone and finished ones have every pit empty |
| Kalah2.GameOverTotal | test2.py:77-81 | after the sweep the two stores hold every seed |
| Kalah2.GameOverIdempotent | test2.py:77-81 | asking again after a sweep reports over and changes nothing |
| Kalah2Search.Engine | test2.py:25-92 | the script's game ends exactly when one side's six pits are empty, gives the mover a move in every position that is not over, its moves keep the seeds, and its leaf score lies within them |
| Kalah2Search.EngineFacts | test2.py:25-92 | `possible_moves` is non-empty unless `is_game_over` holds, `do_move` keeps the seeds, and `evaluate` after `game_over`'s sweep lies within them |
| Kalah2Search.AlphaBeta | test2.py:99-132 | the search value is finite and an inner node (depth above 1) names a pit |
| Kalah2Search.Scan | test2.py:107-132 | the move loop returns a finite value and a pit once it has a move to try |
| Kalah2Search.Minimax | test2.py:99-132 | the unpruned reference is finite and names a pit at inner nodes |
| Kalah2Search.UScan | test2.py:107-132 | the unpruned move loop returns a finite value and a pit once it has a move to try |
| Kalah2Search.UScanKeepsBest | test2.py:112-122 | the loop never ends with a value worse than its start |
| Kalah2Search.AlphaBetaWindow | test2.py:99-132 | the pruned value meets the fail-soft property against unpruned minimax for every window |
| Kalah2Search.MaxScanWindow | test2.py:112-119 | the `P1` loop that cuts at `best_value >= beta` is fail-soft against the unpruned loop |
| Kalah2Search.MinScanWindow | test2.py:120-126 | the `P2` loop that cuts at `best_value <= alpha` is fail-soft against the unpruned loop |
| Kalah2Search.AlphaBetaIsMinimax | test2.py:146-151 | from the window (`-math.inf`, `math.inf`) pruning changes neither the value nor the chosen pit |
| Kalah2Search.RootMaxScan | test2.py:112-119 | at the root window the `P1` loop never cuts and equals the unpruned loop |
| Kalah2Search.RootMinScan | test2.py:120-126 | at the root window the `P2` loop never cuts and equals the unpruned loop |
| Kalah2Search.PrependNoBetter | test2.py:107-122 | "no move beats x" extends to one more move at the front when that move does not beat x |
| Kalah2Search.PrependEarlierWorse | test2.py:107-122 | "the first k moves are strictly worse than x" extends to k+1 when a move strictly worse than x is put in front |
| Kalah2Search.UScanFindsFirstBest | test2.py:107-122 | the loop's result is the first move whose value no other move beats, or its starting best |
| Kalah2Search.MinimaxChoosesFirstBest | test2.py:99-132 | at an inner node the chosen pit is a legal move of optimal value with every earlier move strictly worse |
| Kalah2Search.ComputerTurnChoosesFirstBest | test2.py:146-151 | the computer's depth-5 search on this script's game picks the first legal pit of optimal value, and its value lies within the seeds on the board |
| Kalah2Search.MinimaxBounded | test2.py:99-132 | the minimax value lies within minus and plus the seeds on the board |
| Kalah2Search.UScanBounded | test2.py:107-132 | the move loop keeps its best value within the seed bound |
| Kalah2Search.MoveValueBounded | test2.py:107-110 | the value of playing a pit lies within the seeds on the board |
| Kalah2Search.ScanPitListed | test2.py:107-132 | the reported pit is the starting one or one of the moves tried |
| Kalah2Search.AlphaBetaPitLegal | test2.py:99-132 | at an inner node the search returns a legal move for the mover, whatever the window |
| TwoRow.Init | test3.py:2-10 | a new game has four seeds in every pit, empty stores and player 1 to move |
| TwoRow.InitTotal | test3.py:2-10 | the initial game holds 48 seeds |
| TwoRow.DecodeEncode | test3.py:21-26 | the letter listed for pit i decodes back to i and lies in `I`..`N` |
| TwoRow.EncodeDecode | test3.py:21-26 | a letter decodes to a pit index 0..5 exactly when it is in `I`..`N`, and then it is that pit's letter |
| TwoRow.PyIndex | test3.py:26-41 | a Python list subscript of a six-element row succeeds exactly for -6..5, and a negative one counts from the end |
| TwoRow.PossibleMoves | test3.py:21-22 | the listed letters are exactly those of the mover's non-empty pits, each decodes to 0..5, in increasing order |
| TwoRow.PlayMove | test3.py:24-55 | a move that completes hands the turn to the other player, whatever happened |
| TwoRow.PlayMoveFails | test3.py:24-42 | a move raises `IndexError` exactly when its letter decodes outside -6..5, or when player 2 plays index 5 with seeds in it |
| TwoRow.ListedMovesPlayable | test3.py:21-42 | of the listed moves only player 2's `N` raises `IndexError` |
| TwoRow.Advance | test3.py:33-37 | from a pit of the mover's cycle (6 pits for player 1, 5 for player 2) the next index is one further round that cycle; a negative index just moves up by one |
| TwoRow.SowRow | test3.py:30-42 | a sowing loop that does not raise ends on a subscript in -6..5 once it has sown |
| TwoRow.SowRowOnlyAdds | test3.py:30-42 | from any start, including the negative subscripts, a sowing loop that does not raise never takes a seed from any pit |
| TwoRow.SowRowSucceeds | test3.py:31-42 | the sowing loop stays inside the row from any start below the wrap point |
| TwoRow.SowRowConserves | test3.py:31-42 | sowing n seeds adds exactly n to the mover's row |
| TwoRow.SowRowClosedForm | test3.py:31-42 | sowing n seeds from index i on a cycle of length m (6 for player 1, 5 for player 2) ends at (i+n) mod m, and pit j gains one seed for each pass |
| TwoRow.SowRowEndIndex | test3.py:31-42 | from a pit of the mover's cycle the loop completes and its final index is n places further round the cycle |
| TwoRow.SowRowGains | test3.py:31-42 | from a pit of the mover's cycle each pit gains exactly one seed for every time the walk passes over it |
| TwoRow.Player2LastPitSkipped | test3.py:36-37 | from a start 0..4, i.e. the letters `possible_moves` can list, player 2's sowing never reaches its own last pit |
| TwoRow.Player2ReachesLastPitFromNegativeStart | test3.py:24-42 | the letter `G` decodes to subscript -2, which Python accepts; player 2's walk from it steps to subscript -1 and drops the seed into its last pit |
| TwoRow.Capture | test3.py:44-52 | the capture keeps the player to move and the opponent's store, never lowers the mover's store, and changes the state exactly when the final index is a pit of the mover's row holding one seed |
| TwoRow.CaptureConserves | test3.py:44-52 | a capture keeps the total |
| TwoRow.PlayMoveConserves | test3.py:24-55 | a completed move keeps the total of both rows and both stores |
| TwoRow.PlayMoveEffects | test3.py:24-55 | the opponent's store never changes; a capture empties the landing pit and the facing pit and adds their seeds to the mover's store, otherwise only the mover's row changes |
| TwoRow.GameOver | test3.py:57-59 | over exactly when one row holds no seeds |
| TwoRow.GameWinner | test3.py:61-67 | the computer wins exactly on a larger first store, the human on a larger second store, and it is a draw on equal stores |
| TwoRow.WinnerIgnoresRows | test3.py:61-67 | the verdict depends on the stores only |

## Left out

- Console I/O, board display and the turn loops are not modelled: `test.py:137-183` and `test.py:234-285`, `test2.py:61-69` and `test2.py:134-167`, `test3.py:12-19` and `test3.py:69-85`. This includes:
  - reading and validating the human's move;
  - `test3.py`'s computer strategy `possible_moves()[0]`;
  - `test.py`'s turn loop ignoring the extra-turn flag for the computer.
  In-process calls are modelled through their parameters.
- `copy.deepcopy` and in-place mutation are replaced by value semantics. The search's children are independent boards by construction.
- `math.inf` is modelled by `Extended.Ext`. The search never compares floating-point values other than the two infinities.
- The player strings (`'player1'`, `'MAX'`, `"P1"`, ...) become `Player`. A string outside the expected two takes the `else` branch in the source; the model has no such value.
- Kalah1.DoMove and Kalah2.DoMove carry no `ensures` of their own. Their behaviour is stated by `SowPitSpec`, `CaptureAsWritten`, `ExtraTurnAsWritten` and `DoMoveConserves`.
- Ring.Evaluate carries no `ensures` of its own. Its meaning is stated by `Ring.EvaluateNamesWinner` and by the search's `MinimaxBounded`.
- Kalah2Search.AlphaBeta requires `depth >= 1`. With depth 0 the source's `depth == 1` leaf test never fires, and the recursion only ends when the game does.
- TwoRow.PlayMove returns `IndexError` without a state. In the source the exception leaves the mover's row partly updated; that board is not modelled.
- TwoRow.PlayMove takes a single character. A longer input string would make `ord` raise `TypeError`, which is not modelled.
- Pits are not bounded by a machine integer width. Python integers are unbounded as well.
