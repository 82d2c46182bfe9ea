/** The second script's computer player (`minimax_alpha_beta_pruning`): a
    depth-limited minimax with alpha-beta pruning, Player1 (MAX) maximizing
    and Player2 (MIN) minimizing the store difference.

    Each node first calls `game_over`, which sweeps both sides when a side is
    empty, and scores the swept board; a node at depth 1 is a leaf, so the
    search is called with depth at least 1. After each move the best value is
    compared with the window before alpha (for Player1) or beta (for Player2)
    is moved to it. `AlphaBeta` and `Scan` follow the pruned search as
    written; `Minimax` and `UScan` are the same search without pruning, the
    reference the pruned search is proved against. */
module Kalah2Search {
  import opened Common
  import opened Extended
  import opened Ring
  import opened Search
  import opened Kalah2

  /** The board after `p` plays `pit` (on a copy of the game). */
  function Child(b: Board, p: Player, pit: Slot): Board
  {
    DoMove(b, p, pit)
  }

  /** `game_over` as the search sees it: whether the game is over. */
  function Over(b: Board): bool
  {
    GameOver(b).over
  }

  /** A leaf's score: `evaluate` of the board after `game_over`'s sweep. */
  function Score(b: Board): int
  {
    Evaluate(GameOver(b).board)
  }

  /** The script's game: its move, end test, leaf score and `possible_moves`. */
  function Engine(): (g: Game)
    ensures Playable(g) && Bounded(g)
    ensures forall b: Board :: g.over(b) <==> IsGameOver(b)
  {
    var g := Game(Child, Over, Score, PossibleMoves);
    EngineFacts(g);
    g
  }

  /** A node is a leaf when the game is over or the depth is used up. */
  predicate Leaf(g: Game, b: Board, depth: nat)
  {
    g.over(b) || depth == 1
  }

  /** A position that is not over leaves the mover a move; moves keep the
      seeds on the board, and a leaf's score, the difference of the two
      stores after the sweep, lies within them. */
  lemma EngineFacts(g: Game)
    requires g == Game(Child, Over, Score, PossibleMoves)
    ensures Playable(g)
    ensures Bounded(g)
  {
    forall b: Board, p: Player | !g.over(b) ensures |g.moves(b, p)| > 0 {
      assert !SideEmpty(b, p);
      var s: Slot :| IsPitOf(p, s) && b[s] != 0;
      assert s in PossibleMoves(b, p);
    }
    forall b: Board, p: Player, pit: Slot ensures Sum(g.play(b, p, pit)) == Sum(b) {
      DoMoveConserves(b, p, pit);
    }
    forall b: Board ensures -(Sum(b) as int) <= g.score(b) <= Sum(b) {
      if IsGameOver(b) {
        CollectRemainingConserves(b);
      }
      SumBySide(GameOver(b).board);
    }
  }

  // ----- The pruned search, as written -----

  /** `minimax_alpha_beta_pruning(game, player, depth, alpha, beta)`. */
  function AlphaBeta(g: Game, b: Board, p: Player, depth: nat, alpha: Ext, beta: Ext): (r: Choice)
    requires Playable(g)
    requires depth >= 1
    ensures r.value.Fin?
    ensures !Leaf(g, b, depth) ==> r.pit.Some?
    decreases depth, 1
  {
    if Leaf(g, b, depth) then Choice(Fin(g.score(b)), None)
    else
      Scan(g, b, p, depth, g.moves(b, p), alpha, beta, Start(p), None)
  }

  /** The loop over the moves still to try, with the window and the best
      value and pit so far. Player1 stops once the best value reaches beta
      and otherwise raises alpha to it; Player2 stops once the best value
      falls to alpha and otherwise lowers beta to it. */
  function Scan(g: Game, b: Board, p: Player, depth: nat, moves: seq<Slot>,
                alpha: Ext, beta: Ext, best: Ext, bestPit: Option<Slot>): (r: Choice)
    requires Playable(g)
    requires depth > 1
    ensures best.Fin? || (best == Start(p) && |moves| > 0) ==> r.value.Fin?
    ensures bestPit.Some? || (best == Start(p) && |moves| > 0) ==> r.pit.Some?
    decreases depth, 0, |moves|
  {
    if |moves| == 0 then Choice(best, bestPit)
    else
      var pit := moves[0];
      var v := AlphaBeta(g, g.play(b, p, pit), Other(p), depth - 1, alpha, beta).value;
      var best' := Improve(p, best, v);
      var bestPit' := ImprovePit(p, best, v, bestPit, pit);
      if p == Player1 then
        if Le(beta, best') then Choice(best', bestPit')
        else Scan(g, b, p, depth, moves[1..], Max(alpha, best'), beta, best', bestPit')
      else
        if Le(best', alpha) then Choice(best', bestPit')
        else Scan(g, b, p, depth, moves[1..], alpha, Min(beta, best'), best', bestPit')
  }

  // ----- The reference search, without pruning -----

  /** Plain minimax: the same tree, leaves and tie rule, every move scored. */
  function Minimax(g: Game, b: Board, p: Player, depth: nat): (r: Choice)
    requires Playable(g)
    requires depth >= 1
    ensures r.value.Fin?
    ensures !Leaf(g, b, depth) ==> r.pit.Some?
    decreases depth, 1
  {
    if Leaf(g, b, depth) then Choice(Fin(g.score(b)), None)
    else
      UScan(g, b, p, depth, g.moves(b, p), Start(p), None)
  }

  /** The true value of playing `pit`. */
  function MoveValue(g: Game, b: Board, p: Player, depth: nat, pit: Slot): Ext
    requires Playable(g)
    requires depth > 1
    decreases depth, 0, 0
  {
    Minimax(g, g.play(b, p, pit), Other(p), depth - 1).value
  }

  /** The unpruned loop: keep the first move whose value is strictly better. */
  function UScan(g: Game, b: Board, p: Player, depth: nat, moves: seq<Slot>,
                 best: Ext, bestPit: Option<Slot>): (r: Choice)
    requires Playable(g)
    requires depth > 1
    ensures best.Fin? || (best == Start(p) && |moves| > 0) ==> r.value.Fin?
    ensures bestPit.Some? || (best == Start(p) && |moves| > 0) ==> r.pit.Some?
    decreases depth, 0, |moves|
  {
    if |moves| == 0 then Choice(best, bestPit)
    else
      var pit := moves[0];
      var v := MoveValue(g, b, p, depth, pit);
      UScan(g, b, p, depth, moves[1..], Improve(p, best, v), ImprovePit(p, best, v, bestPit, pit))
  }

  // ----- Pruning never changes the answer -----

  /** Scanning more moves never makes the best value worse. */
  lemma {:induction false} UScanKeepsBest(g: Game, b: Board, p: Player, depth: nat, moves: seq<Slot>,
                                          best: Ext, bestPit: Option<Slot>)
    requires Playable(g)
    requires depth > 1
    ensures !Better(p, best, UScan(g, b, p, depth, moves, best, bestPit).value)
    decreases |moves|
  {
    if |moves| == 0 {
      BetterFacts(p, best, best, best);
    } else {
      var v := MoveValue(g, b, p, depth, moves[0]);
      if Better(p, v, best) {
        UScanKeepsBest(g, b, p, depth, moves[1..], v, Some(moves[0]));
        BetterFacts(p, best, v, UScan(g, b, p, depth, moves, best, bestPit).value);
        BetterFacts(p, v, best, UScan(g, b, p, depth, moves, best, bestPit).value);
      } else {
        UScanKeepsBest(g, b, p, depth, moves[1..], best, bestPit);
      }
    }
  }

  /** Fail-soft alpha-beta: for a window alpha < beta, a value at or below
      alpha is an upper bound of the true value, a value at or above beta is
      a lower bound, and a value strictly inside the window is exact. */
  lemma {:induction false} AlphaBetaWindow(g: Game, b: Board, p: Player, depth: nat, alpha: Ext, beta: Ext)
    requires Playable(g)
    requires depth >= 1 && Lt(alpha, beta)
    ensures FailSoft(alpha, beta, AlphaBeta(g, b, p, depth, alpha, beta).value, Minimax(g, b, p, depth).value)
    decreases depth, 1
  {
    if !Leaf(g, b, depth) {
      var ms := g.moves(b, p);
      if p == Player1 {
        MaxScanWindow(g, b, depth, ms, alpha, beta, alpha, NegInf, None, NegInf, None);
      } else {
        MinScanWindow(g, b, depth, ms, alpha, beta, beta, PosInf, None, PosInf, None);
      }
    }
  }

  /** The maximizing loop against the unpruned one. `alpha0` is the window's
      lower end on entry to the node; the pruned best is an upper bound of
      the true best so far, and equal to it once above `alpha0`. */
  lemma {:induction false} MaxScanWindow(g: Game, b: Board, depth: nat, moves: seq<Slot>, alpha0: Ext, beta: Ext,
                                         alpha: Ext, best: Ext, bestPit: Option<Slot>,
                                         bestU: Ext, bestPitU: Option<Slot>)
    requires Playable(g)
    requires depth > 1
    requires MaxInvariant(alpha0, beta, alpha, best, bestU)
    ensures FailSoft(alpha0, beta, Scan(g, b, Player1, depth, moves, alpha, beta, best, bestPit).value,
                     UScan(g, b, Player1, depth, moves, bestU, bestPitU).value)
    decreases depth, 0, |moves|
  {
    if |moves| > 0 {
      var pit := moves[0];
      var c := g.play(b, Player1, pit);
      var d := depth - 1;
      AlphaBetaWindow(g, c, Player2, d, alpha, beta);
      var v := AlphaBeta(g, c, Player2, d, alpha, beta).value;
      var m := Minimax(g, c, Player2, d).value;
      assert MoveValue(g, b, Player1, depth, pit) == m;
      var best' := Improve(Player1, best, v);
      var bestPit' := ImprovePit(Player1, best, v, bestPit, pit);
      var bestU' := Improve(Player1, bestU, m);
      var bestPitU' := ImprovePit(Player1, bestU, m, bestPitU, pit);
      var alpha' := Max(alpha, best');
      assert UScan(g, b, Player1, depth, moves, bestU, bestPitU)
          == UScan(g, b, Player1, depth, moves[1..], bestU', bestPitU');
      MaxStep(alpha0, beta, alpha, best, bestU, v, m);
      if Le(beta, best') {
        assert Scan(g, b, Player1, depth, moves, alpha, beta, best, bestPit) == Choice(best', bestPit');
        UScanKeepsBest(g, b, Player1, depth, moves[1..], bestU', bestPitU');
        LeTrans(best', bestU', UScan(g, b, Player1, depth, moves[1..], bestU', bestPitU').value);
        FailSoftHigh(alpha0, beta, best', UScan(g, b, Player1, depth, moves[1..], bestU', bestPitU').value);
      } else {
        assert Scan(g, b, Player1, depth, moves, alpha, beta, best, bestPit)
            == Scan(g, b, Player1, depth, moves[1..], alpha', beta, best', bestPit');
        MaxScanWindow(g, b, depth, moves[1..], alpha0, beta, alpha', best', bestPit', bestU', bestPitU');
      }
    }
  }

  /** The minimizing loop, mirror image of `MaxScanWindow`. */
  lemma {:induction false} MinScanWindow(g: Game, b: Board, depth: nat, moves: seq<Slot>, alpha: Ext, beta0: Ext,
                                         beta: Ext, best: Ext, bestPit: Option<Slot>,
                                         bestU: Ext, bestPitU: Option<Slot>)
    requires Playable(g)
    requires depth > 1
    requires MinInvariant(alpha, beta0, beta, best, bestU)
    ensures FailSoft(alpha, beta0, Scan(g, b, Player2, depth, moves, alpha, beta, best, bestPit).value,
                     UScan(g, b, Player2, depth, moves, bestU, bestPitU).value)
    decreases depth, 0, |moves|
  {
    if |moves| > 0 {
      var pit := moves[0];
      var c := g.play(b, Player2, pit);
      var d := depth - 1;
      AlphaBetaWindow(g, c, Player1, d, alpha, beta);
      var v := AlphaBeta(g, c, Player1, d, alpha, beta).value;
      var m := Minimax(g, c, Player1, d).value;
      assert MoveValue(g, b, Player2, depth, pit) == m;
      var best' := Improve(Player2, best, v);
      var bestPit' := ImprovePit(Player2, best, v, bestPit, pit);
      var bestU' := Improve(Player2, bestU, m);
      var bestPitU' := ImprovePit(Player2, bestU, m, bestPitU, pit);
      var beta' := Min(beta, best');
      assert UScan(g, b, Player2, depth, moves, bestU, bestPitU)
          == UScan(g, b, Player2, depth, moves[1..], bestU', bestPitU');
      MinStep(alpha, beta0, beta, best, bestU, v, m);
      if Le(best', alpha) {
        assert Scan(g, b, Player2, depth, moves, alpha, beta, best, bestPit) == Choice(best', bestPit');
        UScanKeepsBest(g, b, Player2, depth, moves[1..], bestU', bestPitU');
        LeTrans(UScan(g, b, Player2, depth, moves[1..], bestU', bestPitU').value, bestU', best');
        FailSoftLow(alpha, beta0, best', UScan(g, b, Player2, depth, moves[1..], bestU', bestPitU').value);
      } else {
        assert Scan(g, b, Player2, depth, moves, alpha, beta, best, bestPit)
            == Scan(g, b, Player2, depth, moves[1..], alpha, beta', best', bestPit');
        MinScanWindow(g, b, depth, moves[1..], alpha, beta0, beta', best', bestPit', bestU', bestPitU');
      }
    }
  }

  /** With the full window the pruned search returns exactly what plain
      minimax returns: the same value and the same pit. */
  lemma AlphaBetaIsMinimax(g: Game, b: Board, p: Player, depth: nat)
    requires Playable(g)
    requires depth >= 1
    ensures AlphaBeta(g, b, p, depth, NegInf, PosInf) == Minimax(g, b, p, depth)
  {
    if !Leaf(g, b, depth) {
      var ms := g.moves(b, p);
      if p == Player1 {
        RootMaxScan(g, b, depth, ms, NegInf, None);
      } else {
        RootMinScan(g, b, depth, ms, PosInf, None);
      }
    }
  }

  /** At the root of a maximizing search alpha is the best value so far and
      beta stays infinite; the pruned loop then makes the same choices as the
      unpruned one. No cut-off happens there, as every searched value is
      finite. */
  lemma {:induction false} RootMaxScan(g: Game, b: Board, depth: nat, moves: seq<Slot>, best: Ext, bestPit: Option<Slot>)
    requires Playable(g)
    requires depth > 1 && best != PosInf
    ensures Scan(g, b, Player1, depth, moves, best, PosInf, best, bestPit)
         == UScan(g, b, Player1, depth, moves, best, bestPit)
    decreases |moves|
  {
    if |moves| > 0 {
      var pit := moves[0];
      var c := g.play(b, Player1, pit);
      var d := depth - 1;
      AlphaBetaWindow(g, c, Player2, d, best, PosInf);
      var v := AlphaBeta(g, c, Player2, d, best, PosInf).value;
      var m := Minimax(g, c, Player2, d).value;
      assert MoveValue(g, b, Player1, depth, pit) == m;
      RootStep(Player1, best, v, m);
      var best' := Improve(Player1, best, v);
      var bestPit' := ImprovePit(Player1, best, v, bestPit, pit);
      assert Max(best, best') == best';
      assert UScan(g, b, Player1, depth, moves, best, bestPit)
          == UScan(g, b, Player1, depth, moves[1..], best', bestPit');
      RootMaxScan(g, b, depth, moves[1..], best', bestPit');
    }
  }

  /** Mirror of `RootMaxScan`: beta is the best value so far, alpha stays at
      minus infinity. */
  lemma {:induction false} RootMinScan(g: Game, b: Board, depth: nat, moves: seq<Slot>, best: Ext, bestPit: Option<Slot>)
    requires Playable(g)
    requires depth > 1 && best != NegInf
    ensures Scan(g, b, Player2, depth, moves, NegInf, best, best, bestPit)
         == UScan(g, b, Player2, depth, moves, best, bestPit)
    decreases |moves|
  {
    if |moves| > 0 {
      var pit := moves[0];
      var c := g.play(b, Player2, pit);
      var d := depth - 1;
      AlphaBetaWindow(g, c, Player1, d, NegInf, best);
      var v := AlphaBeta(g, c, Player1, d, NegInf, best).value;
      var m := Minimax(g, c, Player1, d).value;
      assert MoveValue(g, b, Player2, depth, pit) == m;
      RootStep(Player2, best, v, m);
      var best' := Improve(Player2, best, v);
      var bestPit' := ImprovePit(Player2, best, v, bestPit, pit);
      assert Min(best, best') == best';
      assert UScan(g, b, Player2, depth, moves, best, bestPit)
          == UScan(g, b, Player2, depth, moves[1..], best', bestPit');
      RootMinScan(g, b, depth, moves[1..], best', bestPit');
    }
  }

  // ----- What plain minimax chooses -----

  /** No move in `moves` has a value better than `x` for `p`. */
  predicate NoMoveBetter(g: Game, b: Board, p: Player, depth: nat, moves: seq<Slot>, x: Ext)
    requires Playable(g)
    requires depth > 1
  {
    forall j :: 0 <= j < |moves| ==> !Better(p, MoveValue(g, b, p, depth, moves[j]), x)
  }

  /** `x` is strictly better for `p` than each of the first `i` moves. */
  predicate EarlierWorse(g: Game, b: Board, p: Player, depth: nat, moves: seq<Slot>, i: nat, x: Ext)
    requires Playable(g)
    requires depth > 1 && i <= |moves|
  {
    forall j :: 0 <= j < i ==> Better(p, x, MoveValue(g, b, p, depth, moves[j]))
  }

  /** "No move beats `x`" extends from the tail of `moves` to the whole of it. */
  lemma PrependNoBetter(g: Game, b: Board, p: Player, depth: nat, moves: seq<Slot>, x: Ext)
    requires Playable(g)
    requires depth > 1 && 0 < |moves|
    requires NoMoveBetter(g, b, p, depth, moves[1..], x)
    requires !Better(p, MoveValue(g, b, p, depth, moves[0]), x)
    ensures NoMoveBetter(g, b, p, depth, moves, x)
  {
    forall j | 0 <= j < |moves| ensures !Better(p, MoveValue(g, b, p, depth, moves[j]), x) {
      if j > 0 {
        assert moves[j] == moves[1..][j - 1];
      }
    }
  }

  /** "Every earlier move is worse than `x`" extends by one move at the front. */
  lemma PrependEarlierWorse(g: Game, b: Board, p: Player, depth: nat, moves: seq<Slot>, k: nat, x: Ext)
    requires Playable(g)
    requires depth > 1 && 0 < |moves| && k < |moves|
    requires EarlierWorse(g, b, p, depth, moves[1..], k, x)
    requires Better(p, x, MoveValue(g, b, p, depth, moves[0]))
    ensures EarlierWorse(g, b, p, depth, moves, k + 1, x)
  {
    forall j | 0 <= j < k + 1 ensures Better(p, x, MoveValue(g, b, p, depth, moves[j])) {
      if j > 0 {
        assert moves[j] == moves[1..][j - 1];
      }
    }
  }

  /** The unpruned loop ends with a value no scanned move beats. If it
      changed the best (index `i`), it holds the value and pit of move `i`,
      which is strictly better than the entry best and than every earlier
      move; otherwise (`i == -1`) it returns the entry best and pit. */
  lemma {:induction false} UScanFindsFirstBest(g: Game, b: Board, p: Player, depth: nat, moves: seq<Slot>,
                                               best: Ext, bestPit: Option<Slot>) returns (i: int)
    requires Playable(g)
    requires depth > 1
    ensures var r := UScan(g, b, p, depth, moves, best, bestPit);
            && -1 <= i < |moves|
            && NoMoveBetter(g, b, p, depth, moves, r.value)
            && !Better(p, best, r.value)
            && (i == -1 ==> r == Choice(best, bestPit))
            && (0 <= i ==>
                  && r == Choice(MoveValue(g, b, p, depth, moves[i]), Some(moves[i]))
                  && Better(p, r.value, best)
                  && EarlierWorse(g, b, p, depth, moves, i, r.value))
    decreases |moves|
  {
    if |moves| == 0 {
      BetterFacts(p, best, best, best);
      i := -1;
    } else {
      var v := MoveValue(g, b, p, depth, moves[0]);
      var best' := Improve(p, best, v);
      var bestPit' := ImprovePit(p, best, v, bestPit, moves[0]);
      var r := UScan(g, b, p, depth, moves, best, bestPit);
      assert r == UScan(g, b, p, depth, moves[1..], best', bestPit');
      var k := UScanFindsFirstBest(g, b, p, depth, moves[1..], best', bestPit');
      BetterFacts(p, v, best', r.value);
      BetterFacts(p, best, best', r.value);
      PrependNoBetter(g, b, p, depth, moves, r.value);
      if k >= 0 {
        BetterFacts(p, r.value, best', best);
        BetterFacts(p, r.value, best', v);
        PrependEarlierWorse(g, b, p, depth, moves, k, r.value);
        assert moves[k + 1] == moves[1..][k];
        i := k + 1;
      } else if Better(p, v, best) {
        BetterFacts(p, v, v, best);
        i := 0;
      } else {
        i := -1;
      }
    }
  }

  /** Plain minimax at an inner node picks the first of the mover's moves
      whose value is optimal: no move is better, every earlier move is
      strictly worse. */
  lemma MinimaxChoosesFirstBest(g: Game, b: Board, p: Player, depth: nat)
    requires Playable(g)
    requires depth >= 1 && !Leaf(g, b, depth)
    ensures var r := Minimax(g, b, p, depth);
            var ms := g.moves(b, p);
            && (forall j :: 0 <= j < |ms| ==> !Better(p, MoveValue(g, b, p, depth, ms[j]), r.value))
            && exists i :: 0 <= i < |ms| && r.pit == Some(ms[i]) && r.value == MoveValue(g, b, p, depth, ms[i])
                 && forall j :: 0 <= j < i ==> Better(p, r.value, MoveValue(g, b, p, depth, ms[j]))
  {
    var ms := g.moves(b, p);
    var i := UScanFindsFirstBest(g, b, p, depth, ms, Start(p), None);
    assert 0 <= i;
  }

  /** `computer_turn`'s default search depth. */
  const ComputerDepth: nat := 5

  /** The pit `computer_turn` plays when the game is not over: a legal move of
      Player1 that is first among those with the best minimax value. */
  lemma ComputerTurnChoosesFirstBest(b: Board)
    requires !IsGameOver(b)
    ensures var r := AlphaBeta(Engine(), b, Player1, ComputerDepth, NegInf, PosInf);
            var ms := PossibleMoves(b, Player1);
            && (forall j :: 0 <= j < |ms| ==> !Better(Player1, MoveValue(Engine(), b, Player1, ComputerDepth, ms[j]), r.value))
            && exists i :: 0 <= i < |ms| && r.pit == Some(ms[i]) && r.value == MoveValue(Engine(), b, Player1, ComputerDepth, ms[i])
                 && forall j :: 0 <= j < i ==> Better(Player1, r.value, MoveValue(Engine(), b, Player1, ComputerDepth, ms[j]))
    ensures -(Sum(b) as int) <= AlphaBeta(Engine(), b, Player1, ComputerDepth, NegInf, PosInf).value.n <= Sum(b)
  {
    AlphaBetaIsMinimax(Engine(), b, Player1, ComputerDepth);
    MinimaxChoosesFirstBest(Engine(), b, Player1, ComputerDepth);
    MinimaxBounded(Engine(), b, Player1, ComputerDepth);
  }

  // ----- Values and pits the search can return -----

  /** Every search value is a finite score between minus and plus the number
      of seeds on the board: a move and the end-of-game sweep conserve seeds,
      and a leaf scores the difference of two stores. */
  lemma {:induction false} MinimaxBounded(g: Game, b: Board, p: Player, depth: nat)
    requires Playable(g)
    requires Bounded(g)
    requires depth >= 1
    ensures -(Sum(b) as int) <= Minimax(g, b, p, depth).value.n <= Sum(b)
    decreases depth, 1
  {
    if Leaf(g, b, depth) {
    } else {
      UScanBounded(g, b, p, depth, g.moves(b, p), Start(p), None);
    }
  }

  /** The loop keeps a best value that is the starting infinity or a score
      within the seeds on the board. */
  lemma {:induction false} UScanBounded(g: Game, b: Board, p: Player, depth: nat, moves: seq<Slot>,
                                        best: Ext, bestPit: Option<Slot>)
    requires Playable(g)
    requires Bounded(g)
    requires depth > 1
    requires best == Start(p) || (best.Fin? && -(Sum(b) as int) <= best.n <= Sum(b))
    ensures var r := UScan(g, b, p, depth, moves, best, bestPit).value;
            r == Start(p) || (r.Fin? && -(Sum(b) as int) <= r.n <= Sum(b))
    decreases depth, 0, |moves|
  {
    if |moves| > 0 {
      var pit := moves[0];
      var v := MoveValue(g, b, p, depth, pit);
      MoveValueBounded(g, b, p, depth, pit);
      var best' := Improve(p, best, v);
      var bestPit' := ImprovePit(p, best, v, bestPit, pit);
      assert UScan(g, b, p, depth, moves, best, bestPit) == UScan(g, b, p, depth, moves[1..], best', bestPit');
      UScanBounded(g, b, p, depth, moves[1..], best', bestPit');
    }
  }

  /** A move's value is a score within the seeds on the board: the move
      conserves them, and the reply's value is bounded by the child's seeds. */
  lemma {:induction false} MoveValueBounded(g: Game, b: Board, p: Player, depth: nat, pit: Slot)
    requires Playable(g)
    requires Bounded(g)
    requires depth > 1
    ensures -(Sum(b) as int) <= MoveValue(g, b, p, depth, pit).n <= Sum(b)
    decreases depth, 0, 0
  {
    var c := g.play(b, p, pit);
    MinimaxBounded(g, c, Other(p), depth - 1);
  }

  /** The pit the loop returns is the one it entered with or one of the
      moves it scanned. */
  lemma {:induction false} ScanPitListed(g: Game, b: Board, p: Player, depth: nat, moves: seq<Slot>,
                                         alpha: Ext, beta: Ext, best: Ext, bestPit: Option<Slot>)
    requires Playable(g)
    requires depth > 1
    ensures var r := Scan(g, b, p, depth, moves, alpha, beta, best, bestPit);
            r.pit == bestPit || (r.pit.Some? && r.pit.value in moves)
    decreases |moves|
  {
    if |moves| > 0 {
      var v := AlphaBeta(g, g.play(b, p, moves[0]), Other(p), depth - 1, alpha, beta).value;
      var best' := Improve(p, best, v);
      var bestPit' := ImprovePit(p, best, v, bestPit, moves[0]);
      var alpha' := if p == Player1 then Max(alpha, best') else alpha;
      var beta' := if p == Player1 then beta else Min(beta, best');
      ScanPitListed(g, b, p, depth, moves[1..], alpha', beta', best', bestPit');
    }
  }

  /** At every node that is not a leaf, whatever the window, the pruned
      search returns a pit from the mover's possible moves. */
  lemma AlphaBetaPitLegal(g: Game, b: Board, p: Player, depth: nat, alpha: Ext, beta: Ext)
    requires Playable(g)
    requires depth >= 1
    requires !Leaf(g, b, depth)
    ensures AlphaBeta(g, b, p, depth, alpha, beta).pit.Some?
    ensures AlphaBeta(g, b, p, depth, alpha, beta).pit.value in g.moves(b, p)
  {
    ScanPitListed(g, b, p, depth, g.moves(b, p), alpha, beta, Start(p), None);
  }
}
