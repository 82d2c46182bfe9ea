/** What the two alpha-beta searches share: the game they search, a node's
    result, the rule that keeps the best move, and the per-move facts behind
    the proofs that pruning does not change the answer. */
module Search {
  import opened Common
  import opened Extended
  import opened Ring

  /** A node's result: its value and the pit chosen (`None` at a leaf). */
  datatype Choice = Choice(value: Ext, pit: Option<Slot>)

  /** A move function: the board after `p` plays `pit`. */
  type Mover = (Board, Player, Slot) -> Board

  /** What a search needs from a script: its move, its end-of-game test,
      the score it gives a leaf, and its list of legal moves. The searches
      are proved for any game; each script's search is then applied to that
      script's own functions. */
  datatype Game = Game(play: Mover, over: Board -> bool, score: Board -> int,
                       moves: (Board, Player) -> seq<Slot>)

  /** In a position that is not over, the mover has a move. */
  ghost predicate Playable(g: Game)
  {
    forall b: Board, p: Player :: !g.over(b) ==> |g.moves(b, p)| > 0
  }

  /** Moves keep the number of seeds on the board, and a score lies between
      minus and plus that number. */
  ghost predicate Bounded(g: Game)
  {
    && (forall b: Board, p: Player, pit: Slot :: Sum(g.play(b, p, pit)) == Sum(b))
    && (forall b: Board :: -(Sum(b) as int) <= g.score(b) <= Sum(b))
  }

  /** The loop's update `if value > best_value: best_value = value` (for
      Player2, `<`): a move replaces the best only when strictly better, so
      ties keep the earlier move. */
  function Improve(p: Player, best: Ext, v: Ext): (r: Ext)
    ensures r == best || r == v
    ensures !Better(p, best, r) && !Better(p, v, r)
  {
    if Better(p, v, best) then v else best
  }

  /** The pit kept alongside `Improve`. */
  function ImprovePit(p: Player, best: Ext, v: Ext, bestPit: Option<Slot>, pit: Slot): Option<Slot>
  {
    if Better(p, v, best) then Some(pit) else bestPit
  }

  /** Loop invariant of a maximizing node entered with window (`alpha0`,
      `beta`): alpha has been raised to the best value, no cutoff yet, and
      the pruned best is an upper bound of the true best so far, equal to it
      once above `alpha0`. */
  predicate MaxInvariant(alpha0: Ext, beta: Ext, alpha: Ext, best: Ext, bestU: Ext)
  {
    && Lt(alpha0, beta) && alpha == Max(alpha0, best) && Lt(alpha, beta)
    && Le(bestU, best) && (Lt(alpha0, best) ==> bestU == best)
  }

  /** Mirror of `MaxInvariant` for a minimizing node entered with window
      (`alpha`, `beta0`). */
  predicate MinInvariant(alpha: Ext, beta0: Ext, beta: Ext, best: Ext, bestU: Ext)
  {
    && Lt(alpha, beta0) && beta == Min(beta0, best) && Lt(alpha, beta)
    && Le(best, bestU) && (Lt(best, beta0) ==> bestU == best)
  }

  /** One maximizing step keeps `MaxInvariant`; on a cutoff the new best is
      a lower bound of the new true best. While alpha < beta, testing the
      raised alpha against beta and testing the new best against beta agree. */
  lemma MaxStep(alpha0: Ext, beta: Ext, alpha: Ext, best: Ext, bestU: Ext, v: Ext, m: Ext)
    requires MaxInvariant(alpha0, beta, alpha, best, bestU)
    requires FailSoft(alpha, beta, v, m)
    ensures var best' := Improve(Player1, best, v);
            var bestU' := Improve(Player1, bestU, m);
            var alpha' := Max(alpha, best');
            && (Le(beta, alpha') <==> Le(beta, best'))
            && (Le(beta, alpha') ==> Le(best', bestU') && Le(beta, best'))
            && (!Le(beta, alpha') ==> MaxInvariant(alpha0, beta, alpha', best', bestU'))
  {
  }

  /** One minimizing step keeps `MinInvariant`; mirror of `MaxStep`. */
  lemma MinStep(alpha: Ext, beta0: Ext, beta: Ext, best: Ext, bestU: Ext, v: Ext, m: Ext)
    requires MinInvariant(alpha, beta0, beta, best, bestU)
    requires FailSoft(alpha, beta, v, m)
    ensures var best' := Improve(Player2, best, v);
            var bestU' := Improve(Player2, bestU, m);
            var beta' := Min(beta, best');
            && (Le(beta', alpha) <==> Le(best', alpha))
            && (Le(beta', alpha) ==> Le(bestU', best') && Le(best', alpha))
            && (!Le(beta', alpha) ==> MinInvariant(alpha, beta0, beta', best', bestU'))
  {
  }

  /** A child searched with the root window (`best`, infinity) for Player1,
      or (minus infinity, `best`) for Player2, improves on `best` exactly when
      its true value does, and then the two values agree. */
  lemma RootStep(p: Player, best: Ext, v: Ext, m: Ext)
    requires p == Player1 ==> best != PosInf && FailSoft(best, PosInf, v, m)
    requires p == Player2 ==> best != NegInf && FailSoft(NegInf, best, v, m)
    ensures Better(p, v, best) <==> Better(p, m, best)
    ensures Better(p, v, best) ==> v == m
  {
  }
}
