/** The first script's board (`MancalaBoard`) and game (`Game`): move lists,
    sowing that passes over the opponent's store, capture and the extra-turn
    flag, the end-of-game test with its sweep, and scoring.

    The capture test and the extra-turn test read the walk's position AFTER the
    sowing loop, which already stands one slot past the last seeded slot: the
    extra-turn flag is set when the slot after the last seed is the mover's
    store, and capture is tested on the slot two past the last seed. This module
    follows that code; the lemmas at the end show the consequences. */
module Kalah1 {
  import opened Common
  import opened Ring

  datatype Sown = Sown(board: Board, cur: Slot)

  /** The sowing loop: the walk stands at `cur`; the skipped store costs no
      seed, every other slot visited receives one; the walk then moves on. */
  function Sow(b: Board, cur: Slot, seeds: nat, skip: Slot): (r: Sown)
    ensures r.board[skip] == b[skip]
    decreases seeds, if cur == skip then 1 else 0
  {
    if seeds == 0 then Sown(b, cur)
    else if cur == skip then Sow(b, Next(cur), seeds, skip)
    else Sow(b[cur := b[cur] + 1], Next(cur), seeds - 1, skip)
  }

  /** Empty `pit` and sow its seeds from the next slot, passing over the
      opponent's store. */
  function SowPit(b: Board, p: Player, pit: Slot): (r: Sown)
    ensures pit != StoreOf(Other(p)) ==> r.board[StoreOf(Other(p))] == b[StoreOf(Other(p))]
  {
    Sow(b[pit := 0], Next(pit), b[pit], StoreOf(Other(p)))
  }

  /** Emptying the pit and sowing its seeds keeps the board total. */
  lemma SowPitConserves(b: Board, p: Player, pit: Slot)
    ensures Sum(SowPit(b, p, pit).board) == Sum(b)
  {
    SumUpdate(b, pit, 0);
    SowConserves(b[pit := 0], Next(pit), b[pit], StoreOf(Other(p)));
  }

  /** The capture test as written, applied to the slot `at` it inspects. */
  function Capture(b: Board, p: Player, at: Slot): (r: Board)
    ensures r[StoreOf(Other(p))] == b[StoreOf(Other(p))]
    ensures r[StoreOf(p)] >= b[StoreOf(p)]
  {
    if IsPitOf(p, at) && b[at] == 1 then
      var opp := Opposite(at);
      if b[opp] > 0 then
        var store := StoreOf(p);
        var b1 := b[store := b[store] + (b[at] + b[opp])];
        var b2 := b1[at := 0];
        b2[opp := 0]
      else b
    else b
  }

  /** Capture moves seeds into the mover's store without creating or losing any. */
  lemma CaptureConserves(b: Board, p: Player, at: Slot)
    ensures Sum(Capture(b, p, at)) == Sum(b)
  {
    if IsPitOf(p, at) && b[at] == 1 && b[Opposite(at)] > 0 {
      var opp := Opposite(at);
      var store := StoreOf(p);
      var b1 := b[store := b[store] + (b[at] + b[opp])];
      var b2 := b1[at := 0];
      SumUpdate(b, store, b[store] + (b[at] + b[opp]));
      SumUpdate(b1, at, 0);
      SumUpdate(b2, opp, 0);
    }
  }

  datatype Moved = Moved(board: Board, extra: bool)

  /** `doMove(player, pit)`: the new board and the extra-turn flag. */
  function DoMove(b: Board, p: Player, pit: Slot): (r: Moved)
  {
    var s := SowPit(b, p, pit);
    Moved(Capture(s.board, p, Next(s.cur)), s.cur == StoreOf(p))
  }

  // ----- Sowing -----

  /** Sowing adds one seed to each slot of the reference path `Drops`. */
  lemma {:induction false} SowFollowsDrops(b: Board, cur: Slot, seeds: nat, skip: Slot)
    ensures var r := Sow(b, cur, seeds, skip);
            var d := Drops(cur, seeds, skip);
            forall s: Slot :: r.board[s] == b[s] + multiset(d)[s]
    decreases seeds, if cur == skip then 1 else 0
  {
    if seeds == 0 {
    } else if cur == skip {
      assert Sow(b, cur, seeds, skip) == Sow(b, Next(cur), seeds, skip);
      assert Drops(cur, seeds, skip) == Drops(Next(cur), seeds, skip);
      SowFollowsDrops(b, Next(cur), seeds, skip);
    } else {
      var b1 := b[cur := b[cur] + 1];
      var d1 := Drops(Next(cur), seeds - 1, skip);
      var r1 := Sow(b1, Next(cur), seeds - 1, skip);
      assert Sow(b, cur, seeds, skip) == r1;
      assert Drops(cur, seeds, skip) == [cur] + d1;
      SowFollowsDrops(b1, Next(cur), seeds - 1, skip);
      OneMoreDrop(b, cur, r1.board, d1);
    }
  }

  /** Sowing leaves the walk one slot past the last slot of `Drops`. */
  lemma {:induction false} SowEndsPastLastDrop(b: Board, cur: Slot, seeds: nat, skip: Slot)
    ensures Sow(b, cur, seeds, skip).cur
         == if seeds == 0 then cur else Next(Drops(cur, seeds, skip)[seeds - 1])
    decreases seeds, if cur == skip then 1 else 0
  {
    if seeds == 0 {
    } else if cur == skip {
      SowEndsPastLastDrop(b, Next(cur), seeds, skip);
      assert Drops(cur, seeds, skip) == Drops(Next(cur), seeds, skip);
    } else {
      var b1 := b[cur := b[cur] + 1];
      SowEndsPastLastDrop(b1, Next(cur), seeds - 1, skip);
      var d1 := Drops(Next(cur), seeds - 1, skip);
      assert Drops(cur, seeds, skip) == [cur] + d1;
      if seeds > 1 {
        assert Drops(cur, seeds, skip)[seeds - 1] == d1[seeds - 2];
      }
    }
  }

  /** `doMove`'s sowing: the chosen pit is emptied, exactly its seeds are
      dropped one per slot along the ring, never into the opponent's store,
      and the walk ends one slot past the last seeded slot. */
  lemma SowPitSpec(b: Board, p: Player, pit: Slot)
    ensures var r := SowPit(b, p, pit);
            var d := Drops(Next(pit), b[pit], StoreOf(Other(p)));
            && |d| == b[pit]
            && StoreOf(Other(p)) !in d
            && (forall s: Slot :: r.board[s] == (if s == pit then 0 else b[s]) + multiset(d)[s])
            && r.cur == (if b[pit] == 0 then Next(pit) else Next(d[b[pit] - 1]))
  {
    SowFollowsDrops(b[pit := 0], Next(pit), b[pit], StoreOf(Other(p)));
    SowEndsPastLastDrop(b[pit := 0], Next(pit), b[pit], StoreOf(Other(p)));
  }

  /** Sowing adds exactly the seeds it was given to the board's total. */
  lemma {:induction false} SowConserves(b: Board, cur: Slot, seeds: nat, skip: Slot)
    ensures Sum(Sow(b, cur, seeds, skip).board) == Sum(b) + seeds
    decreases seeds, if cur == skip then 1 else 0
  {
    if seeds == 0 {
    } else if cur == skip {
      SowConserves(b, Next(cur), seeds, skip);
    } else {
      SumUpdate(b, cur, b[cur] + 1);
      SowConserves(b[cur := b[cur] + 1], Next(cur), seeds - 1, skip);
    }
  }

  /** A move neither creates nor destroys seeds, never touches the opponent's
      store, and never takes seeds out of the mover's store. */
  lemma DoMoveConserves(b: Board, p: Player, pit: Slot)
    ensures Sum(DoMove(b, p, pit).board) == Sum(b)
    ensures pit != StoreOf(Other(p)) ==>
      DoMove(b, p, pit).board[StoreOf(Other(p))] == b[StoreOf(Other(p))]
    ensures pit != StoreOf(p) ==> DoMove(b, p, pit).board[StoreOf(p)] >= b[StoreOf(p)]
  {
    SumUpdate(b, pit, 0);
    SowConserves(b[pit := 0], Next(pit), b[pit], StoreOf(Other(p)));
    var s := SowPit(b, p, pit);
    CaptureConserves(s.board, p, Next(s.cur));
    SowPitSpec(b, p, pit);
  }

  // ----- Extra turn -----

  /** The flag is true exactly when the slot after the last seeded slot is the
      mover's store, i.e. the last seed went into F (Player1) or L (Player2);
      with an empty pit, when the chosen pit itself is F or L. */
  lemma ExtraTurnAsWritten(b: Board, p: Player, pit: Slot)
    ensures var d := Drops(Next(pit), b[pit], StoreOf(Other(p)));
            DoMove(b, p, pit).extra <==>
              if b[pit] > 0 then d[b[pit] - 1] == Pits(p)[5] else pit == Pits(p)[5]
  {
    SowPitSpec(b, p, pit);
  }

  // ----- Capture -----

  /** Capture inspects the slot after the walk's final position. If it is one
      of the mover's pits holding exactly 1 and its opposite pit holds seeds,
      both are emptied and the mover's store gains 1 + the opposite pit;
      otherwise the result is the sown board. */
  lemma CaptureAsWritten(b: Board, p: Player, pit: Slot)
    ensures var s := SowPit(b, p, pit).board;
            var at := Next(SowPit(b, p, pit).cur);
            var r := DoMove(b, p, pit).board;
            if IsPitOf(p, at) && s[at] == 1 && s[Opposite(at)] > 0 then
              && r[at] == 0
              && r[Opposite(at)] == 0
              && r[StoreOf(p)] == s[StoreOf(p)] + 1 + s[Opposite(at)]
              && (forall x: Slot :: x != at && x != Opposite(at) && x != StoreOf(p) ==> r[x] == s[x])
            else r == s
  {
  }

  /** The inspected slot is two slots past the last seeded slot. */
  lemma CaptureSlot(b: Board, p: Player, pit: Slot)
    requires b[pit] > 0
    ensures var d := Drops(Next(pit), b[pit], StoreOf(Other(p)));
            Next(SowPit(b, p, pit).cur) == Next(Next(d[b[pit] - 1]))
  {
    SowPitSpec(b, p, pit);
  }

  // ----- End of game -----

  /** `gameOver`: true iff one side's six pits are all empty; in that case the
      other side's pits are swept into their owner's store. */
  function GameOver(b: Board): (r: Ended)
    ensures r.over <==> SideEmpty(b, Player1) || SideEmpty(b, Player2)
    ensures !r.over ==> r.board == b
    ensures r.over ==> forall s: Slot :: !IsStore(s) ==> r.board[s] == 0
  {
    var empty1 := SideEmpty(b, Player1);
    var empty2 := SideEmpty(b, Player2);
    if empty1 || empty2 then
      if empty1 then Ended(true, Collect(b, Pits(Player2), StoreOf(Player2)))
      else Ended(true, Collect(b, Pits(Player1), StoreOf(Player1)))
    else Ended(false, b)
  }

  /** The sweep neither creates nor loses seeds. */
  lemma GameOverConserves(b: Board)
    ensures Sum(GameOver(b).board) == Sum(b)
  {
    if SideEmpty(b, Player1) {
      CollectConserves(b, Pits(Player2), StoreOf(Player2));
    } else if SideEmpty(b, Player2) {
      CollectConserves(b, Pits(Player1), StoreOf(Player1));
    }
  }

  /** After the sweep each store holds its old seeds plus its own side's
      remaining seeds. */
  lemma GameOverSweep(b: Board)
    requires SideEmpty(b, Player1) || SideEmpty(b, Player2)
    ensures GameOver(b).board[StoreOf(Player1)] == b[StoreOf(Player1)] + PitsTotal(b, Pits(Player1))
    ensures GameOver(b).board[StoreOf(Player2)] == b[StoreOf(Player2)] + PitsTotal(b, Pits(Player2))
  {
    var g := GameOver(b);
    var p := if SideEmpty(b, Player1) then Player2 else Player1;
    assert SideEmpty(b, Other(p));
    assert g.board == Collect(b, Pits(p), StoreOf(p));
    SweepOneSide(b, p);
  }

  /** Once the game is over the two stores hold every seed on the board. */
  lemma GameOverTotal(b: Board)
    requires SideEmpty(b, Player1) || SideEmpty(b, Player2)
    ensures GameOver(b).board[StoreOf(Player1)] + GameOver(b).board[StoreOf(Player2)] == Sum(b)
  {
    var r := GameOver(b).board;
    GameOverConserves(b);
    AllPitsEmpty(r);
  }

  /** Sweeping `p`'s side when the other side is already empty: each store
      ends with its old seeds plus its own side's seeds. */
  lemma SweepOneSide(b: Board, p: Player)
    requires SideEmpty(b, Other(p))
    ensures var r := Collect(b, Pits(p), StoreOf(p));
            && r[StoreOf(p)] == b[StoreOf(p)] + PitsTotal(b, Pits(p))
            && r[StoreOf(Other(p))] == b[StoreOf(Other(p))] + PitsTotal(b, Pits(Other(p)))
  {
    SideTotalZero(b, Other(p));
  }

  /** A second call reports the end again and changes nothing. */
  lemma GameOverIdempotent(b: Board)
    requires SideEmpty(b, Player1) || SideEmpty(b, Player2)
    ensures GameOver(GameOver(b).board) == GameOver(b)
  {
    var r := GameOver(b).board;
    GameOverConserves(b);
    AllPitsEmpty(r);
    assert forall s: Slot :: s in Pits(Player2) ==> r[s] == 0;
    CollectEmpty(r, Pits(Player2), StoreOf(Player2));
  }

  // ----- Consequences of the as-written tests, on concrete moves -----

  /** Player1 plays C holding 4 seeds (as in the opening): the last seed goes
      into Player1's store, yet no extra turn is granted, because the flag
      looks one slot further, at G. */
  lemma LastSeedInStoreNoExtraTurn(b: Board)
    requires b[2] == 4
    ensures DoMove(b, Player1, 2)
         == Moved(b[2 := 0][3 := b[3] + 1][4 := b[4] + 1][5 := b[5] + 1][6 := b[6] + 1], false)
  {
    var b0 := b[2 := 0];
    var b1 := b0[3 := b0[3] + 1];
    var b2 := b1[4 := b1[4] + 1];
    var b3 := b2[5 := b2[5] + 1];
    var b4 := b3[6 := b3[6] + 1];
    assert Sow(b3, 6, 1, 13) == Sown(b4, 7);
    assert Sow(b2, 5, 2, 13) == Sow(b3, 6, 1, 13);
    assert Sow(b1, 4, 3, 13) == Sow(b2, 5, 2, 13);
    assert Sow(b0, 3, 4, 13) == Sow(b1, 4, 3, 13);
    assert Capture(b4, Player1, 8) == b4;
  }

  /** Player1 plays B holding 4 seeds: the last seed goes into F, and the
      extra turn is granted. */
  lemma LastSeedInFExtraTurn(b: Board)
    requires b[1] == 4
    ensures DoMove(b, Player1, 1)
         == Moved(b[1 := 0][2 := b[2] + 1][3 := b[3] + 1][4 := b[4] + 1][5 := b[5] + 1], true)
  {
    var b0 := b[1 := 0];
    var b1 := b0[2 := b0[2] + 1];
    var b2 := b1[3 := b1[3] + 1];
    var b3 := b2[4 := b2[4] + 1];
    var b4 := b3[5 := b3[5] + 1];
    assert Sow(b3, 5, 1, 13) == Sown(b4, 6);
    assert Sow(b2, 4, 2, 13) == Sow(b3, 5, 1, 13);
    assert Sow(b1, 3, 3, 13) == Sow(b2, 4, 2, 13);
    assert Sow(b0, 2, 4, 13) == Sow(b1, 3, 3, 13);
    assert Capture(b4, Player1, 7) == b4;
  }

  /** Player1 plays A holding a single seed, which lands in B; the pit tested
      for capture is D, two slots further on. When D holds one seed and its
      opposite pit I holds some, D and I are captured, while B keeps the seed
      that actually landed. */
  lemma CaptureTwoPastLanding(b: Board)
    requires b[0] == 1 && b[3] == 1 && b[9] > 0
    ensures DoMove(b, Player1, 0)
         == Moved(b[0 := 0][1 := b[1] + 1][6 := b[6] + 1 + b[9]][3 := 0][9 := 0], false)
  {
    var b0 := b[0 := 0];
    var b1 := b0[1 := b0[1] + 1];
    assert Sow(b0, 1, 1, 13) == Sow(b1, 2, 0, 13) == Sown(b1, 2);
    assert Opposite(3) == 9;
  }
}
