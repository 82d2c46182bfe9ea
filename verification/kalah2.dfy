/** The second script's board (`MancalaBoard`) and game (`Game`): move lists,
    sowing that passes over the opponent's store, capture, the end-of-game
    test that sweeps both sides, and scoring.

    Unlike the first script, the sowing loop advances its position before
    dropping a seed, so it ends on the last seeded slot, and that slot is the
    one tested for capture. A capture fires on a landing in one of the mover's
    own pits that now holds one seed, even when the opposite pit is empty, and
    no move grants an extra turn. */
module Kalah2 {
  import opened Common
  import opened Ring

  /** The slot names of the script's `board` dictionary: "A".."L" for the
      pits and "P1", "P2" for the stores. */
  function Name(s: Slot): string
  {
    if s == 6 then "P1"
    else if s == 13 then "P2"
    else if s < 6 then [(65 + s) as char]
    else [(64 + s) as char]
  }

  /** The script's `next_pits` table. */
  const NextPits: map<string, string> :=
    map["A" := "B", "B" := "C", "C" := "D", "D" := "E", "E" := "F", "F" := "P1",
        "G" := "H", "H" := "I", "I" := "J", "J" := "K", "K" := "L", "L" := "P2",
        "P1" := "G", "P2" := "A"]

  /** The slot numbering agrees with the script's `next_pits` table. */
  lemma NextMatchesTable(s: Slot)
    ensures Name(s) in NextPits && NextPits[Name(s)] == Name(Next(s))
  {
  }

  /** The slot numbering agrees with `opposite_pits` (letter code
      76 - (code - 65)) and with the pit tuples A-F and G-L. */
  lemma PitsMatchTables()
    ensures forall s: Slot :: !IsStore(s) ==> Name(Opposite(s))[0] as int == 76 - (Name(s)[0] as int - 65)
    ensures forall i :: 0 <= i < 6 ==> Name(Pits(Player1)[i]) == [(65 + i) as char]
    ensures forall i :: 0 <= i < 6 ==> Name(Pits(Player2)[i]) == [(71 + i) as char]
  {
  }

  /** The board after sowing and the loop's final `current`. */
  datatype Sown = Sown(board: Board, current: Slot)

  /** The sowing loop: `current` first moves to the next slot; the passed-over
      store costs no seed, any other slot receives one. */
  function Sow(b: Board, current: Slot, seeds: nat, skip: Slot): (r: Sown)
    ensures r.board[skip] == b[skip]
    decreases seeds, if Next(current) == skip then 1 else 0
  {
    if seeds == 0 then Sown(b, current)
    else
      var next := Next(current);
      if next == skip then Sow(b, next, seeds, skip)
      else Sow(b[next := b[next] + 1], next, seeds - 1, skip)
  }

  /** Empty `pit` and sow its seeds starting from it, passing over the
      opponent's store. */
  function SowPit(b: Board, p: Player, pit: Slot): (r: Sown)
    ensures pit != StoreOf(Other(p)) ==> r.board[StoreOf(Other(p))] == b[StoreOf(Other(p))]
  {
    Sow(b[pit := 0], pit, b[pit], StoreOf(Other(p)))
  }

  /** Emptying the pit and sowing its seeds keeps the board total. */
  lemma SowPitConserves(b: Board, p: Player, pit: Slot)
    ensures Sum(SowPit(b, p, pit).board) == Sum(b)
  {
    SumUpdate(b, pit, 0);
    SowConserves(b[pit := 0], pit, b[pit], StoreOf(Other(p)));
  }

  /** The capture test on the final `current`: a pit now holding exactly one
      seed that belongs to the mover sends that seed and the opposite pit's
      seeds to the mover's store. */
  function Capture(b: Board, p: Player, at: Slot): (r: Board)
    ensures r[StoreOf(Other(p))] == b[StoreOf(Other(p))]
    ensures r[StoreOf(p)] >= b[StoreOf(p)]
  {
    if !IsStore(at) && b[at] == 1 && IsPitOf(p, at) then
      var opp := Opposite(at);
      var store := StoreOf(p);
      var b1 := b[store := b[store] + (b[opp] + 1)];
      var b2 := b1[at := 0];
      b2[opp := 0]
    else b
  }

  /** `do_move(player, pit)`. */
  function DoMove(b: Board, p: Player, pit: Slot): (r: Board)
  {
    var s := SowPit(b, p, pit);
    Capture(s.board, p, s.current)
  }

  // ----- Sowing -----

  /** Sowing adds one seed to each slot of `Drops`, starting one slot past
      `current`. */
  lemma {:induction false} SowFollowsDrops(b: Board, current: Slot, seeds: nat, skip: Slot)
    ensures var r := Sow(b, current, seeds, skip);
            forall s: Slot :: r.board[s] == b[s] + multiset(Drops(Next(current), seeds, skip))[s]
    decreases seeds, if Next(current) == skip then 1 else 0
  {
    if seeds > 0 {
      var next := Next(current);
      if next == skip {
        assert Sow(b, current, seeds, skip) == Sow(b, next, seeds, skip);
        assert Drops(next, seeds, skip) == Drops(Next(next), seeds, skip);
        SowFollowsDrops(b, next, seeds, skip);
      } else {
        var b1 := b[next := b[next] + 1];
        var d1 := Drops(Next(next), seeds - 1, skip);
        var r1 := Sow(b1, next, seeds - 1, skip);
        assert Sow(b, current, seeds, skip) == r1;
        assert Drops(next, seeds, skip) == [next] + d1;
        SowFollowsDrops(b1, next, seeds - 1, skip);
        OneMoreDrop(b, next, r1.board, d1);
      }
    }
  }

  /** The loop's `current` ends on the last slot of `Drops`. */
  lemma {:induction false} SowEndsOnLastDrop(b: Board, current: Slot, seeds: nat, skip: Slot)
    ensures Sow(b, current, seeds, skip).current
         == if seeds == 0 then current else Drops(Next(current), seeds, skip)[seeds - 1]
    decreases seeds, if Next(current) == skip then 1 else 0
  {
    if seeds > 0 {
      var next := Next(current);
      if next == skip {
        SowEndsOnLastDrop(b, next, seeds, skip);
        assert Drops(next, seeds, skip) == Drops(Next(next), seeds, skip);
      } else {
        var b1 := b[next := b[next] + 1];
        var d1 := Drops(Next(next), seeds - 1, skip);
        SowEndsOnLastDrop(b1, next, seeds - 1, skip);
        assert Drops(next, seeds, skip) == [next] + d1;
        if seeds > 1 {
          assert Drops(next, seeds, skip)[seeds - 1] == d1[seeds - 2];
        }
      }
    }
  }

  /** Sowing adds exactly the seeds it was given to the board's total. */
  lemma {:induction false} SowConserves(b: Board, current: Slot, seeds: nat, skip: Slot)
    ensures Sum(Sow(b, current, seeds, skip).board) == Sum(b) + seeds
    decreases seeds, if Next(current) == skip then 1 else 0
  {
    if seeds > 0 {
      var next := Next(current);
      if next == skip {
        SowConserves(b, next, seeds, skip);
      } else {
        SumUpdate(b, next, b[next] + 1);
        SowConserves(b[next := b[next] + 1], next, seeds - 1, skip);
      }
    }
  }

  /** `do_move`'s sowing: the chosen pit is emptied, exactly its seeds are
      dropped one per slot along the ring from the next slot on, never into
      the opponent's store, and `current` ends on the last seeded slot (on the
      pit itself when it was empty). */
  lemma SowPitSpec(b: Board, p: Player, pit: Slot)
    ensures var r := SowPit(b, p, pit);
            var d := Drops(Next(pit), b[pit], StoreOf(Other(p)));
            && |d| == b[pit]
            && StoreOf(Other(p)) !in d
            && (forall s: Slot :: r.board[s] == (if s == pit then 0 else b[s]) + multiset(d)[s])
            && r.current == (if b[pit] == 0 then pit else d[b[pit] - 1])
  {
    SowFollowsDrops(b[pit := 0], pit, b[pit], StoreOf(Other(p)));
    SowEndsOnLastDrop(b[pit := 0], pit, b[pit], StoreOf(Other(p)));
  }

  // ----- Capture -----

  /** Capture moves seeds into the mover's store without creating or losing any. */
  lemma CaptureConserves(b: Board, p: Player, at: Slot)
    ensures Sum(Capture(b, p, at)) == Sum(b)
  {
    if !IsStore(at) && b[at] == 1 && IsPitOf(p, at) {
      var opp := Opposite(at);
      var store := StoreOf(p);
      var b1 := b[store := b[store] + (b[opp] + 1)];
      var b2 := b1[at := 0];
      SumUpdate(b, store, b[store] + (b[opp] + 1));
      SumUpdate(b1, at, 0);
      SumUpdate(b2, opp, 0);
    }
  }

  /** A move neither creates nor destroys seeds, never touches the opponent's
      store, and never takes seeds out of the mover's store. */
  lemma DoMoveConserves(b: Board, p: Player, pit: Slot)
    ensures Sum(DoMove(b, p, pit)) == Sum(b)
    ensures pit != StoreOf(Other(p)) ==> DoMove(b, p, pit)[StoreOf(Other(p))] == b[StoreOf(Other(p))]
    ensures pit != StoreOf(p) ==> DoMove(b, p, pit)[StoreOf(p)] >= b[StoreOf(p)]
  {
    SumUpdate(b, pit, 0);
    SowConserves(b[pit := 0], pit, b[pit], StoreOf(Other(p)));
    var s := SowPit(b, p, pit);
    CaptureConserves(s.board, p, s.current);
    SowPitSpec(b, p, pit);
  }

  /** The capture happens exactly when the last seed lands in one of the
      mover's pits that was empty before the move's seed arrived there (holds
      one seed after sowing); the mover's store then gains that seed and
      everything in the opposite pit, even when the opposite pit is empty,
      and both pits are emptied. Otherwise the move is just the sowing. */
  lemma CaptureAsWritten(b: Board, p: Player, pit: Slot)
    ensures var s := SowPit(b, p, pit).board;
            var at := SowPit(b, p, pit).current;
            var r := DoMove(b, p, pit);
            if IsPitOf(p, at) && s[at] == 1 then
              && r[at] == 0
              && r[Opposite(at)] == 0
              && r[StoreOf(p)] == s[StoreOf(p)] + 1 + s[Opposite(at)]
              && (forall x: Slot :: x != at && x != Opposite(at) && x != StoreOf(p) ==> r[x] == s[x])
            else r == s
  {
  }

  /** The slot tested for capture is the one that received the last seed. */
  lemma CaptureSlot(b: Board, p: Player, pit: Slot)
    requires b[pit] > 0
    ensures SowPit(b, p, pit).current == Drops(Next(pit), b[pit], StoreOf(Other(p)))[b[pit] - 1]
  {
    SowPitSpec(b, p, pit);
  }

  // ----- End of game -----

  /** `is_game_over`: one side's six pits are all empty. */
  function IsGameOver(b: Board): (r: bool)
    ensures r <==> PitsTotal(b, Pits(Player1)) == 0 || PitsTotal(b, Pits(Player2)) == 0
  {
    SideTotalZero(b, Player1);
    SideTotalZero(b, Player2);
    SideEmpty(b, Player1) || SideEmpty(b, Player2)
  }

  /** `collect_remaining_seeds`: sweep A..F into store P1, then G..L into
      store P2. */
  function CollectRemaining(b: Board): (r: Board)
    ensures forall s: Slot :: !IsStore(s) ==> r[s] == 0
  {
    var b1 := Collect(b, Pits(Player1), StoreOf(Player1));
    Collect(b1, Pits(Player2), StoreOf(Player2))
  }

  /** `game_over`: when the game is over both sides are swept; otherwise the
      board is left alone. */
  function GameOver(b: Board): (r: Ended)
    ensures r.over <==> IsGameOver(b)
    ensures !r.over ==> r.board == b
    ensures r.over ==> forall s: Slot :: !IsStore(s) ==> r.board[s] == 0
  {
    if IsGameOver(b) then Ended(true, CollectRemaining(b)) else Ended(false, b)
  }

  /** Each store receives exactly its own side's seeds, whatever the board. */
  lemma CollectRemainingStores(b: Board)
    ensures CollectRemaining(b)[StoreOf(Player1)] == b[StoreOf(Player1)] + PitsTotal(b, Pits(Player1))
    ensures CollectRemaining(b)[StoreOf(Player2)] == b[StoreOf(Player2)] + PitsTotal(b, Pits(Player2))
  {
    var ps1, ps2 := Pits(Player1), Pits(Player2);
    var b1 := Collect(b, ps1, 6);
    var r := Collect(b1, ps2, 13);
    assert r == CollectRemaining(b);
    assert 6 !in ps2 && 13 !in ps1;
    assert r[6] == b1[6];
    assert b1[13] == b[13];
    SideTotalFrame(b, b1, Player2);
  }

  /** The sweep neither creates nor loses seeds. */
  lemma CollectRemainingConserves(b: Board)
    ensures Sum(CollectRemaining(b)) == Sum(b)
  {
    var b1 := Collect(b, Pits(Player1), StoreOf(Player1));
    CollectConserves(b, Pits(Player1), StoreOf(Player1));
    CollectConserves(b1, Pits(Player2), StoreOf(Player2));
  }

  /** Once the game is over the two stores hold every seed on the board. */
  lemma GameOverTotal(b: Board)
    requires IsGameOver(b)
    ensures GameOver(b).board[StoreOf(Player1)] + GameOver(b).board[StoreOf(Player2)] == Sum(b)
  {
    var r := GameOver(b).board;
    CollectRemainingConserves(b);
    AllPitsEmpty(r);
  }

  /** When one side is already empty, sweeping both sides is the same as
      sweeping only the side that still holds seeds. */
  lemma SweepBothIsSweepOne(b: Board, p: Player)
    requires SideEmpty(b, Other(p))
    ensures CollectRemaining(b) == Collect(b, Pits(p), StoreOf(p))
  {
    var q := Other(p);
    assert forall s: Slot :: s in Pits(q) ==> b[s] == 0;
    if p == Player1 {
      var b1 := Collect(b, Pits(Player1), StoreOf(Player1));
      CollectEmpty(b1, Pits(Player2), StoreOf(Player2));
    } else {
      CollectEmpty(b, Pits(Player1), StoreOf(Player1));
    }
  }

  /** A second call reports the end again and changes nothing. */
  lemma GameOverIdempotent(b: Board)
    requires IsGameOver(b)
    ensures GameOver(GameOver(b).board) == GameOver(b)
  {
    var r := GameOver(b).board;
    assert SideEmpty(r, Player1);
    SweepBothIsSweepOne(r, Player2);
    CollectEmpty(r, Pits(Player2), StoreOf(Player2));
  }

  // ----- Consequences of the rules as written, on concrete moves -----

  /** Player1 plays A holding one seed into an empty B facing an empty K: the
      capture still fires and puts that single seed into store P1. */
  lemma CaptureFacingEmptyPit(b: Board)
    requires b[0] == 1 && b[1] == 0 && b[11] == 0
    ensures DoMove(b, Player1, 0) == b[0 := 0][6 := b[6] + 1]
  {
    var b0 := b[0 := 0];
    var b1 := b0[1 := 1];
    assert Sow(b0, 0, 1, 13) == Sow(b1, 1, 0, 13) == Sown(b1, 1);
    assert Opposite(1) == 11;
    assert b1[6 := b1[6] + 1][1 := 0][11 := 0] == b[0 := 0][6 := b[6] + 1];
  }

  /** Player1 plays C holding 4 seeds: the last seed goes into store P1 and
      the board is just the sowing (the script grants no extra turn). */
  lemma LastSeedInStore(b: Board)
    requires b[2] == 4
    ensures DoMove(b, Player1, 2) == b[2 := 0][3 := b[3] + 1][4 := b[4] + 1][5 := b[5] + 1][6 := b[6] + 1]
  {
    var b0 := b[2 := 0];
    var b1 := b0[3 := b0[3] + 1];
    var b2 := b1[4 := b1[4] + 1];
    var b3 := b2[5 := b2[5] + 1];
    var b4 := b3[6 := b3[6] + 1];
    assert Sow(b0, 2, 4, 13) == Sow(b1, 3, 3, 13) == Sow(b2, 4, 2, 13)
        == Sow(b3, 5, 1, 13) == Sow(b4, 6, 0, 13) == Sown(b4, 6);
  }
}
