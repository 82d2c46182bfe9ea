/** The third script (`Mancala`): two rows of six pits, one per player, two
    stores and the player to move.

    Pits are named by letters from 'I' on (index i is `chr(ord('I') + i)`).
    A move sows only into the mover's own row: Player1's walk wraps from
    index 6 back to 0, Player2's from index 5 back to 0, so Player2's last
    pit receives no seed from a walk that starts at one of the letters
    `possible_moves` lists (indices 0..4; choosing index 5 with seeds in it
    indexes past the row). Subscripts follow Python lists: an index in
    [-6, 0) counts from the end and anything outside [-6, 6) raises
    IndexError, which is the `IndexError` result. So letters 'C'..'H', which
    decode to -6..-1, are accepted, and a walk from them does reach
    Player2's last pit through subscript -1. A last seed landing in a pit
    that now holds one seed captures it together with the facing pit, and
    the turn always passes. */
module TwoRow {
  import opened Common

  type Row = r: seq<nat> | |r| == 6 witness [0, 0, 0, 0, 0, 0]

  datatype State = State(row1: Row, row2: Row, store1: nat, store2: nat, current: Player)

  /** The outcome of `play_move`: the new state, or the IndexError it raises. */
  datatype Result = Ok(state: State) | IndexError

  /** `__init__`: four seeds in every pit, empty stores, Player1 to move. */
  function Init(): (st: State)
    ensures st.current == Player1 && st.store1 == 0 && st.store2 == 0
    ensures forall i :: 0 <= i < 6 ==> st.row1[i] == 4 && st.row2[i] == 4
  {
    State([4, 4, 4, 4, 4, 4], [4, 4, 4, 4, 4, 4], 0, 0, Player1)
  }

  function RowOf(st: State, p: Player): Row
  {
    if p == Player1 then st.row1 else st.row2
  }

  function StoreOf(st: State, p: Player): nat
  {
    if p == Player1 then st.store1 else st.store2
  }

  /** All seeds in play: both rows and both stores. */
  function Total(st: State): nat
  {
    Sum(st.row1) + Sum(st.row2) + st.store1 + st.store2
  }

  /** A row's total is the sum of its six pits. */
  lemma SumSix(r: Row)
    ensures Sum(r) == r[0] + r[1] + r[2] + r[3] + r[4] + r[5]
  {
    assert r[5..][1..] == [];
    assert Sum(r[5..]) == r[5];
    assert r[4..][1..] == r[5..];
    assert Sum(r[4..]) == r[4] + Sum(r[5..]);
    assert r[3..][1..] == r[4..];
    assert Sum(r[3..]) == r[3] + Sum(r[4..]);
    assert r[2..][1..] == r[3..];
    assert Sum(r[2..]) == r[2] + Sum(r[3..]);
    assert r[1..][1..] == r[2..];
    assert Sum(r[1..]) == r[1] + Sum(r[2..]);
    assert r[0..][1..] == r[1..];
    assert r[0..] == r;
  }

  /** The opening position holds 48 seeds. */
  lemma InitTotal()
    ensures Total(Init()) == 48
  {
    var st := Init();
    SumSix(st.row1);
    SumSix(st.row2);
  }

  // ----- Move letters -----

  /** The letter `possible_moves` lists for pit index `i`. */
  function Encode(i: nat): char
    requires i < 6
  {
    (73 + i) as char
  }

  /** The pit index `play_move` computes from a letter: `ord(move) - ord('I')`. */
  function Decode(c: char): int
  {
    c as int - 73
  }

  /** Decoding undoes encoding. */
  lemma DecodeEncode(i: nat)
    requires i < 6
    ensures Decode(Encode(i)) == i
    ensures 'I' <= Encode(i) <= 'N'
  {
  }

  /** The letters 'I'..'N' are exactly the encodings of the indices 0..5. */
  lemma EncodeDecode(c: char)
    ensures 'I' <= c <= 'N' <==> 0 <= Decode(c) < 6
    ensures 'I' <= c <= 'N' ==> Encode(Decode(c)) == c
  {
  }

  /** Python's subscript of a six-element list: the position it reads, or
      None where it raises IndexError. */
  function PyIndex(i: int): (r: Option<nat>)
    ensures r.Some? <==> -6 <= i < 6
    ensures r.Some? ==> r.value < 6 && (r.value == i || r.value == i + 6)
  {
    if 0 <= i < 6 then Some(i)
    else if -6 <= i < 0 then Some(i + 6)
    else None
  }

  // ----- Possible moves -----

  /** The letters of the non-empty pits of `row` from index `i` on. */
  function MovesFrom(row: Row, i: nat): (r: seq<char>)
    requires i <= 6
    ensures forall k :: i <= k < 6 ==> (Encode(k) in r <==> row[k] > 0)
    ensures forall c :: c in r ==> i <= Decode(c) < 6
    ensures forall a, b :: 0 <= a < b < |r| ==> r[a] < r[b]
    decreases 6 - i
  {
    if i == 6 then []
    else
      var rest := MovesFrom(row, i + 1);
      if row[i] > 0 then
        assert forall c :: c in rest ==> Encode(i) < c;
        var r := [Encode(i)] + rest;
        assert forall a :: 0 < a < |r| ==> r[a] == rest[a - 1] && r[a] in rest;
        r
      else rest
  }

  /** `possible_moves`: the letters of the current player's non-empty pits, in
      index order; each decodes to a pit index 0..5. */
  function PossibleMoves(st: State): (r: seq<char>)
    ensures forall k :: 0 <= k < 6 ==> (Encode(k) in r <==> RowOf(st, st.current)[k] > 0)
    ensures forall c :: c in r ==> 0 <= Decode(c) < 6
    ensures forall a, b :: 0 <= a < b < |r| ==> r[a] < r[b]
  {
    MovesFrom(RowOf(st, st.current), 0)
  }

  // ----- Playing a move -----

  /** `index += 1` followed by the wrap test: 6 goes back to 0 for Player1,
      5 goes back to 0 for Player2. */
  function Advance(p: Player, index: int): (r: int)
    ensures 0 <= index < Cycle(p) ==> r == (index + 1) % Cycle(p)
    ensures index < 0 ==> r == index + 1
  {
    var i := index + 1;
    if p == Player1 && i == 6 then 0
    else if p == Player2 && i == 5 then 0
    else i
  }

  /** The mover's row after sowing and the loop's final `index`. */
  datatype Sown = Sown(row: Row, index: int)

  /** The sowing loop on the mover's row: advance `index`, then add a seed
      at that subscript; None where the subscript raises IndexError. */
  function SowRow(row: Row, p: Player, index: int, seeds: nat): (r: Option<Sown>)
    ensures r.Some? && seeds > 0 ==> -6 <= r.value.index < 6
    decreases seeds
  {
    if seeds == 0 then Some(Sown(row, index))
    else
      var i := Advance(p, index);
      match PyIndex(i)
      case None => None
      case Some(k) => SowRow(row[k := row[k] + 1], p, i, seeds - 1)
  }

  /** Sowing only adds seeds: no pit of the row ends with fewer than it
      started with, whatever the start index. */
  lemma {:induction false} SowRowOnlyAdds(row: Row, p: Player, index: int, seeds: nat)
    ensures var r := SowRow(row, p, index, seeds);
            r.Some? ==> forall j :: 0 <= j < 6 ==> r.value.row[j] >= row[j]
    decreases seeds
  {
    if seeds > 0 {
      var i := Advance(p, index);
      match PyIndex(i)
      case None =>
      case Some(k) =>
        SowRowOnlyAdds(row[k := row[k] + 1], p, i, seeds - 1);
    }
  }

  /** `st` with `p`'s row replaced. */
  function WithRow(st: State, p: Player, row: Row): State
  {
    if p == Player1 then st.(row1 := row) else st.(row2 := row)
  }

  /** The capture test on the final `index`: when it is a pit of the
      current player's row now holding one seed, that seed and the opponent's
      pit at 5 - index go to the current player's store and both pits are
      emptied. */
  function Capture(st: State, index: int): (r: State)
    ensures r.current == st.current
    ensures StoreOf(r, Other(st.current)) == StoreOf(st, Other(st.current))
    ensures StoreOf(r, st.current) >= StoreOf(st, st.current)
    ensures r != st <==> 0 <= index < 6 && RowOf(st, st.current)[index] == 1
  {
    if st.current == Player1 && 0 <= index < 6 && st.row1[index] == 1 then
      st.(store1 := st.store1 + st.row1[index] + st.row2[5 - index],
          row1 := st.row1[index := 0],
          row2 := st.row2[5 - index := 0])
    else if st.current == Player2 && 0 <= index < 6 && st.row2[index] == 1 then
      st.(store2 := st.store2 + st.row2[index] + st.row1[5 - index],
          row2 := st.row2[index := 0],
          row1 := st.row1[5 - index := 0])
    else st
  }

  /** `play_move(move)`: empty the chosen pit, sow its seeds along the own
      row, test for capture and pass the turn. */
  function PlayMove(st: State, move: char): (r: Result)
    ensures r.Ok? ==> r.state.current == Other(st.current)
  {
    var idx := Decode(move);
    match PyIndex(idx)
    case None => IndexError
    case Some(k) =>
      var p := st.current;
      var row := RowOf(st, p);
      match SowRow(row[k := 0], p, idx, row[k])
      case None => IndexError
      case Some(s) =>
        var captured := Capture(WithRow(st, p, s.row), s.index);
        Ok(captured.(current := Other(p)))
  }

  // ----- When a move fails -----

  /** From a start index in [-6, 6) for Player1, or [-6, 5) for Player2,
      every subscript the loop uses is in range. */
  lemma {:induction false} SowRowSucceeds(row: Row, p: Player, index: int, seeds: nat)
    requires -6 <= index < (if p == Player1 then 6 else 5)
    ensures SowRow(row, p, index, seeds).Some?
    decreases seeds
  {
    if seeds > 0 {
      var i := Advance(p, index);
      assert -6 <= i < (if p == Player1 then 6 else 5);
      SowRowSucceeds(row[PyIndex(i).value := row[PyIndex(i).value] + 1], p, i, seeds - 1);
    }
  }

  /** `play_move` raises IndexError exactly when the letter decodes outside
      [-6, 6), or when Player2 plays its last pit ('N') while it holds
      seeds: the walk then steps from index 5 to 6. */
  lemma PlayMoveFails(st: State, move: char)
    ensures PlayMove(st, move).IndexError? <==>
              || Decode(move) < -6 || Decode(move) >= 6
              || (st.current == Player2 && Decode(move) == 5 && st.row2[5] > 0)
  {
    var idx := Decode(move);
    if -6 <= idx < 6 {
      var p := st.current;
      var row := RowOf(st, p);
      var k := PyIndex(idx).value;
      if !(p == Player2 && idx == 5) {
        SowRowSucceeds(row[k := 0], p, idx, row[k]);
      }
    }
  }

  /** Every letter `possible_moves` offers can be played, except Player2's
      'N', which it offers whenever that pit holds seeds. */
  lemma ListedMovesPlayable(st: State, move: char)
    requires move in PossibleMoves(st)
    ensures PlayMove(st, move).IndexError? <==> st.current == Player2 && move == 'N'
  {
    PlayMoveFails(st, move);
    EncodeDecode(move);
    if st.current == Player2 && move == 'N' {
      assert Encode(5) == 'N';
    }
  }

  // ----- Seeds are conserved -----

  /** Sowing adds exactly the sown seeds to the row. */
  lemma {:induction false} SowRowConserves(row: Row, p: Player, index: int, seeds: nat)
    requires SowRow(row, p, index, seeds).Some?
    ensures Sum(SowRow(row, p, index, seeds).value.row) == Sum(row) + seeds
    decreases seeds
  {
    if seeds > 0 {
      var i := Advance(p, index);
      var k := PyIndex(i).value;
      SumUpdate(row, k, row[k] + 1);
      SowRowConserves(row[k := row[k] + 1], p, i, seeds - 1);
    }
  }

  /** Capture moves seeds between pits and a store without changing the total. */
  lemma CaptureConserves(st: State, index: int)
    ensures Total(Capture(st, index)) == Total(st)
  {
    if st.current == Player1 && 0 <= index < 6 && st.row1[index] == 1 {
      SumUpdate(st.row1, index, 0);
      SumUpdate(st.row2, 5 - index, 0);
    } else if st.current == Player2 && 0 <= index < 6 && st.row2[index] == 1 {
      SumUpdate(st.row2, index, 0);
      SumUpdate(st.row1, 5 - index, 0);
    }
  }

  /** A move that does not fail keeps every seed in play. */
  lemma PlayMoveConserves(st: State, move: char)
    requires PlayMove(st, move).Ok?
    ensures Total(PlayMove(st, move).state) == Total(st)
  {
    var idx := Decode(move);
    var k := PyIndex(idx).value;
    var p := st.current;
    var row := RowOf(st, p);
    var s := SowRow(row[k := 0], p, idx, row[k]).value;
    SumUpdate(row, k, 0);
    SowRowConserves(row[k := 0], p, idx, row[k]);
    CaptureConserves(WithRow(st, p, s.row), s.index);
  }

  // ----- What a move changes -----

  /** The opponent's row and both stores change only through a capture: if
      the last seed lands in a pit of the mover's row that now holds one seed,
      that pit and the opponent's pit at 5 - index are emptied and the mover's
      store gains 1 + that opponent pit, even when it was empty; otherwise the
      move only replaces the mover's row by the sown row. The opponent's store
      never changes. */
  lemma PlayMoveEffects(st: State, move: char)
    requires PlayMove(st, move).Ok?
    ensures var idx := Decode(move);
            var p := st.current;
            var row := RowOf(st, p);
            var k := PyIndex(idx).value;
            var s := SowRow(row[k := 0], p, idx, row[k]).value;
            var r := PlayMove(st, move).state;
            var opp := RowOf(st, Other(p));
            && StoreOf(r, Other(p)) == StoreOf(st, Other(p))
            && if 0 <= s.index < 6 && s.row[s.index] == 1 then
                 && RowOf(r, p) == s.row[s.index := 0]
                 && RowOf(r, Other(p)) == opp[5 - s.index := 0]
                 && StoreOf(r, p) == StoreOf(st, p) + 1 + opp[5 - s.index]
               else
                 && RowOf(r, p) == s.row
                 && RowOf(r, Other(p)) == opp
                 && StoreOf(r, p) == StoreOf(st, p)
  {
  }

  // ----- Where the seeds go -----

  /** Length of the mover's sowing cycle: indices 0..5 for Player1, 0..4
      for Player2. */
  function Cycle(p: Player): nat
  {
    if p == Player1 then 6 else 5
  }

  /** Steps from pit `i` forward to pit `j` on a cycle of `m` pits (a whole
      lap when `j == i`). */
  function Dist(m: nat, i: nat, j: nat): nat
    requires i < m
  {
    if j > i then j - i else j + m - i
  }

  /** Seeds that pit `j` receives when `n` seeds are sown from pit `i`: the
      first arrives after `Dist` seeds, then one every lap; pits outside the
      cycle receive none. */
  function Hits(m: nat, i: nat, n: nat, j: nat): nat
    requires m > 0 && i < m
  {
    if j < m then (n + m - Dist(m, i, j)) / m else 0
  }

  /** Sowing `n` seeds from index `i` of the cycle ends `n` places further
      round it, and each pit `j` gains `Hits(Cycle(p), i, n, j)` seeds. */
  lemma SowRowClosedForm(row: Row, p: Player, i: nat, n: nat)
    requires i < Cycle(p)
    ensures var m := Cycle(p);
            var r := SowRow(row, p, i, n);
            && r.Some?
            && r.value.index == (i + n) % m
            && forall j :: 0 <= j < 6 ==> r.value.row[j] == row[j] + Hits(m, i, n, j)
  {
    SowRowEndIndex(row, p, i, n);
    SowRowGains(row, p, i, n);
  }

  /** The walk ends `n` places further round the cycle. */
  lemma {:induction false} SowRowEndIndex(row: Row, p: Player, i: nat, n: nat)
    requires i < Cycle(p)
    ensures SowRow(row, p, i, n).Some?
    ensures SowRow(row, p, i, n).value.index == (i + n) % Cycle(p)
    decreases n
  {
    if n > 0 {
      var m := Cycle(p);
      var next := Advance(p, i);
      var row' := row[next := row[next] + 1];
      assert SowRow(row, p, i, n) == SowRow(row', p, next, n - 1);
      assert next == (i + 1) % m;
      SowRowEndIndex(row', p, next, n - 1);
      ModStep(m, i, n);
    }
  }

  /** Each pit `j` gains one seed per pass of the walk over it. */
  lemma {:induction false} SowRowGains(row: Row, p: Player, i: nat, n: nat)
    requires i < Cycle(p)
    ensures SowRow(row, p, i, n).Some?
    ensures forall j :: 0 <= j < 6 ==> SowRow(row, p, i, n).value.row[j] == row[j] + Hits(Cycle(p), i, n, j)
    decreases n
  {
    if n > 0 {
      var m := Cycle(p);
      var next := Advance(p, i);
      var row' := row[next := row[next] + 1];
      var r := SowRow(row', p, next, n - 1);
      assert SowRow(row, p, i, n) == r;
      SowRowGains(row', p, next, n - 1);
      forall j | 0 <= j < 6
        ensures r.value.row[j] == row[j] + Hits(m, i, n, j)
      {
        HitsStep(m, i, n, j);
      }
    }
  }

  lemma ModStep(m: nat, i: nat, n: nat)
    requires (m == 5 || m == 6) && i < m && n > 0
    ensures ((i + 1) % m + (n - 1)) % m == (i + n) % m
  {
    if m == 5 {
    } else {
    }
  }

  /** The first seed goes to the next pit of the cycle; the rest are sown
      from there. */
  lemma HitsStep(m: nat, i: nat, n: nat, j: nat)
    requires (m == 5 || m == 6) && i < m && n > 0
    ensures (if j == (i + 1) % m then 1 else 0) + Hits(m, (i + 1) % m, n - 1, j) == Hits(m, i, n, j)
  {
    var next := (i + 1) % m;
    if i + 1 == m {
      assert next == 0;
    } else {
      assert next == i + 1;
    }
    if j < m {
      if j == next {
        assert Dist(m, i, j) == 1 && Dist(m, next, j) == m;
        DivShift(n - 1, m);
      } else {
        assert Dist(m, next, j) == Dist(m, i, j) - 1;
      }
    }
  }

  lemma DivShift(a: nat, m: nat)
    requires m == 5 || m == 6
    ensures (a + m) / m == a / m + 1
  {
    if m == 5 {
    } else {
    }
  }

  /** From a start 0..4, the indices `possible_moves` can list, Player2's
      own sowing never puts a seed into its last pit. */
  lemma Player2LastPitSkipped(row: Row, i: nat, n: nat)
    requires i < 5
    ensures SowRow(row, Player2, i, n).Some?
    ensures SowRow(row, Player2, i, n).value.row[5] == row[5]
  {
    SowRowClosedForm(row, Player2, i, n);
  }

  /** Player2 playing 'G' (subscript -2) holding one seed is accepted: the
      walk advances to subscript -1, which names the last pit, and that pit
      gains the seed. */
  lemma Player2ReachesLastPitFromNegativeStart(st: State)
    requires st.current == Player2 && st.row2[4] == 1
    ensures PlayMove(st, 'G').Ok?
    ensures PlayMove(st, 'G').state.row2[5] == st.row2[5] + 1
  {
    assert Decode('G') == -2;
    var row := st.row2[4 := 0];
    assert SowRow(row, Player2, -2, 1) == Some(Sown(row[5 := row[5] + 1], -1));
  }

  // ----- End of game -----

  predicate RowEmpty(r: Row)
  {
    forall i :: 0 <= i < 6 ==> r[i] == 0
  }

  /** `game_over`: either row is all zeros. */
  function GameOver(st: State): (over: bool)
    ensures over <==> Sum(st.row1) == 0 || Sum(st.row2) == 0
  {
    SumZero(st.row1);
    SumZero(st.row2);
    RowEmpty(st.row1) || RowEmpty(st.row2)
  }

  /** `winner`: decided by the two stores alone. */
  function GameWinner(st: State): (w: Winner)
    ensures w == Won(Player1) <==> st.store1 > st.store2
    ensures w == Won(Player2) <==> st.store1 < st.store2
    ensures w == Tie <==> st.store1 == st.store2
  {
    if st.store1 > st.store2 then Won(Player1)
    else if st.store1 < st.store2 then Won(Player2)
    else Tie
  }

  /** Only the stores matter: states that agree on them have the same
      winner, whatever their rows and player to move. */
  lemma WinnerIgnoresRows(st: State, st': State)
    requires st.store1 == st'.store1 && st.store2 == st'.store2
    ensures GameWinner(st) == GameWinner(st')
  {
  }
}
