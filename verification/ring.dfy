/** Geometry of the 14-slot Kalah ring shared by the first two scripts.

    Slots in ring order: pits A..F are 0..5, Player1's store is 6, pits G..L are
    7..12, Player2's store is 13, and sowing moves from slot i to (i + 1) % 14.
    The opposite of pit i is 12 - i (A with L, ..., F with G). */
module Ring {
  import opened Common

  type Slot = s: nat | s < 14

  type Board = b: seq<nat> | |b| == 14 witness [0, 0, 0, 0, 0, 0, 0, 0, 0, 0, 0, 0, 0, 0]

  /** Ring successor (`next_pit` / `next_pits`). */
  function Next(s: Slot): Slot
  {
    if s == 13 then 0 else s + 1
  }

  function StoreOf(p: Player): Slot
  {
    if p == Player1 then 6 else 13
  }

  predicate IsStore(s: Slot)
  {
    s == 6 || s == 13
  }

  /** `s` is one of the six pits owned by `p`. */
  predicate IsPitOf(p: Player, s: Slot)
  {
    if p == Player1 then s < 6 else 7 <= s < 13
  }

  /** The pits of `p` in board order (A..F or G..L). */
  function Pits(p: Player): (ps: seq<Slot>)
    ensures |ps| == 6
    ensures forall s: Slot :: s in ps <==> IsPitOf(p, s)
    ensures Increasing(ps)
  {
    if p == Player1 then [0, 1, 2, 3, 4, 5] else [7, 8, 9, 10, 11, 12]
  }

  /** The pit facing `s` across the board; only pits have one. */
  function Opposite(s: Slot): (o: Slot)
    requires !IsStore(s)
    ensures !IsStore(o)
    ensures IsPitOf(Player1, s) <==> IsPitOf(Player2, o)
    ensures forall p: Player, i :: 0 <= i < 6 && Pits(p)[i] == s ==> o == Pits(Other(p))[5 - i]
  {
    12 - s
  }

  /** Each pit faces exactly one pit of the other side, and facing is mutual. */
  lemma OppositeInvolution(s: Slot)
    requires !IsStore(s)
    ensures Opposite(Opposite(s)) == s
    ensures forall p :: IsPitOf(p, s) ==> IsPitOf(Other(p), Opposite(s))
    ensures Opposite(s) != s
  {
  }

  /** The ring visits A..F, store 1, G..L, store 2 and returns to A. */
  lemma RingOrder()
    ensures forall i :: 0 <= i < 5 ==> Next(Pits(Player1)[i]) == Pits(Player1)[i + 1]
    ensures forall i :: 0 <= i < 5 ==> Next(Pits(Player2)[i]) == Pits(Player2)[i + 1]
    ensures Next(Pits(Player1)[5]) == StoreOf(Player1)
    ensures Next(StoreOf(Player1)) == Pits(Player2)[0]
    ensures Next(Pits(Player2)[5]) == StoreOf(Player2)
    ensures Next(StoreOf(Player2)) == Pits(Player1)[0]
  {
  }

  /** Both constructors: 4 seeds in each of the 12 pits, empty stores. */
  function Init(): (b: Board)
    ensures forall s: Slot :: b[s] == if IsStore(s) then 0 else 4
  {
    [4, 4, 4, 4, 4, 4, 0, 4, 4, 4, 4, 4, 4, 0]
  }

  /** A board with 4 seeds in every pit and empty stores, such as `Init()`,
      holds 48 seeds. */
  lemma FourPerPit(b: Board)
    requires forall s: Slot :: b[s] == if IsStore(s) then 0 else 4
    ensures Sum(b) == 48
  {
    SumBySide(b);
    PitsTotalSix(b, Pits(Player1));
    PitsTotalSix(b, Pits(Player2));
  }

  /** The end-of-game test's answer and the board it leaves. */
  datatype Ended = Ended(over: bool, board: Board)

  /** A side is empty when every one of its six pits holds no seed. */
  predicate SideEmpty(b: Board, p: Player)
  {
    forall s: Slot :: IsPitOf(p, s) ==> b[s] == 0
  }

  predicate Increasing(ps: seq<Slot>)
  {
    forall i, j :: 0 <= i < j < |ps| ==> ps[i] < ps[j]
  }

  predicate Distinct(ps: seq<Slot>)
  {
    forall i, j :: 0 <= i < j < |ps| ==> ps[i] != ps[j]
  }

  /** Seeds held by the listed slots. */
  function PitsTotal(b: Board, ps: seq<Slot>): nat
  {
    if |ps| == 0 then 0 else b[ps[0]] + PitsTotal(b, ps[1..])
  }

  /** PitsTotal only looks at the listed slots. */
  lemma {:induction false} PitsTotalFrame(b: Board, c: Board, ps: seq<Slot>)
    requires forall k :: 0 <= k < |ps| ==> b[ps[k]] == c[ps[k]]
    ensures PitsTotal(b, ps) == PitsTotal(c, ps)
  {
    if |ps| > 0 {
      PitsTotalFrame(b, c, ps[1..]);
    }
  }

  /** A side's total only looks at that side's pits. */
  lemma SideTotalFrame(b: Board, c: Board, p: Player)
    requires forall s: Slot :: IsPitOf(p, s) ==> b[s] == c[s]
    ensures PitsTotal(b, Pits(p)) == PitsTotal(c, Pits(p))
  {
    PitsTotalSix(b, Pits(p));
    PitsTotalSix(c, Pits(p));
  }

  /** A side's pits sum to zero exactly when the side is empty. */
  lemma {:induction false} PitsTotalZero(b: Board, ps: seq<Slot>)
    ensures PitsTotal(b, ps) == 0 <==> forall k :: 0 <= k < |ps| ==> b[ps[k]] == 0
  {
    if |ps| > 0 {
      PitsTotalZero(b, ps[1..]);
      assert forall k :: 1 <= k < |ps| ==> ps[k] == ps[1..][k - 1];
    }
  }

  /** A side's pits sum to zero exactly when the side is empty. */
  lemma SideTotalZero(b: Board, p: Player)
    ensures PitsTotal(b, Pits(p)) == 0 <==> SideEmpty(b, p)
  {
    var ps := Pits(p);
    PitsTotalZero(b, ps);
    if PitsTotal(b, ps) == 0 {
      forall s: Slot | IsPitOf(p, s) ensures b[s] == 0 {
        assert s in ps;
      }
    }
  }

  lemma PitsTotalSix(b: Board, ps: seq<Slot>)
    requires |ps| == 6
    ensures PitsTotal(b, ps) == b[ps[0]] + b[ps[1]] + b[ps[2]] + b[ps[3]] + b[ps[4]] + b[ps[5]]
  {
    assert PitsTotal(b, ps[6..]) == 0;
    assert ps[5..][1..] == ps[6..];
    assert PitsTotal(b, ps[5..]) == b[ps[5]] + PitsTotal(b, ps[6..]);
    assert ps[4..][1..] == ps[5..];
    assert PitsTotal(b, ps[4..]) == b[ps[4]] + PitsTotal(b, ps[5..]);
    assert ps[3..][1..] == ps[4..];
    assert PitsTotal(b, ps[3..]) == b[ps[3]] + PitsTotal(b, ps[4..]);
    assert ps[2..][1..] == ps[3..];
    assert PitsTotal(b, ps[2..]) == b[ps[2]] + PitsTotal(b, ps[3..]);
    assert ps[1..][1..] == ps[2..];
    assert PitsTotal(b, ps[1..]) == b[ps[1]] + PitsTotal(b, ps[2..]);
    assert ps[0..][1..] == ps[1..];
    assert PitsTotal(b, ps[0..]) == b[ps[0]] + PitsTotal(b, ps[1..]);
    assert ps[0..] == ps;
  }

  /** The board total is the two sides' pits plus the two stores. */
  lemma SumBySide(b: Board)
    ensures Sum(b) == PitsTotal(b, Pits(Player1)) + b[StoreOf(Player1)] + PitsTotal(b, Pits(Player2)) + b[StoreOf(Player2)]
  {
    assert b[13..][1..] == b[14..];
    assert Sum(b[13..]) == b[13] + Sum(b[14..]);
    assert b[12..][1..] == b[13..];
    assert Sum(b[12..]) == b[12] + Sum(b[13..]);
    assert b[11..][1..] == b[12..];
    assert Sum(b[11..]) == b[11] + Sum(b[12..]);
    assert b[10..][1..] == b[11..];
    assert Sum(b[10..]) == b[10] + Sum(b[11..]);
    assert b[9..][1..] == b[10..];
    assert Sum(b[9..]) == b[9] + Sum(b[10..]);
    assert b[8..][1..] == b[9..];
    assert Sum(b[8..]) == b[8] + Sum(b[9..]);
    assert b[7..][1..] == b[8..];
    assert Sum(b[7..]) == b[7] + Sum(b[8..]);
    assert b[6..][1..] == b[7..];
    assert Sum(b[6..]) == b[6] + Sum(b[7..]);
    assert b[5..][1..] == b[6..];
    assert Sum(b[5..]) == b[5] + Sum(b[6..]);
    assert b[4..][1..] == b[5..];
    assert Sum(b[4..]) == b[4] + Sum(b[5..]);
    assert b[3..][1..] == b[4..];
    assert Sum(b[3..]) == b[3] + Sum(b[4..]);
    assert b[2..][1..] == b[3..];
    assert Sum(b[2..]) == b[2] + Sum(b[3..]);
    assert b[1..][1..] == b[2..];
    assert Sum(b[1..]) == b[1] + Sum(b[2..]);
    assert b[0..][1..] == b[1..];
    assert Sum(b[0..]) == b[0] + Sum(b[1..]);
    assert b[0..] == b;
    PitsTotalSix(b, Pits(Player1));
    PitsTotalSix(b, Pits(Player2));
  }

  /** On a board whose twelve pits are empty, the stores hold every seed and
      neither side has a seed left. */
  lemma AllPitsEmpty(r: Board)
    requires forall s: Slot :: !IsStore(s) ==> r[s] == 0
    ensures SideEmpty(r, Player1) && SideEmpty(r, Player2)
    ensures Sum(r) == r[StoreOf(Player1)] + r[StoreOf(Player2)]
  {
    SumBySide(r);
    SideTotalZero(r, Player1);
    SideTotalZero(r, Player2);
  }

  /** The sweep loop `for pit in pits: store += board[pit]; board[pit] = 0`. */
  function Collect(b: Board, ps: seq<Slot>, store: Slot): (r: Board)
    requires store !in ps
    requires Distinct(ps)
    decreases |ps|
    ensures r[store] == b[store] + PitsTotal(b, ps)
    ensures forall s: Slot :: s in ps ==> r[s] == 0
    ensures forall s: Slot :: s != store && s !in ps ==> r[s] == b[s]
  {
    if |ps| == 0 then b
    else
      var pit := ps[0];
      var b1 := b[store := b[store] + b[pit]];
      var b2 := b1[pit := 0];
      PitsTotalFrame(b, b2, ps[1..]);
      Collect(b2, ps[1..], store)
  }

  /** The sweep moves seeds into the store without creating or losing any. */
  lemma {:induction false} CollectConserves(b: Board, ps: seq<Slot>, store: Slot)
    requires store !in ps
    requires Distinct(ps)
    ensures Sum(Collect(b, ps, store)) == Sum(b)
    decreases |ps|
  {
    if |ps| > 0 {
      var pit := ps[0];
      var b1 := b[store := b[store] + b[pit]];
      var b2 := b1[pit := 0];
      assert pit != store by { assert pit in ps; }
      assert Collect(b, ps, store) == Collect(b2, ps[1..], store);
      SumMove(b, pit, store);
      CollectConserves(b2, ps[1..], store);
    }
  }

  /** Sweeping pits that are already empty changes nothing. */
  lemma {:induction false} CollectEmpty(b: Board, ps: seq<Slot>, store: Slot)
    requires store !in ps
    requires Distinct(ps)
    requires forall s: Slot :: s in ps ==> b[s] == 0
    ensures Collect(b, ps, store) == b
    decreases |ps|
  {
    if |ps| > 0 {
      assert b[store := b[store] + b[ps[0]]][ps[0] := 0] == b;
      CollectEmpty(b, ps[1..], store);
    }
  }

  // ----- Reference description of sowing -----

  /** The first slot a sowing can seed when its walk stands at `from`. */
  function First(from: Slot, skip: Slot): Slot
  {
    if from == skip then Next(from) else from
  }

  /** The next slot after `s` that is not the passed-over store. */
  function Step(s: Slot, skip: Slot): Slot
  {
    First(Next(s), skip)
  }

  /** The slots that receive the `n` seeds of a sowing whose walk stands at
      `from` and passes over `skip`, in the order they receive them. */
  function Drops(from: Slot, n: nat, skip: Slot): (d: seq<Slot>)
    ensures |d| == n
    ensures skip !in d
    decreases n, if from == skip then 1 else 0
  {
    if n == 0 then []
    else if from == skip then Drops(Next(from), n, skip)
    else [from] + Drops(Next(from), n - 1, skip)
  }

  /** The path starts at the first slot that is not the passed-over store and
      every later slot is the next such slot after its predecessor. */
  lemma {:induction false} DropsWalk(from: Slot, n: nat, skip: Slot)
    ensures var d := Drops(from, n, skip);
            && (n > 0 ==> d[0] == First(from, skip))
            && (forall k :: 0 <= k < n - 1 ==> d[k + 1] == Step(d[k], skip))
    decreases n, if from == skip then 1 else 0
  {
    if n == 0 {
    } else if from == skip {
      DropsWalk(Next(from), n, skip);
    } else {
      var d1 := Drops(Next(from), n - 1, skip);
      DropsWalk(Next(from), n - 1, skip);
      var d := Drops(from, n, skip);
      assert d == [from] + d1;
      forall k | 0 <= k < n - 1 ensures d[k + 1] == Step(d[k], skip) {
        if k > 0 {
          assert d[k + 1] == d1[k] && d[k] == d1[k - 1];
        } else {
          assert d[1] == d1[0];
        }
      }
    }
  }

  /** Position of `s` on the 13-slot cycle that omits `skip`; slot after `skip` is 0. */
  function Rank(skip: Slot, s: Slot): nat
  {
    if skip < s then s - skip - 1 else s + 13 - skip
  }

  function Unrank(skip: Slot, r: nat): Slot
    requires r < 13
  {
    if skip + 1 + r < 14 then skip + 1 + r else skip + 1 + r - 14
  }

  lemma RankStep(skip: Slot, s: Slot)
    requires s != skip
    ensures Rank(skip, s) < 13
    ensures Unrank(skip, Rank(skip, s)) == s
    ensures Rank(skip, Step(s, skip)) == (Rank(skip, s) + 1) % 13
  {
  }

  /** Closed form of the sowing path: the k-th seed lands k places further
      along the cycle that omits the passed-over store. */
  lemma {:induction false} DropsClosedForm(from: Slot, n: nat, skip: Slot)
    ensures forall k :: 0 <= k < n ==>
      Drops(from, n, skip)[k] == Unrank(skip, (Rank(skip, First(from, skip)) + k) % 13)
  {
    var d := Drops(from, n, skip);
    var r0 := Rank(skip, First(from, skip));
    DropsWalk(from, n, skip);
    var k := 0;
    while k < n
      invariant 0 <= k <= n
      invariant forall j :: 0 <= j < k ==> d[j] == Unrank(skip, (r0 + j) % 13)
      invariant k < n ==> Rank(skip, d[k]) == (r0 + k) % 13 && d[k] != skip
    {
      RankAdvance(skip, d[k], r0 + k);
      if k + 1 < n {
        assert d[k + 1] == Step(d[k], skip);
      }
      k := k + 1;
    }
  }

  /** One step of the walk advances the rank by one, modulo 13. */
  lemma RankAdvance(skip: Slot, s: Slot, i: nat)
    requires s != skip && Rank(skip, s) == i % 13
    ensures s == Unrank(skip, i % 13)
    ensures Step(s, skip) != skip
    ensures Rank(skip, Step(s, skip)) == (i + 1) % 13
  {
    RankStep(skip, s);
    assert (i % 13 + 1) % 13 == (i + 1) % 13;
  }

  /** The listed slots that hold seeds, in list order. */
  function Movable(b: Board, ps: seq<Slot>): (r: seq<Slot>)
    ensures forall s :: s in r <==> s in ps && b[s] > 0
    ensures Increasing(ps) ==> Increasing(r)
  {
    if |ps| == 0 then []
    else
      var rest := Movable(b, ps[1..]);
      assert Increasing(ps) ==> forall j :: 0 <= j < |rest| ==> ps[0] < rest[j] by {
        if Increasing(ps) {
          forall j | 0 <= j < |rest| ensures ps[0] < rest[j] {
            assert rest[j] in ps[1..];
            var k :| 0 <= k < |ps[1..]| && ps[1..][k] == rest[j];
            assert ps[k + 1] == rest[j];
          }
        }
      }
      if b[ps[0]] > 0 then [ps[0]] + rest else rest
  }

  /** One seed dropped into `cur` ahead of the drops `d1`. */
  lemma OneMoreDrop(b: Board, cur: Slot, r: Board, d1: seq<Slot>)
    requires forall s: Slot :: r[s] == b[cur := b[cur] + 1][s] + multiset(d1)[s]
    ensures forall s: Slot :: r[s] == b[s] + multiset([cur] + d1)[s]
  {
    forall s: Slot
      ensures r[s] == b[s] + multiset([cur] + d1)[s]
    {
      assert multiset([cur] + d1) == multiset([cur]) + multiset(d1);
    }
  }

  // ----- Moves and scoring, written alike in both scripts -----

  /** `possibleMoves` / `possible_moves`: exactly the mover's non-empty pits,
      in A..F or G..L order. */
  function PossibleMoves(b: Board, p: Player): (r: seq<Slot>)
    ensures forall s: Slot :: s in r <==> IsPitOf(p, s) && b[s] > 0
    ensures Increasing(r)
  {
    Movable(b, Pits(p))
  }

  /** `findWinner` / `find_winner`: the player with the strictly larger store
      and that store; on equal stores a tie reported with Player1's store. */
  function FindWinner(b: Board): (r: Final)
    ensures r.winner == Won(Player1) <==> b[StoreOf(Player1)] > b[StoreOf(Player2)]
    ensures r.winner == Won(Player2) <==> b[StoreOf(Player2)] > b[StoreOf(Player1)]
    ensures r.score >= b[StoreOf(Player1)] && r.score >= b[StoreOf(Player2)]
    ensures r.score == b[StoreOf(Player1)] || r.score == b[StoreOf(Player2)]
  {
    var score1 := b[StoreOf(Player1)];
    var score2 := b[StoreOf(Player2)];
    if score1 > score2 then Final(Won(Player1), score1)
    else if score2 > score1 then Final(Won(Player2), score2)
    else Final(Tie, score1)
  }

  /** `evaluate`: Player1's store minus Player2's store. */
  function Evaluate(b: Board): int
  {
    b[StoreOf(Player1)] as int - b[StoreOf(Player2)] as int
  }

  /** The evaluation's sign names the winner. */
  lemma EvaluateNamesWinner(b: Board)
    ensures FindWinner(b).winner == Won(Player1) <==> Evaluate(b) > 0
    ensures FindWinner(b).winner == Won(Player2) <==> Evaluate(b) < 0
    ensures FindWinner(b).winner == Tie <==> Evaluate(b) == 0
  {
  }
}
