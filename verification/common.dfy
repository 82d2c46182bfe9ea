/** Vocabulary shared by the three Kalah engines: the two players, an optional
    value, and the seed total of a row or board. */
module Common {

  datatype Option<T> = None | Some(value: T)

  /** The two sides. In every script Player1 is the automated player, whose
      store the evaluation counts positively. */
  datatype Player = Player1 | Player2

  /** The player who moves after `p` when no extra turn is granted. */
  function Other(p: Player): (q: Player)
    ensures q != p
  {
    if p == Player1 then Player2 else Player1
  }

  lemma OtherInvolution(p: Player)
    ensures Other(Other(p)) == p
  {
  }

  /** Total number of seeds held by a sequence of wells. */
  function Sum(s: seq<nat>): nat
  {
    if |s| == 0 then 0 else s[0] + Sum(s[1..])
  }

  /** Overwriting one well changes the total by exactly the difference. */
  lemma {:induction false} SumUpdate(s: seq<nat>, i: nat, v: nat)
    requires i < |s|
    ensures Sum(s[i := v]) == Sum(s) - s[i] + v
  {
    if i == 0 {
      assert s[i := v][1..] == s[1..];
    } else {
      SumUpdate(s[1..], i - 1, v);
      assert s[i := v][1..] == s[1..][i - 1 := v];
    }
  }

  /** Emptying well `from` into well `to` keeps the total. */
  lemma SumMove(s: seq<nat>, from: nat, to: nat)
    requires from < |s| && to < |s| && from != to
    ensures Sum(s[to := s[to] + s[from]][from := 0]) == Sum(s)
  {
    SumUpdate(s, to, s[to] + s[from]);
    SumUpdate(s[to := s[to] + s[from]], from, 0);
  }

  /** A sequence of wells is empty of seeds exactly when its total is zero. */
  lemma {:induction false} SumZero(s: seq<nat>)
    ensures Sum(s) == 0 <==> forall i :: 0 <= i < |s| ==> s[i] == 0
  {
    if |s| > 0 {
      SumZero(s[1..]);
      if Sum(s) == 0 {
        forall i | 0 <= i < |s| ensures s[i] == 0 {
          if i > 0 { assert s[i] == s[1..][i - 1]; }
        }
      }
      if forall i :: 0 <= i < |s| ==> s[i] == 0 {
        forall i | 0 <= i < |s[1..]| ensures s[1..][i] == 0 {
          assert s[1..][i] == s[i + 1];
        }
      }
    }
  }

  /** The outcome a game reports: a winner or a tie. */
  datatype Winner = Won(p: Player) | Tie

  /** The outcome together with the score reported alongside it. */
  datatype Final = Final(winner: Winner, score: nat)
}
