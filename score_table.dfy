/**
 * The in-session score table of `GameData_Manager`: one integer score per
 * player type, kept in a dictionary that the manager updates in place.
 */
module ScoreTable {
  import opened Enums
  import opened Seqs

  /** Every player type, in declaration order; the dictionary's keys are drawn from these. */
  const AllPlayerTypes: seq<PlayerType> := [Player, Edward, Bruce]

  /** A dictionary lookup that falls back to 0 for a missing key. */
  function Score(scores: map<PlayerType, int>, t: PlayerType): int {
    if t in scores then scores[t] else 0
  }

  /** The sum of the scores of the player types listed in `ts`, missing ones counting 0. */
  function SumOf(scores: map<PlayerType, int>, ts: seq<PlayerType>): int {
    if |ts| == 0 then 0 else SumOf(scores, ts[..|ts| - 1]) + Score(scores, ts[|ts| - 1])
  }

  /** The sum of every stored score. */
  function Total(scores: map<PlayerType, int>): int {
    SumOf(scores, AllPlayerTypes)
  }

  /** The dictionary after `amount` is added to `t`'s entry, created at 0 when missing. */
  function AddScoreSpec(scores: map<PlayerType, int>, t: PlayerType, amount: int): map<PlayerType, int> {
    scores[t := Score(scores, t) + amount]
  }

  class GameDataManager {
    var playerScores: map<PlayerType, int>

    /** A new manager holds an empty dictionary until it is initialised. */
    constructor()
      ensures playerScores == map[]
    {
      playerScores := map[];
    }

    /** Clears the dictionary and stores a score of 0 for each of the three player types. */
    method InitializePlayerScores()
      modifies this
      ensures playerScores.Keys == {Player, Edward, Bruce}
      ensures forall t :: t in playerScores ==> playerScores[t] == 0
      ensures Total(playerScores) == 0
    {
      playerScores := map[];
      playerScores := playerScores[Player := 0];
      playerScores := playerScores[Edward := 0];
      playerScores := playerScores[Bruce := 0];
      SumOfZeros(playerScores, AllPlayerTypes);
    }

    /** The score of one player type, 0 when it has no entry. */
    function GetPlayerScore(t: PlayerType): (r: int)
      reads this
      ensures t in playerScores ==> r == playerScores[t]
      ensures t !in playerScores ==> r == 0
    {
      Score(playerScores, t)
    }

    /** The main player's score. */
    function CurrentScore(): (r: int)
      reads this
      ensures r == GetPlayerScore(Player)
    {
      if Player in playerScores then playerScores[Player] else 0
    }

    /** Accumulates every stored score in a loop over the dictionary's entries. */
    method TotalScore() returns (total: int)
      ensures total == Total(playerScores)
    {
      total := 0;
      var i := 0;
      while i < |AllPlayerTypes|
        invariant 0 <= i <= |AllPlayerTypes|
        invariant total == SumOf(playerScores, AllPlayerTypes[..i])
      {
        var t := AllPlayerTypes[i];
        if t in playerScores {
          total := total + playerScores[t];
        }
        assert AllPlayerTypes[..i + 1][..i] == AllPlayerTypes[..i];
        i := i + 1;
      }
      assert AllPlayerTypes[..i] == AllPlayerTypes;
    }

    /**
     * Adds `amount` to `t`'s score, creating the entry at 0 first when it is
     * missing; returns the new score and the new total, the two values the
     * manager announces afterwards.
     */
    method AddScore(t: PlayerType, amount: int) returns (newScore: int, newTotal: int)
      modifies this
      ensures playerScores == AddScoreSpec(old(playerScores), t, amount)
      ensures newScore == old(GetPlayerScore(t)) + amount
      ensures newTotal == old(Total(playerScores)) + amount
    {
      if t !in playerScores {
        playerScores := playerScores[t := 0];
      }
      playerScores := playerScores[t := playerScores[t] + amount];
      newScore := playerScores[t];
      AddScoreRaisesTotal(old(playerScores), t, amount);
      newTotal := TotalScore();
    }

    /** The single-argument overload credits the main player. */
    method AddPlayerScore(amount: int) returns (newScore: int, newTotal: int)
      modifies this
      ensures playerScores == AddScoreSpec(old(playerScores), Player, amount)
      ensures newScore == old(GetPlayerScore(Player)) + amount
      ensures newTotal == old(Total(playerScores)) + amount
    {
      newScore, newTotal := AddScore(Player, amount);
    }
  }

  /** Adding to one entry moves a partial sum over distinct player types by the amount, when that type is listed. */
  lemma {:induction false} SumOfAddScore(scores: map<PlayerType, int>, ts: seq<PlayerType>, t: PlayerType, amount: int)
    requires Distinct(ts)
    ensures SumOf(AddScoreSpec(scores, t, amount), ts) == SumOf(scores, ts) + (if t in ts then amount else 0)
  {
    if |ts| > 0 {
      var init := ts[..|ts| - 1];
      assert ts == init + [ts[|ts| - 1]];
      SumOfAddScore(scores, init, t, amount);
      assert ts[|ts| - 1] == t ==> t !in init;
    }
  }

  /** A sum over entries that are all 0 is 0. */
  lemma {:induction false} SumOfZeros(scores: map<PlayerType, int>, ts: seq<PlayerType>)
    requires forall t :: t in scores ==> scores[t] == 0
    ensures SumOf(scores, ts) == 0
  {
    if |ts| > 0 {
      SumOfZeros(scores, ts[..|ts| - 1]);
    }
  }

  /** Each player type is listed once, so `AddScore(t, a)` raises the total by exactly `a`. */
  lemma AddScoreRaisesTotal(scores: map<PlayerType, int>, t: PlayerType, amount: int)
    ensures Total(AddScoreSpec(scores, t, amount)) == Total(scores) + amount
    ensures forall u :: u != t ==> Score(AddScoreSpec(scores, t, amount), u) == Score(scores, u)
  {
    SumOfAddScore(scores, AllPlayerTypes, t, amount);
    assert t in AllPlayerTypes by {
      assert t == Player || t == Edward || t == Bruce;
    }
  }
}
