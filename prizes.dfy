/** The prize draw: winners picked at random among the best players of the leaderboard. */
module Prizes {
  import opened Numbers
  import opened Models
  import opened Leaderboard

  /** How many winners a draw of `numberOfWinners` among `candidates` players yields. */
  function WinnerCount(numberOfWinners: int, candidates: nat): (count: nat)
    ensures count <= candidates && (count <= numberOfWinners || count == 0)
    ensures count == candidates || count == numberOfWinners || (count == 0 && numberOfWinners < 0)
  {
    if numberOfWinners <= 0 then 0 else if numberOfWinners < candidates then numberOfWinners else candidates
  }

  /** `List.RemoveAt(index)`: the list without the element at `index`. */
  function RemoveAt(s: seq<Player>, index: nat): (r: seq<Player>)
    requires index < |s|
    ensures |r| == |s| - 1
    ensures multiset(r) + multiset{s[index]} == multiset(s)
  {
    assert s == s[..index] + [s[index]] + s[index + 1..];
    s[..index] + s[index + 1..]
  }

  /**
   * Asking for 2^30 winners or more doubles past the 32-bit range to a
   * negative count, so there are no candidates and nobody wins.
   */
  lemma HugeDrawHasNoWinners(players: seq<Player>, numberOfWinners: Int32)
    requires numberOfWinners >= 0x4000_0000
    ensures Wrap32(numberOfWinners * 2) < 0
    ensures WinnerCount(numberOfWinners, |TopPlayers(players, Wrap32(numberOfWinners * 2))|) == 0
  {
    assert Wrap32(numberOfWinners * 2) == numberOfWinners * 2 - 0x1_0000_0000;
  }

  class PrizeService {
    const playerService: PlayerService

    constructor (playerService: PlayerService)
      ensures this.playerService == playerService
    {
      this.playerService := playerService;
    }

    /**
     * `DrawWinners`: the candidates are the top `2 * numberOfWinners` players
     * (the doubling wraps around like C#'s 32-bit multiplication); winners are
     * drawn one at a time at a position `Random.Next` picks, and a drawn
     * player leaves the candidates, so no one is drawn twice. The draw stops
     * at `numberOfWinners` winners, 3 unless the caller says otherwise, or
     * when the candidates run out.
     */
    method DrawWinners(numberOfWinners: Int32 := 3) returns (winners: seq<Player>)
      ensures var top := TopPlayers(playerService.players, Wrap32(numberOfWinners * 2));
        && |winners| == WinnerCount(numberOfWinners, |top|)
        && multiset(winners) <= multiset(top)
    {
      var topPlayers := playerService.GetTopPlayers(Wrap32(numberOfWinners * 2));
      ghost var top := topPlayers;
      winners := [];
      while |winners| < numberOfWinners && |topPlayers| > 0
        invariant multiset(winners) + multiset(topPlayers) == multiset(top)
        invariant |winners| + |topPlayers| == |top|
        invariant |winners| <= WinnerCount(numberOfWinners, |top|)
        decreases |topPlayers|
      {
        var index :| 0 <= index < |topPlayers|;
        winners := winners + [topPlayers[index]];
        topPlayers := RemoveAt(topPlayers, index);
      }
    }
  }
}
