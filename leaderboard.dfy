/**
 * The all-time leaderboard: a list of players kept by name, with a score
 * each, written to a file after every change.
 */
module Leaderboard {
  import opened Wrappers
  import opened Numbers
  import opened Text
  import opened Models
  import opened Ordering

  /** The position of the first player whose name equals `name` ignoring case, as `FirstOrDefault` finds it. */
  function FirstNamed(players: seq<Player>, name: string): (r: Option<nat>)
    ensures r.Some? ==> r.value < |players| && EqualsIgnoreCase(players[r.value].name, name)
    ensures r.Some? ==> forall j :: 0 <= j < r.value ==> !EqualsIgnoreCase(players[j].name, name)
    ensures r.None? ==> forall j :: 0 <= j < |players| ==> !EqualsIgnoreCase(players[j].name, name)
  {
    if players == [] then None
    else if EqualsIgnoreCase(players[0].name, name) then Some(0)
    else match FirstNamed(players[1..], name)
      case None => None
      case Some(i) => Some(i + 1)
  }

  /** `new PlayerModel { Name = name, Score = score }`: every other field keeps its default. */
  function NewPlayer(name: string, score: Int32): Player {
    Player(EmptyGuid, name, score, "", false)
  }

  /**
   * The list after `AddOrUpdatePlayer` accepts `name`: the first player whose
   * name matches the trimmed name ignoring case gets `score` as its new score;
   * without one, a player with the name as given (not trimmed) is appended.
   */
  function Upserted(players: seq<Player>, name: string, score: Int32): seq<Player> {
    match FirstNamed(players, Trim(name))
    case None => players + [NewPlayer(name, score)]
    case Some(i) => players[i := players[i].(score := score)]
  }

  /**
   * An accepted name either replaces the score of the matching player (the
   * old score is dropped, not added to) and leaves the length and every other
   * player alone, or appends exactly one player holding the untrimmed name.
   */
  lemma UpsertedEffect(players: seq<Player>, name: string, score: Int32)
    ensures var r := Upserted(players, name, score);
      && (FirstNamed(players, Trim(name)).Some? ==>
            var i := FirstNamed(players, Trim(name)).value;
            && |r| == |players| && r[i] == players[i].(score := score)
            && EqualsIgnoreCase(r[i].name, Trim(name))
            && forall j :: 0 <= j < |players| && j != i ==> r[j] == players[j])
      && (FirstNamed(players, Trim(name)).None? ==>
            && |r| == |players| + 1 && r[..|players|] == players
            && r[|players|].name == name && r[|players|].score == score
            && forall j :: 0 <= j < |players| ==> !EqualsIgnoreCase(players[j].name, Trim(name)))
  {
  }

  lemma TrimmedIsFixed(s: string)
    requires IsTrimmed(s)
    ensures Trim(s) == s
  {
    assert TrimStart(s) == s;
  }

  /**
   * For a name with no white space at either end, adding it twice with the
   * same score is the same as adding it once.
   */
  lemma UpsertedIdempotent(players: seq<Player>, name: string, score: Int32)
    requires IsTrimmed(name)
    ensures Upserted(Upserted(players, name, score), name, score) == Upserted(players, name, score)
  {
    TrimmedIsFixed(name);
    var found := FirstNamed(players, name);
    if found.None? {
      var once := players + [NewPlayer(name, score)];
      assert Upserted(players, name, score) == once;
      AppendedFoundAgain(players, name, score);
      assert Upserted(once, name, score) == once;
    } else {
      var i := found.value;
      var once := players[i := players[i].(score := score)];
      assert Upserted(players, name, score) == once;
      UpdatedFoundAgain(players, name, score);
      assert Upserted(once, name, score) == once;
    }
  }

  lemma AppendedFoundAgain(players: seq<Player>, name: string, score: Int32)
    requires FirstNamed(players, name).None?
    ensures var once := players + [NewPlayer(name, score)];
      FirstNamed(once, name) == Some(|players|) && once[|players| := once[|players|].(score := score)] == once
  {
    FirstNamedAppend(players, NewPlayer(name, score), name);
  }

  lemma UpdatedFoundAgain(players: seq<Player>, name: string, score: Int32)
    requires FirstNamed(players, name).Some?
    ensures var i := FirstNamed(players, name).value;
      var once := players[i := players[i].(score := score)];
      FirstNamed(once, name) == Some(i) && once[i := once[i].(score := score)] == once
  {
    var i := FirstNamed(players, name).value;
    FirstNamedSameNames(players, players[i := players[i].(score := score)], name);
  }

  /** Appending a player matching `name` to a list without one puts the first match at the end. */
  lemma {:induction false} FirstNamedAppend(players: seq<Player>, p: Player, name: string)
    requires FirstNamed(players, name).None? && EqualsIgnoreCase(p.name, name)
    ensures FirstNamed(players + [p], name) == Some(|players|)
  {
    if players != [] {
      assert (players + [p])[1..] == players[1..] + [p];
      FirstNamedAppend(players[1..], p, name);
    }
  }

  /** Changing scores only does not move the first match. */
  lemma {:induction false} FirstNamedSameNames(a: seq<Player>, b: seq<Player>, name: string)
    requires |a| == |b| && forall j :: 0 <= j < |a| ==> a[j].name == b[j].name
    ensures FirstNamed(a, name) == FirstNamed(b, name)
  {
    if a != [] {
      FirstNamedSameNames(a[1..], b[1..], name);
    }
  }

  /**
   * The lookup trims the name but the stored name is the one given, so a
   * name with white space around it is not found again: adding " x " a second
   * time appends a second player instead of updating the first.
   */
  lemma PaddedNameAddedTwice(score: Int32)
    ensures var once := Upserted([], " x ", score);
      Upserted(once, " x ", score) == [NewPlayer(" x ", score), NewPlayer(" x ", score)]
  {
    TrimPadded();
    var once := [NewPlayer(" x ", score)];
    assert Upserted([], " x ", score) == once;
    assert !EqualsIgnoreCase(" x ", "x") by {
      assert |ToLower(" x ")| == 3 && |ToLower("x")| == 1;
    }
    assert FirstNamed(once, "x") == None by {
      assert once[1..] == [];
    }
  }

  lemma TrimPadded()
    ensures Trim(" x ") == "x"
  {
    assert " x "[1..] == "x ";
    assert TrimStart(" x ") == "x ";
    assert "x "[..1] == "x";
    assert TrimEnd("x ") == "x";
  }

  /**
   * `OrderByDescending(p => p.Score).Take(count)`: the first `count` players
   * of the stable descending order (none for a count of zero or less, all of
   * them when fewer).
   */
  function TopPlayers(players: seq<Player>, count: int): (top: seq<Player>)
    ensures |top| == if count <= 0 then 0 else if count < |players| then count else |players|
    ensures Descending(top)
    ensures multiset(top) <= multiset(players)
  {
    var sorted := SortByScore(players);
    var k := if count <= 0 then 0 else if count < |players| then count else |players|;
    assert sorted == sorted[..k] + sorted[k..];
    sorted[..k]
  }

  /**
   * The players `TopPlayers` leaves out score no more than any it takes: the
   * list splits into the chosen ones and the rest, with every chosen score at
   * least every other one.
   */
  lemma TopPlayersAreBest(players: seq<Player>, count: int)
    ensures var top := TopPlayers(players, count);
      exists rest: seq<Player> ::
        && multiset(top) + multiset(rest) == multiset(players)
        && forall i, j :: 0 <= i < |top| && 0 <= j < |rest| ==> top[i].score >= rest[j].score
  {
    var sorted := SortByScore(players);
    var k := |TopPlayers(players, count)|;
    SplitDescending(sorted, k);
  }

  /** A descending list cut in two: the front scores at least the back, and the two parts make up the list. */
  lemma SplitDescending(s: seq<Player>, k: nat)
    requires Descending(s) && k <= |s|
    ensures multiset(s[..k]) + multiset(s[k..]) == multiset(s)
    ensures forall i, j :: 0 <= i < k && 0 <= j < |s| - k ==> s[..k][i].score >= s[k..][j].score
  {
    assert s == s[..k] + s[k..];
    forall i, j | 0 <= i < k && 0 <= j < |s| - k ensures s[..k][i].score >= s[k..][j].score {
      assert s[..k][i] == s[i] && s[k..][j] == s[k + j];
    }
  }

  class PlayerService {
    /** `_players`. */
    var players: seq<Player>
    /** The players as last written to the file. */
    var saved: seq<Player>

    /** Starts from the players the file holds; `None` when there is no file or it reads as null. */
    constructor (file: Option<seq<Player>>)
      ensures players == (if file.Some? then file.value else []) && saved == players
    {
      players := if file.Some? then file.value else [];
      saved := players;
    }

    /**
     * `AddOrUpdatePlayer`: a null or blank name is refused with an
     * `ArgumentException` and changes nothing; any other is entered as
     * `Upserted` says and the list is saved.
     */
    method AddOrUpdatePlayer(playerName: Option<string>, score: Int32) returns (argumentError: bool)
      modifies this
      ensures argumentError <==> playerName.None? || IsBlank(playerName.value)
      ensures argumentError ==> players == old(players) && saved == old(saved)
      ensures !argumentError ==> players == Upserted(old(players), playerName.value, score) && saved == players
    {
      if playerName.None? || IsBlank(playerName.value) {
        return true;
      }
      var name := playerName.value;
      var cleaned := Trim(name);
      var found := FirstNamed(players, cleaned);
      if found.None? {
        players := players + [NewPlayer(name, score)];
      } else {
        players := players[found.value := players[found.value].(score := score)];
      }
      SavePlayers();
      return false;
    }

    /** `SavePlayers`: the file now holds the list. */
    method SavePlayers()
      modifies this`saved
      ensures saved == players
    {
      saved := players;
    }

    /** `GetTopPlayers`: see `TopPlayers`. */
    function GetTopPlayers(count: int): (top: seq<Player>)
      reads this
      ensures |top| == if count <= 0 then 0 else if count < |players| then count else |players|
      ensures Descending(top) && multiset(top) <= multiset(players)
    {
      TopPlayers(players, count)
    }

    /** `ResetScores`: every score becomes 0, in list order; names, ids and the length stay; then the list is saved. */
    method ResetScores()
      modifies this
      ensures |players| == |old(players)|
      ensures forall i :: 0 <= i < |players| ==> players[i] == old(players)[i].(score := 0)
      ensures saved == players
    {
      var i := 0;
      while i < |players|
        invariant 0 <= i <= |players| == |old(players)|
        invariant forall j :: 0 <= j < i ==> players[j] == old(players)[j].(score := 0)
        invariant forall j :: i <= j < |players| ==> players[j] == old(players)[j]
      {
        players := players[i := players[i].(score := 0)];
        i := i + 1;
      }
      SavePlayers();
    }
  }
}
