/**
 * The hub's two pure computations: the points an answer earns
 * (`EvaluateAnswer`) and the leaderboard (`CalculateRanking`).
 */
module Scoring {
  import opened Wrappers
  import opened Numbers
  import opened Text
  import opened Models
  import opened Ordering

  const MaxPoints: int := 150
  const PenaltyPerSecond: int := 10
  const MaxSeconds: int := 15

  /** `string.Equals(given, correct.ToString(), OrdinalIgnoreCase)`; a null answer never matches. */
  predicate AnswerMatches(given: Option<string>, correctOptionIndex: int) {
    given.Some? && EqualsIgnoreCase(given.value, IntToString(correctOptionIndex))
  }

  /** The number text has no letters, so the case-insensitive match is plain equality. */
  lemma AnswerMatchesExactly(given: Option<string>, correctOptionIndex: int)
    ensures AnswerMatches(given, correctOptionIndex) <==> given == Some(IntToString(correctOptionIndex))
  {
    IntToStringHasNoLetters(correctOptionIndex);
    if given.Some? {
      EqualsIgnoreCaseWithoutLetters(given.value, IntToString(correctOptionIndex));
    }
  }

  /**
   * Points for an answer given after `timeTaken` seconds: nothing for a wrong
   * answer; otherwise 150 less 10 per second, the time capped at 15 seconds and
   * the result floored at 0. The arithmetic is C#'s unchecked 32-bit arithmetic.
   */
  function EvaluateAnswer(question: Question, given: Option<string>, timeTaken: Int32): (points: Int32)
    ensures points >= 0
    ensures points > 0 ==> given == Some(IntToString(question.correctOptionIndex))
  {
    AnswerMatchesExactly(given, question.correctOptionIndex);
    if !AnswerMatches(given, question.correctOptionIndex) then 0
    else
      var seconds := if timeTaken > MaxSeconds then MaxSeconds else timeTaken;
      var points := Wrap32(MaxPoints - Wrap32(PenaltyPerSecond * seconds));
      if points < 0 then 0 else points
  }

  /**
   * Without overflow (any time from -214748349 seconds up), a correct answer is
   * worth `max(0, 150 - 10 * min(t, 15))` and a wrong or missing one nothing.
   */
  lemma EvaluateAnswerFormula(question: Question, given: Option<string>, timeTaken: Int32)
    requires timeTaken >= -214748349
    ensures EvaluateAnswer(question, given, timeTaken) ==
      if given == Some(IntToString(question.correctOptionIndex)) then
        var capped := if timeTaken < MaxSeconds then timeTaken else MaxSeconds;
        if MaxPoints - PenaltyPerSecond * capped < 0 then 0 else MaxPoints - PenaltyPerSecond * capped
      else 0
  {
    AnswerMatchesExactly(given, question.correctOptionIndex);
  }

  /** The boundary cases: 150 at once, nothing from 15 seconds on, and at most 150 for any non-negative time. */
  lemma EvaluateAnswerBounds(question: Question, given: Option<string>, timeTaken: Int32)
    ensures timeTaken >= 0 ==> EvaluateAnswer(question, given, timeTaken) <= MaxPoints
    ensures timeTaken >= MaxSeconds ==> EvaluateAnswer(question, given, timeTaken) == 0
    ensures given == Some(IntToString(question.correctOptionIndex)) ==> EvaluateAnswer(question, given, 0) == MaxPoints
  {
    AnswerMatchesExactly(given, question.correctOptionIndex);
  }

  /**
   * The time is whatever the client reports: a negative time earns more than
   * 150 points, here 2000000150 for a correct answer "after" -200000000 seconds.
   */
  lemma NegativeTimeEarnsMore(question: Question)
    ensures EvaluateAnswer(question, Some(IntToString(question.correctOptionIndex)), -200000000) == 2000000150
  {
    EvaluateAnswerFormula(question, Some(IntToString(question.correctOptionIndex)), -200000000);
  }

  /** The leaderboard line for `p` at 1-based place `position`. */
  function EntryFor(pin: Option<string>, p: Player, position: int): RankingEntry {
    RankingEntry(pin, p.id, p.name, p.score, position)
  }

  /** Players in stable descending score order, numbered 1, 2, 3, ... (ties get distinct places). */
  function CalculateRanking(pin: Option<string>, players: seq<Player>): (ranking: seq<RankingEntry>)
    ensures |ranking| == |players|
    ensures forall i :: 0 <= i < |ranking| ==> ranking[i].position == i + 1 && ranking[i].gamePin == pin
    ensures forall i, j :: 0 <= i < j < |ranking| ==> ranking[i].score >= ranking[j].score
  {
    var sorted := SortByScore(players);
    seq(|sorted|, i requires 0 <= i < |sorted| => EntryFor(pin, sorted[i], i + 1))
  }

  /**
   * The ranking lists every player once, in the one stable descending order
   * there is: entry `i` is the `i`-th player of a stable descending arrangement
   * of the input, so players with equal scores keep their input order.
   */
  lemma RankingIsStableOrder(pin: Option<string>, players: seq<Player>)
    ensures var ranking := CalculateRanking(pin, players);
      exists s :: StableDescending(s, players) && multiset(s) == multiset(players) && |s| == |ranking| &&
        forall i :: 0 <= i < |ranking| ==> ranking[i] == EntryFor(pin, s[i], i + 1)
  {
    var s := SortByScore(players);
    assert StableDescending(s, players) && multiset(s) == multiset(players);
  }

  /** Scores 300, 300, 100 are ranked 1, 2, 3 with the tied players in input order. */
  lemma RankingOfTies(pin: Option<string>, a: Player, b: Player, c: Player)
    requires a.score == 300 && b.score == 300 && c.score == 100
    ensures CalculateRanking(pin, [a, b, c]) == [EntryFor(pin, a, 1), EntryFor(pin, b, 2), EntryFor(pin, c, 3)]
  {
    var ps := [a, b, c];
    TiesKeepInputOrder(a, b, c);
    RankingOfSorted(pin, ps);
    var r := CalculateRanking(pin, ps);
    assert r[0] == EntryFor(pin, a, 1) && r[1] == EntryFor(pin, b, 2) && r[2] == EntryFor(pin, c, 3);
  }

  /** A list the sort leaves as it is is ranked in its own order. */
  lemma RankingOfSorted(pin: Option<string>, ps: seq<Player>)
    requires SortByScore(ps) == ps
    ensures forall i :: 0 <= i < |ps| ==> CalculateRanking(pin, ps)[i] == EntryFor(pin, ps[i], i + 1)
  {
  }

  lemma TiesKeepInputOrder(a: Player, b: Player, c: Player)
    requires a.score == 300 && b.score == 300 && c.score == 100
    ensures SortByScore([a, b, c]) == [a, b, c]
  {
    var ps := [a, b, c];
    assert Descending(ps);
    StableDescendingUnique(SortByScore(ps), ps);
  }
}
