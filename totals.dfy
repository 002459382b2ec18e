/**
 * Sums over a session's records: the votes `Admin_SendQuestionResults` counts
 * add up to the answers that name an option, and every player's score is the
 * (32-bit) sum of the points recorded for it, which each handler keeps so.
 */
module Totals {
  import opened Wrappers
  import opened Numbers
  import opened Models
  import opened Scoring
  import opened SessionStore
  import opened Lifecycle

  /** The sum of a map's values. */
  ghost function SumValues(m: map<int, int>): int
    decreases |m|
  {
    if m == map[] then 0
    else
      HasKey(m);
      var k :| k in m;
      m[k] + SumValues(m - {k})
  }

  lemma HasKey(m: map<int, int>)
    requires m != map[]
    ensures exists k :: k in m
  {
    if forall k :: k !in m {
      assert false;
    }
  }

  /** Any entry can be taken out first. */
  lemma {:induction false} SumValuesRemove(m: map<int, int>, k: int)
    requires k in m
    ensures SumValues(m) == m[k] + SumValues(m - {k})
    decreases |m|
  {
    var j :| j in m && SumValues(m) == m[j] + SumValues(m - {j});
    if j != k {
      SumValuesRemove(m - {j}, k);
      SumValuesRemove(m - {k}, j);
      assert m - {j} - {k} == m - {k} - {j};
    }
  }

  /** Writing one entry moves the sum by the difference. */
  lemma SumValuesUpdate(m: map<int, int>, k: int, v: int)
    ensures SumValues(m[k := v]) == SumValues(m) - (if k in m then m[k] else 0) + v
  {
    SumValuesRemove(m[k := v], k);
    assert m[k := v] - {k} == m - {k};
    if k in m {
      SumValuesRemove(m, k);
    } else {
      assert m - {k} == m;
    }
  }

  /** The players whose answer names some option. */
  function Parsed(answers: map<Guid, AnswerRecord>): set<Guid> {
    set pid | pid in answers && OptionOf(answers[pid]).Some?
  }

  /** One more vote adds one to the total, and a record naming no option adds nothing. */
  lemma VoteTotal(m: map<int, int>, option: Option<Int32>)
    ensures SumValues(Vote(m, option)) == SumValues(m) + (if option.Some? then 1 else 0)
  {
    if option.Some? {
      var k := option.value as int;
      SumValuesUpdate(m, k, (if k in m then m[k] else 0) + 1);
    }
  }

  /** One more record adds its player to `Parsed` exactly when it names an option. */
  lemma ParsedStep(rest: map<Guid, AnswerRecord>, pid: Guid, r: AnswerRecord)
    requires pid !in rest
    ensures |Parsed(rest[pid := r])| == |Parsed(rest)| + (if OptionOf(r).Some? then 1 else 0)
  {
    if OptionOf(r).Some? {
      assert Parsed(rest[pid := r]) == Parsed(rest) + {pid};
    } else {
      assert Parsed(rest[pid := r]) == Parsed(rest);
    }
  }

  /**
   * The counts `Admin_SendQuestionResults` sends add up to the number of
   * answers that name an option, so never to more than the number of records.
   */
  lemma {:induction false} TallyTotal(answers: map<Guid, AnswerRecord>)
    ensures SumValues(Tally(answers)) == |Parsed(answers)|
    ensures |Parsed(answers)| <= |answers|
    decreases |answers|
  {
    SubsetCardinality(Parsed(answers), answers.Keys);
    if answers.Keys == {} {
      assert Tally(answers).Keys == {};
    } else {
      var pid :| pid in answers.Keys;
      var rest := answers - {pid};
      assert answers == rest[pid := answers[pid]];
      TallyTotal(rest);
      TallyVote(rest, pid, answers[pid]);
      VoteTotal(Tally(rest), OptionOf(answers[pid]));
      ParsedStep(rest, pid, answers[pid]);
    }
  }

  /** The points recorded for a player on one question, 0 without a record. */
  function Earned(answers: map<Guid, AnswerRecord>, pid: Guid): int {
    if pid in answers then answers[pid].pointsEarned else 0
  }

  /** The points a player earned, per question that holds a record for it. */
  function PointsByQuestion(s: SessionRecord, pid: Guid): map<int, int> {
    map k | k in s.answersByQuestion && pid in s.answersByQuestion[k] :: s.answersByQuestion[k][pid].pointsEarned as int
  }

  /** All the points recorded for a player. */
  ghost function PointsEarned(s: SessionRecord, pid: Guid): int {
    SumValues(PointsByQuestion(s, pid))
  }

  /** Every listed player's score is what its records earned, added up in 32-bit arithmetic. */
  ghost predicate ScoresMatchRecords(s: SessionRecord) {
    forall j :: 0 <= j < |s.players| ==> s.players[j].score == Wrap32(PointsEarned(s, s.players[j].id))
  }

  /** No two listed players share an id. */
  ghost predicate DistinctIds(players: seq<Player>) {
    forall i, j :: 0 <= i < j < |players| ==> players[i].id != players[j].id
  }

  /** When only the records of question `index` change, a player's points move by its change there. */
  lemma PointsChangeAt(s: SessionRecord, t: SessionRecord, index: int, pid: Guid)
    requires forall k :: k != index ==> AnswersFor(t, k) == AnswersFor(s, k)
    ensures PointsEarned(t, pid) == PointsEarned(s, pid) - Earned(AnswersFor(s, index), pid) + Earned(AnswersFor(t, index), pid)
  {
    var m := PointsByQuestion(s, pid);
    var n := PointsByQuestion(t, pid);
    forall k ensures (k in m <==> pid in AnswersFor(s, k)) && (k in m ==> m[k] == Earned(AnswersFor(s, k), pid)) {
    }
    forall k ensures (k in n <==> pid in AnswersFor(t, k)) && (k in n ==> n[k] == Earned(AnswersFor(t, k), pid)) {
    }
    if pid in AnswersFor(t, index) {
      var v := Earned(AnswersFor(t, index), pid);
      forall k ensures (k in n <==> k in m[index := v]) && (k in n ==> n[k] == m[index := v][k]) { }
      assert n == m[index := v];
      SumValuesUpdate(m, index, v);
    } else if index in m {
      forall k ensures (k in n <==> k in m - {index}) && (k in n ==> n[k] == (m - {index})[k]) { }
      assert n == m - {index};
      SumValuesRemove(m, index);
    } else {
      forall k ensures (k in n <==> k in m) && (k in n ==> n[k] == m[k]) { }
      assert n == m;
    }
  }

  /** The score a wrapped running total gives after one more addition. */
  lemma WrapStep(score: Int32, total: int, points: Int32)
    requires score == Wrap32(total)
    ensures Add32(score, points) == Wrap32(total + points)
  {
    Add32IsWrap(score, points);
    Wrap32Add(total, points);
  }

  /** Players whose scores and records are unchanged keep matching. */
  lemma SameRecordsKeepScores(s: SessionRecord, t: SessionRecord)
    requires ScoresMatchRecords(s) && t.players == s.players
    requires forall k :: AnswersFor(t, k) == AnswersFor(s, k)
    ensures ScoresMatchRecords(t)
  {
    forall j | 0 <= j < |t.players|
      ensures t.players[j].score == Wrap32(PointsEarned(t, t.players[j].id))
    {
      PointsChangeAt(s, t, 0, s.players[j].id);
    }
  }

  /**
   * `Player_SubmitAnswer` keeps every score equal to the points recorded for
   * that player: the one record it adds carries exactly the points it adds to
   * the one player with that id; a refused or failing submission adds no
   * points to anybody.
   */
  lemma SubmitKeepsScoresMatching(s: SessionRecord, pin: string, pid: Guid, answer: Option<string>,
                                  timeTaken: Int32, now: Time, caller: ConnectionId)
    requires ScoresMatchRecords(s) && DistinctIds(s.players)
    ensures var r := Submit(s, pin, pid, answer, timeTaken, now, caller);
      ScoresMatchRecords(r.session) && DistinctIds(r.session.players)
  {
    var r := Submit(s, pin, pid, answer, timeTaken, now, caller);
    if !Accepts(s, pid) {
      SubmitRefused(s, pin, pid, answer, timeTaken, now, caller);
    } else if !(0 <= s.currentQuestionIndex < |s.questions|) {
      SubmitCounts(s, pin, pid, answer, timeTaken, now, caller);
      SubmitFaults(s, pin, pid, answer, timeTaken, now, caller);
      SameRecordsKeepScores(s, r.session);
    } else {
      SubmitRecordsPoints(s, pin, pid, answer, timeTaken, now, caller);
      if FirstIndexWithId(s.players, pid).None? {
        SubmitFaults(s, pin, pid, answer, timeTaken, now, caller);
        UnlistedRecordKeepsScores(s, r.session, s.currentQuestionIndex, pid);
      } else {
        SubmitScores(s, pin, pid, answer, timeTaken, now, caller);
        ListedRecordKeepsScores(s, r.session, s.currentQuestionIndex, pid,
                                EvaluateAnswer(s.questions[s.currentQuestionIndex], answer, timeTaken));
      }
    }
  }

  /** An accepted submission in range moves the submitter's recorded points from nothing to what it earned. */
  lemma SubmitRecordsPoints(s: SessionRecord, pin: string, pid: Guid, answer: Option<string>,
                            timeTaken: Int32, now: Time, caller: ConnectionId)
    requires Accepts(s, pid) && 0 <= s.currentQuestionIndex < |s.questions|
    ensures var r := Submit(s, pin, pid, answer, timeTaken, now, caller);
      var index := s.currentQuestionIndex;
      && (forall k :: k != index ==> AnswersFor(r.session, k) == AnswersFor(s, k))
      && Earned(AnswersFor(s, index), pid) == 0
      && Earned(AnswersFor(r.session, index), pid) == EvaluateAnswer(s.questions[index], answer, timeTaken)
      && (forall q :: q != pid ==> Earned(AnswersFor(r.session, index), q) == Earned(AnswersFor(s, index), q))
  {
    SubmitCounts(s, pin, pid, answer, timeTaken, now, caller);
    SubmitRecords(s, pin, pid, answer, timeTaken, now, caller);
  }

  /** A record for an id no listed player has changes no listed player's points. */
  lemma UnlistedRecordKeepsScores(s: SessionRecord, t: SessionRecord, index: int, pid: Guid)
    requires ScoresMatchRecords(s) && t.players == s.players
    requires forall j :: 0 <= j < |s.players| ==> s.players[j].id != pid
    requires forall k :: k != index ==> AnswersFor(t, k) == AnswersFor(s, k)
    requires forall q :: q != pid ==> Earned(AnswersFor(t, index), q) == Earned(AnswersFor(s, index), q)
    ensures ScoresMatchRecords(t)
  {
    forall j | 0 <= j < |t.players|
      ensures t.players[j].score == Wrap32(PointsEarned(t, t.players[j].id))
    {
      PointsChangeAt(s, t, index, s.players[j].id);
    }
  }

  /** A record worth `points` for the listed player whose score gains `points` keeps every score matching. */
  lemma ListedRecordKeepsScores(s: SessionRecord, t: SessionRecord, index: int, pid: Guid, points: Int32)
    requires ScoresMatchRecords(s) && DistinctIds(s.players) && FirstIndexWithId(s.players, pid).Some?
    requires t.players == ScoreAdded(s.players, pid, points)
    requires forall k :: k != index ==> AnswersFor(t, k) == AnswersFor(s, k)
    requires Earned(AnswersFor(t, index), pid) == Earned(AnswersFor(s, index), pid) + points
    requires forall q :: q != pid ==> Earned(AnswersFor(t, index), q) == Earned(AnswersFor(s, index), q)
    ensures ScoresMatchRecords(t) && DistinctIds(t.players)
  {
    var i := FirstIndexWithId(s.players, pid).value;
    forall j | 0 <= j < |t.players|
      ensures t.players[j].score == Wrap32(PointsEarned(t, t.players[j].id))
    {
      if j != i {
        assert s.players[j].id != pid by {
          if j < i { assert s.players[j].id != s.players[i].id; }
          else { assert s.players[i].id != s.players[j].id; }
        }
      }
      PlayerKeepsScore(s, t, index, pid, points, s.players[j], t.players[j]);
    }
  }

  /** One player's score keeps matching its records when it gains exactly what its records gain. */
  lemma PlayerKeepsScore(s: SessionRecord, t: SessionRecord, index: int, pid: Guid, points: Int32,
                         before: Player, after: Player)
    requires before.score == Wrap32(PointsEarned(s, before.id)) && after.id == before.id
    requires after.score == if before.id == pid then Add32(before.score, points) else before.score
    requires forall k :: k != index ==> AnswersFor(t, k) == AnswersFor(s, k)
    requires Earned(AnswersFor(t, index), pid) == Earned(AnswersFor(s, index), pid) + points
    requires forall q :: q != pid ==> Earned(AnswersFor(t, index), q) == Earned(AnswersFor(s, index), q)
    ensures after.score == Wrap32(PointsEarned(t, after.id))
  {
    PointsChangeAt(s, t, index, before.id);
    if before.id == pid {
      WrapStep(before.score, PointsEarned(s, pid), points);
    }
  }

  /**
   * `Admin_SendQuestionEnded` keeps every score equal to the points recorded
   * for the player: the records it adds earn nothing, and no score changes.
   */
  lemma EndQuestionKeepsScoresMatching(s: SessionRecord, connections: map<Guid, ConnectionId>, now: Time)
    requires ScoresMatchRecords(s)
    ensures ScoresMatchRecords(EndQuestion(s, connections, now).session)
  {
    var r := EndQuestion(s, connections, now);
    var index := s.currentQuestionIndex;
    EndQuestionEffect(s, connections, now, EmptyGuid);
    forall j | 0 <= j < |r.session.players|
      ensures r.session.players[j].score == Wrap32(PointsEarned(r.session, r.session.players[j].id))
    {
      PointsChangeAt(s, r.session, index, s.players[j].id);
    }
  }

  /** Showing a question, by `Admin_SendCurrentQuestion` or `Admin_NavigateToQuestion`, touches no score and no record. */
  lemma ShowingKeepsScoresMatching(s: SessionRecord, pin: string, target: int, now: Time)
    requires ScoresMatchRecords(s)
    ensures ScoresMatchRecords(Present(s, pin, now).session)
    ensures ScoresMatchRecords(Navigate(s, pin, target, now).session)
  {
    PresentKeepsAnswers(s, pin, now);
    SameRecordsKeepScores(s, Present(s, pin, now).session);
    NavigateKeepsAnswers(s, pin, target, now, EmptyGuid);
    SameRecordsKeepScores(s, Navigate(s, pin, target, now).session);
  }

  /** A player joining with score 0 and no records keeps the scores matching. */
  lemma JoinKeepsScoresMatching(s: SessionRecord, p: Player)
    requires ScoresMatchRecords(s) && p.score == 0
    requires forall k :: p.id !in AnswersFor(s, k)
    ensures ScoresMatchRecords(s.(players := s.players + [p]))
  {
    var t := s.(players := s.players + [p]);
    forall k ensures k !in PointsByQuestion(t, p.id) {
      assert p.id !in AnswersFor(s, k);
    }
    assert PointsByQuestion(t, p.id) == map[];
    forall j | 0 <= j < |t.players|
      ensures t.players[j].score == Wrap32(PointsEarned(t, t.players[j].id))
    {
      assert PointsByQuestion(t, t.players[j].id) == PointsByQuestion(s, t.players[j].id);
    }
  }
}
