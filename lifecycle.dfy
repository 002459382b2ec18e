/**
 * What each hub handler does to the session it finds by pin, as functions on
 * session values: the new session, whether it was saved, the pushes sent and
 * the exception thrown, if any. The hub's methods are proved to follow these.
 */
module Lifecycle {
  import opened Wrappers
  import opened Numbers
  import opened Models
  import opened Scoring
  import opened SessionStore

  /** The exceptions a handler can run into: a question index outside the list, or `First` finding no player. */
  datatype Fault = IndexOutOfRange | NoMatchingPlayer

  /** One handler run on one session. */
  datatype Step = Step(session: SessionRecord, saved: bool, pushes: seq<Push>, fault: Option<Fault>)

  /** The answer counter the handlers create on first use. */
  function EnsureCount(counts: map<int, int>, index: int): (r: map<int, int>)
    ensures index in r && r.Keys == counts.Keys + {index}
    ensures forall k :: k in counts ==> r[k] == counts[k]
    ensures index !in counts ==> r[index] == 0
  {
    if index in counts then counts else counts[index := 0]
  }

  /** `Questions[index]`, or nothing where that indexer throws. */
  function QuestionAt(s: SessionRecord, index: int): (r: Option<Question>)
    ensures r.Some? <==> 0 <= index < |s.questions|
    ensures r.Some? ==> r.value == s.questions[index]
  {
    if 0 <= index < |s.questions| then Some(s.questions[index]) else None
  }

  /** The records for question `index`, empty when none exist. */
  function AnswersFor(s: SessionRecord, index: int): map<Guid, AnswerRecord> {
    if index in s.answersByQuestion then s.answersByQuestion[index] else map[]
  }

  /** The counter for question `index`, 0 when there is none. */
  function CountFor(s: SessionRecord, index: int): int {
    if index in s.answerCountsByQuestion then s.answerCountsByQuestion[index] else 0
  }

  /** Both handlers that show a question first create its records map and counter, if missing. */
  function Prepared(s: SessionRecord, index: int): (r: SessionRecord)
    ensures r == s.(answersByQuestion := r.answersByQuestion, answerCountsByQuestion := r.answerCountsByQuestion)
    ensures index in r.answersByQuestion && index in r.answerCountsByQuestion
    ensures forall k :: k in s.answersByQuestion ==> k in r.answersByQuestion && r.answersByQuestion[k] == s.answersByQuestion[k]
    ensures forall k :: AnswersFor(r, k) == AnswersFor(s, k) && CountFor(r, k) == CountFor(s, k)
  {
    s.(answersByQuestion := EnsureAnswers(s.answersByQuestion, index),
       answerCountsByQuestion := EnsureCount(s.answerCountsByQuestion, index))
  }

  /**
   * Showing question `index` of the saved session `t`: the question to the
   * players and its number of answers to the admins; an index outside the list
   * throws before anything is sent.
   */
  function Show(t: SessionRecord, pin: string, index: int): (r: Step)
    ensures r.session == t && r.saved
    ensures r.fault.None? <==> 0 <= index < |t.questions|
    ensures r.fault.Some? ==> r.fault == Some(IndexOutOfRange) && r.pushes == []
    ensures r.fault.None? ==> r.pushes == [Push(Group(pin), ReceiveQuestion(t.questions[index])),
                                          Push(Group(AdminGroup(pin)), UpdateAnswerCount(|AnswersFor(t, index)|))]
  {
    match QuestionAt(t, index)
    case None => Step(t, true, [], Some(IndexOutOfRange))
    case Some(q) =>
      Step(t, true, [Push(Group(pin), ReceiveQuestion(q)),
                     Push(Group(AdminGroup(pin)), UpdateAnswerCount(|AnswersFor(t, index)|))], None)
  }

  /**
   * `Admin_SendCurrentQuestion`: opens the current question (keeping answers
   * already given), saves, then shows it.
   */
  function Present(s: SessionRecord, pin: string, now: Time): (r: Step)
    ensures r.saved && r.session.isQuestionActive && r.session.currentQuestionIndex == s.currentQuestionIndex
    ensures r.session.players == s.players && r.session.questions == s.questions
    ensures r.fault.None? <==> 0 <= s.currentQuestionIndex < |s.questions|
  {
    var index := s.currentQuestionIndex;
    Show(Prepared(s, index).(isQuestionActive := true, lastUpdatedAt := now), pin, index)
  }

  /**
   * `Admin_NavigateToQuestion`: moves to `target` with the question closed,
   * keeping whatever was recorded for it, saves, and shows that question.
   */
  function Navigate(s: SessionRecord, pin: string, target: int, now: Time): (r: Step)
    ensures r.saved && !r.session.isQuestionActive && r.session.currentQuestionIndex == target
    ensures r.session.players == s.players && r.session.questions == s.questions
    ensures r.fault.None? <==> 0 <= target < |s.questions|
  {
    Show(Prepared(s, target).(currentQuestionIndex := target, isQuestionActive := false, lastUpdatedAt := now), pin, target)
  }

  /** Submissions are accepted while the question is open and from players who have not answered it. */
  predicate Accepts(s: SessionRecord, playerId: Guid) {
    s.isQuestionActive && playerId !in AnswersFor(s, s.currentQuestionIndex)
  }

  /**
   * `Player_SubmitAnswer` on the session found: refused submissions change
   * nothing; otherwise the counter goes up, the answer is scored and recorded,
   * the player's score grows, the session is saved and the admins get the new
   * count and ranking, the player its result. A question index outside the list
   * throws after counting; a player missing from the list throws after recording.
   */
  function Submit(s: SessionRecord, pin: string, playerId: Guid, answer: Option<string>,
                  timeTaken: Int32, now: Time, caller: ConnectionId): Step
  {
    var index := s.currentQuestionIndex;
    if !Accepts(s, playerId) then Step(s, false, [], None)
    else
      var counted := Counted(s, index);
      match QuestionAt(s, index)
      case None => Step(counted, false, [], Some(IndexOutOfRange))
      case Some(q) =>
        var points := EvaluateAnswer(q, answer, timeTaken);
        var recorded := Recorded(counted, index, playerId, AnswerRecord(index, answer, points > 0, Some(now), points));
        if FirstIndexWithId(s.players, playerId).None? then Step(recorded, false, [], Some(NoMatchingPlayer))
        else
          var scored := recorded.(players := ScoreAdded(s.players, playerId, points), lastUpdatedAt := now);
          Step(scored, true, SubmitPushes(scored, pin, index, points, caller), None)
  }

  /** The first stage of an accepted submission: the records map exists and the counter went up by one. */
  function Counted(s: SessionRecord, index: int): (r: SessionRecord)
    ensures r == s.(answersByQuestion := r.answersByQuestion, answerCountsByQuestion := r.answerCountsByQuestion)
    ensures AnswersFor(r, index) == AnswersFor(s, index) && index in r.answersByQuestion
    ensures CountFor(r, index) == CountFor(s, index) + 1
    ensures forall k :: k != index ==> AnswersFor(r, k) == AnswersFor(s, k) && CountFor(r, k) == CountFor(s, k)
  {
    var counts := EnsureCount(s.answerCountsByQuestion, index);
    s.(answersByQuestion := EnsureAnswers(s.answersByQuestion, index),
       answerCountsByQuestion := counts[index := counts[index] + 1])
  }

  /** The record stage: `record` is written for the player on question `index`. */
  function Recorded(s: SessionRecord, index: int, playerId: Guid, record: AnswerRecord): (r: SessionRecord)
    ensures r == s.(answersByQuestion := r.answersByQuestion)
    ensures AnswersFor(r, index) == AnswersFor(s, index)[playerId := record]
    ensures forall k :: k != index ==> AnswersFor(r, k) == AnswersFor(s, k)
  {
    s.(answersByQuestion := s.answersByQuestion[index := AnswersFor(s, index)[playerId := record]])
  }

  /** What a scored submission sends: the admins the count and ranking, the caller its result. */
  function SubmitPushes(scored: SessionRecord, pin: string, index: int, points: Int32, caller: ConnectionId): seq<Push> {
    [Push(Group(AdminGroup(pin)), UpdateAnswerCount(|AnswersFor(scored, index)|)),
     Push(Group(AdminGroup(pin)), ReceiveUpdateRanking(CalculateRanking(scored.gamePin, scored.players))),
     Push(Caller(caller), QuestionScoreIndividual(Some(points > 0), points))]
  }

  /** The record `Admin_SendQuestionEnded` leaves for a player who did not answer (after `RegisterPlayerAnswer` rewrites it). */
  function NoAnswer(index: int, now: Time): AnswerRecord {
    AnswerRecord(index, None, false, Some(now), 0)
  }

  /** The no-answer push `Admin_SendQuestionEnded` sends a connected silent player. */
  function NoAnswerPush(pid: Guid, connections: map<Guid, ConnectionId>): Push
    requires pid in connections
  {
    Push(Client(connections[pid]), QuestionScoreIndividual(None, 0))
  }

  /** A session and the pushes sent so far. */
  datatype Ended = Ended(session: SessionRecord, pushes: seq<Push>)

  /** One turn of the loop of `Admin_SendQuestionEnded`: a player without a record for `index` is registered as not answering. */
  function Filled(s: SessionRecord, p: Player, index: int, now: Time): (r: SessionRecord)
    requires index in s.answersByQuestion
    ensures r == s.(answersByQuestion := r.answersByQuestion, lastUpdatedAt := r.lastUpdatedAt)
    ensures index in r.answersByQuestion && p.id in r.answersByQuestion[index]
    ensures forall pid :: pid in s.answersByQuestion[index] ==>
      pid in r.answersByQuestion[index] && r.answersByQuestion[index][pid] == s.answersByQuestion[index][pid]
  {
    RegisterNoAnswer(s, p.id, index, now);
    if p.id in s.answersByQuestion[index] then s else RegisterAnswer(s, p.id, index, None, false, 0, now)
  }

  /** What that turn sends: the no-answer push, to a connected player that had no record. */
  function FillPushes(s: SessionRecord, p: Player, index: int, connections: map<Guid, ConnectionId>): seq<Push>
    requires index in s.answersByQuestion
  {
    if p.id in s.answersByQuestion[index] || p.id !in connections then [] else [NoAnswerPush(p.id, connections)]
  }

  /**
   * The loop of `Admin_SendQuestionEnded` over `players`, in order: each player
   * without a record for question `index` is registered as not answering and,
   * when connected, told so.
   */
  function BackFill(s: SessionRecord, players: seq<Player>, index: int,
                    connections: map<Guid, ConnectionId>, now: Time): (r: Ended)
    requires index in s.answersByQuestion
    ensures r.session == s.(answersByQuestion := r.session.answersByQuestion, lastUpdatedAt := r.session.lastUpdatedAt)
    ensures index in r.session.answersByQuestion
    ensures forall p :: p in players ==> p.id in r.session.answersByQuestion[index]
    decreases |players|
  {
    if players == [] then Ended(s, [])
    else
      var e := BackFill(s, players[..|players| - 1], index, connections, now);
      var p := players[|players| - 1];
      Ended(Filled(e.session, p, index, now), e.pushes + FillPushes(e.session, p, index, connections))
  }

  /** `Admin_SendQuestionEnded`: closes the question, back-fills the players who did not answer, saves. */
  function EndQuestion(s: SessionRecord, connections: map<Guid, ConnectionId>, now: Time): (r: Step)
    ensures r.saved && r.fault.None? && !r.session.isQuestionActive
    ensures r.session.currentQuestionIndex == s.currentQuestionIndex
    ensures r.session.players == s.players && r.session.answerCountsByQuestion == s.answerCountsByQuestion
    ensures forall p :: p in s.players ==> p.id in AnswersFor(r.session, s.currentQuestionIndex)
  {
    var index := s.currentQuestionIndex;
    var closed := s.(isQuestionActive := false, answersByQuestion := EnsureAnswers(s.answersByQuestion, index));
    var e := BackFill(closed, s.players, index, connections, now);
    Step(e.session.(lastUpdatedAt := now), true, e.pushes, None)
  }

  /** The option an answer names, for those that parse as a 32-bit integer. */
  function OptionOf(r: AnswerRecord): Option<Int32> {
    ParseAnswer(r.answer)
  }

  /** The players whose answer names option `k`. */
  function Voters(answers: map<Guid, AnswerRecord>, k: int): set<Guid> {
    set pid | pid in answers && OptionOf(answers[pid]) == Some(k)
  }

  /** The options somebody named. */
  function Named(answers: map<Guid, AnswerRecord>): set<int> {
    set pid | pid in answers && OptionOf(answers[pid]).Some? :: OptionOf(answers[pid]).value as int
  }

  /**
   * The vote count `Admin_SendQuestionResults` builds: one entry per option
   * somebody named, holding the number of players who named it.
   */
  function Tally(answers: map<Guid, AnswerRecord>): (counts: map<int, int>)
    ensures forall k :: k in counts ==> 1 <= counts[k] <= |answers|
  {
    VotersBounded(answers);
    map k | k in Named(answers) :: |Voters(answers, k)|
  }

  lemma NamedIff(answers: map<Guid, AnswerRecord>, k: int)
    ensures k in Named(answers) <==> Voters(answers, k) != {}
  {
    if k in Named(answers) {
      var pid :| pid in answers && OptionOf(answers[pid]).Some? && OptionOf(answers[pid]).value as int == k;
      assert pid in Voters(answers, k);
    }
    if Voters(answers, k) != {} {
      var pid :| pid in Voters(answers, k);
      assert OptionOf(answers[pid]).value as int == k;
    }
  }

  /** Option `k` is counted iff somebody named it, and its count is the number of players who did. */
  lemma TallyAt(answers: map<Guid, AnswerRecord>, k: int)
    ensures k in Tally(answers) <==> Voters(answers, k) != {}
    ensures k in Tally(answers) ==> Tally(answers)[k] == |Voters(answers, k)|
  {
    NamedIff(answers, k);
  }

  /** Every named option has at least one voter, and no more voters than answers. */
  lemma VotersBounded(answers: map<Guid, AnswerRecord>)
    ensures forall k :: k in Named(answers) ==> 1 <= |Voters(answers, k)| <= |answers|
  {
    forall k | k in Named(answers) ensures 1 <= |Voters(answers, k)| <= |answers| {
      NamedIff(answers, k);
      SubsetCardinality(Voters(answers, k), answers.Keys);
    }
  }

  lemma {:induction false} SubsetCardinality<T>(a: set<T>, b: set<T>)
    requires a <= b
    ensures |a| <= |b|
    decreases |b|
  {
    if a != {} {
      var x :| x in a;
      SubsetCardinality(a - {x}, b - {x});
    }
  }

  /** Two answer maps with the same voters for every option have the same tally. */
  lemma TallyKeys(a: map<Guid, AnswerRecord>, b: map<Guid, AnswerRecord>)
    requires forall k :: Voters(b, k) == Voters(a, k)
    ensures Tally(b) == Tally(a)
  {
    forall k ensures k in Tally(a) <==> k in Tally(b) {
      TallyAt(a, k);
      TallyAt(b, k);
    }
  }

  /** Adding a record adds its player to the voters of the option it names, and to no other. */
  lemma VotersAdd(answers: map<Guid, AnswerRecord>, pid: Guid, r: AnswerRecord, k: int)
    requires pid !in answers
    ensures Voters(answers[pid := r], k) == if OptionOf(r) == Some(k) then Voters(answers, k) + {pid} else Voters(answers, k)
    ensures pid !in Voters(answers, k)
  {
    var b := answers[pid := r];
    forall q ensures q in Voters(b, k) <==> q in Voters(answers, k) || (q == pid && OptionOf(r) == Some(k)) {
      if q != pid {
        assert q in b <==> q in answers;
      }
    }
  }

  /** A record naming no option (such as a back-filled one) leaves the results as they were. */
  lemma TallyIgnoresNoAnswer(answers: map<Guid, AnswerRecord>, pid: Guid, r: AnswerRecord)
    requires pid !in answers && OptionOf(r).None?
    ensures Tally(answers[pid := r]) == Tally(answers)
  {
    forall k ensures Voters(answers[pid := r], k) == Voters(answers, k) {
      VotersAdd(answers, pid, r, k);
    }
    TallyKeys(answers, answers[pid := r]);
  }

  /** A new answer naming option `k` adds one vote to `k`. */
  lemma TallyAddsOneVote(answers: map<Guid, AnswerRecord>, pid: Guid, r: AnswerRecord, k: Int32)
    requires pid !in answers && OptionOf(r) == Some(k)
    ensures var t := Tally(answers[pid := r]);
      k as int in t && t[k as int] == (if k as int in Tally(answers) then Tally(answers)[k as int] else 0) + 1
  {
    VotersAdd(answers, pid, r, k as int);
    TallyAt(answers[pid := r], k as int);
    TallyAt(answers, k as int);
  }

  /** ... and changes the count of no other option. */
  lemma TallyKeepsOtherVotes(answers: map<Guid, AnswerRecord>, pid: Guid, r: AnswerRecord, k: Int32, j: int)
    requires pid !in answers && OptionOf(r) == Some(k) && j != k as int
    ensures var t := Tally(answers[pid := r]);
      (j in t <==> j in Tally(answers)) && (j in t ==> t[j] == Tally(answers)[j])
  {
    VotersAdd(answers, pid, r, j);
    TallyAt(answers[pid := r], j);
    TallyAt(answers, j);
  }

  /** One step of the counting loop: a parsed option gains a vote (starting from 0); anything else is skipped. */
  function Vote(counts: map<int, int>, option: Option<Int32>): map<int, int> {
    if option.None? then counts
    else counts[option.value as int := (if option.value as int in counts then counts[option.value as int] else 0) + 1]
  }

  /** Counting answers one at a time arrives at the tally, whatever the order. */
  lemma TallyVote(answers: map<Guid, AnswerRecord>, pid: Guid, r: AnswerRecord)
    requires pid !in answers
    ensures Tally(answers[pid := r]) == Vote(Tally(answers), OptionOf(r))
  {
    var b := answers[pid := r];
    if OptionOf(r).None? {
      TallyIgnoresNoAnswer(answers, pid, r);
    } else {
      var k := OptionOf(r).value;
      var t, u, v := Tally(answers), Tally(b), Vote(Tally(answers), OptionOf(r));
      forall j ensures (j in u <==> j in v) && (j in u ==> u[j] == v[j]) {
        if j == k as int {
          TallyAddsOneVote(answers, pid, r, k);
        } else {
          TallyKeepsOtherVotes(answers, pid, r, k, j);
        }
      }
      SameMaps(u, v);
    }
  }

  lemma SameMaps(u: map<int, int>, v: map<int, int>)
    requires forall j :: j in u <==> j in v
    requires forall j :: j in u ==> u[j] == v[j]
    ensures u == v
  {
    forall j | j in u.Keys ensures j in v.Keys {
      assert j in u;
    }
    forall j | j in v.Keys ensures j in u.Keys {
      assert j in v;
    }
    assert u.Keys == v.Keys;
    assert forall j :: j in u.Keys ==> u[j] == v[j];
  }

  /** `Admin_SendQuestionResults` on the session found: the tally of the current question, with its correct option. */
  function Results(s: SessionRecord, pin: string): (r: Step)
    ensures r.session == s && !r.saved
    ensures r.fault.None? <==> 0 <= s.currentQuestionIndex < |s.questions|
    ensures r.fault.Some? ==> r.pushes == []
    ensures r.fault.None? ==>
      && |r.pushes| == 1 && r.pushes[0].to == Group(AdminGroup(pin))
      && r.pushes[0].message == ReceiveQuestionResults(Tally(AnswersFor(s, s.currentQuestionIndex)),
                                                       s.questions[s.currentQuestionIndex].correctOptionIndex as int)
  {
    var counts := Tally(AnswersFor(s, s.currentQuestionIndex));
    match QuestionAt(s, s.currentQuestionIndex)
    case None => Step(s, false, [], Some(IndexOutOfRange))
    case Some(q) =>
      Step(s, false, [Push(Group(AdminGroup(pin)), ReceiveQuestionResults(counts, q.correctOptionIndex as int))], None)
  }

  /** `Admin_RequestCurrentAnswerCount`: how many players have a record for the question, 0 for an unknown session. */
  function AnswerCount(s: Option<SessionRecord>, index: int): (n: nat)
    ensures s.None? ==> n == 0
    ensures s.Some? ==> n == |AnswersFor(s.value, index)|
  {
    if s.None? || index !in s.value.answersByQuestion then 0 else |s.value.answersByQuestion[index]|
  }

  /**
   * `Player_RequestCurrentState`: an unknown pin gets "session not found"; a
   * closed question the waiting screen with the current index; an open one the
   * question (if the index is in range) and the caller's own record, if any.
   * `playerId` is the outcome of parsing the caller's id text.
   */
  function CurrentState(s: Option<SessionRecord>, playerId: Option<Guid>): (m: Message)
    ensures m == SessionNotFound <==> s.None?
    ensures m.ReceiveLoadingWithNumber? <==> s.Some? && !s.value.isQuestionActive
    ensures m.ReceiveCurrentState? <==> s.Some? && s.value.isQuestionActive
    ensures m.ReceiveCurrentState? ==>
      && m.index == s.value.currentQuestionIndex
      && m.current == QuestionAt(s.value, m.index)
      && (m.answer.Some? <==> playerId.Some? && playerId.value in AnswersFor(s.value, m.index))
      && (m.answer.Some? ==> m.answer.value == AnswersFor(s.value, m.index)[playerId.value])
  {
    if s.None? then SessionNotFound
    else if !s.value.isQuestionActive then ReceiveLoadingWithNumber(s.value.currentQuestionIndex)
    else
      var index := s.value.currentQuestionIndex;
      var answers := AnswersFor(s.value, index);
      ReceiveCurrentState(QuestionAt(s.value, index), index,
                          if playerId.Some? && playerId.value in answers then Some(answers[playerId.value]) else None)
  }

  /** The final-score push to one connected player. */
  function FinalScorePush(p: Player, connections: map<Guid, ConnectionId>): Push
    requires p.id in connections
  {
    Push(Client(connections[p.id]), FinalScoreIndividual(p.score))
  }

  /** The individual final-score pushes, one per connected player, in list order. */
  function ScorePushes(players: seq<Player>, connections: map<Guid, ConnectionId>): seq<Push> {
    if players == [] then []
    else
      var p := players[|players| - 1];
      ScorePushes(players[..|players| - 1], connections) + if p.id in connections then [FinalScorePush(p, connections)] else []
  }

  /** Exactly the connected players are sent their scores, at most one push per player. */
  lemma {:induction false} ScorePushesExact(players: seq<Player>, connections: map<Guid, ConnectionId>)
    ensures |ScorePushes(players, connections)| <= |players|
    ensures forall m :: m in ScorePushes(players, connections) <==>
      exists p :: p in players && p.id in connections && m == FinalScorePush(p, connections)
  {
    if players != [] {
      var front := players[..|players| - 1];
      var p := players[|players| - 1];
      ScorePushesExact(front, connections);
      assert forall x :: x in players <==> x in front || x == p;
    }
  }

  // ---- Properties ----

  /**
   * Presenting opens the current question without losing anything: answers
   * and counters already recorded stay, the admins are told how many answers
   * the question already has, and the players see the question iff its index
   * is in range. Presenting again changes nothing more.
   */
  lemma PresentKeepsAnswers(s: SessionRecord, pin: string, now: Time)
    ensures var r := Present(s, pin, now);
      var index := s.currentQuestionIndex;
      && r.saved && r.session.isQuestionActive && r.session.currentQuestionIndex == index
      && r.session.players == s.players
      && AnswersFor(r.session, index) == AnswersFor(s, index)
      && (forall k :: k in s.answersByQuestion ==> r.session.answersByQuestion[k] == s.answersByQuestion[k])
      && (forall k :: CountFor(r.session, k) == CountFor(s, k))
      && (r.fault.None? <==> 0 <= index < |s.questions|)
      && (r.fault.None? ==> r.pushes[1] == Push(Group(AdminGroup(pin)), UpdateAnswerCount(|AnswersFor(s, index)|)))
      && Present(r.session, pin, now) == r
  {
    var t := Prepared(s, s.currentQuestionIndex).(isQuestionActive := true, lastUpdatedAt := now);
    assert Prepared(t, s.currentQuestionIndex) == t;
  }

  /**
   * Navigating lands on `target` with the question closed, keeps every
   * recorded answer (so going back to a question shows its earlier answers),
   * and refuses submissions until the question is presented.
   */
  lemma NavigateKeepsAnswers(s: SessionRecord, pin: string, target: int, now: Time, pid: Guid)
    ensures var r := Navigate(s, pin, target, now);
      && r.session.currentQuestionIndex == target && !r.session.isQuestionActive
      && (forall k :: AnswersFor(r.session, k) == AnswersFor(s, k))
      && (forall k :: CountFor(r.session, k) == CountFor(s, k))
      && (r.fault.None? <==> 0 <= target < |s.questions|)
      && !Accepts(r.session, pid)
  {
    var t := Prepared(s, target);
    assert forall k :: AnswersFor(t.(currentQuestionIndex := target, isQuestionActive := false, lastUpdatedAt := now), k) == AnswersFor(t, k);
    assert forall k :: CountFor(t.(currentQuestionIndex := target, isQuestionActive := false, lastUpdatedAt := now), k) == CountFor(t, k);
  }

  /**
   * Whatever happens to it, a submission never moves to another question,
   * never opens or closes one and never changes the quiz; it saves exactly
   * when it is accepted and runs to the end; when it throws it sends nothing
   * and changes no score, and a refused one changes nothing at all.
   */
  lemma SubmitKeepsQuestion(s: SessionRecord, pin: string, pid: Guid, answer: Option<string>,
                            timeTaken: Int32, now: Time, caller: ConnectionId)
    ensures var r := Submit(s, pin, pid, answer, timeTaken, now, caller);
      && r.session.currentQuestionIndex == s.currentQuestionIndex && r.session.isQuestionActive == s.isQuestionActive
      && r.session.questions == s.questions && r.session.gamePin == s.gamePin
      && (r.saved <==> Accepts(s, pid) && r.fault.None?)
      && (r.fault.Some? ==> Accepts(s, pid) && r.pushes == [] && r.session.players == s.players)
      && (!Accepts(s, pid) ==> r.session == s && r.pushes == [])
  {
    if Accepts(s, pid) {
      SubmitShape(s, pin, pid, answer, timeTaken, now, caller);
    }
  }

  /** A refused submission (question closed, or the player already answered it) changes nothing and sends nothing. */
  lemma SubmitRefused(s: SessionRecord, pin: string, pid: Guid, answer: Option<string>,
                      timeTaken: Int32, now: Time, caller: ConnectionId)
    requires !Accepts(s, pid)
    ensures Submit(s, pin, pid, answer, timeTaken, now, caller) == Step(s, false, [], None)
  {
  }

  /** An accepted submission on a question index outside the list: counted, then the indexing throws. */
  lemma SubmitOutOfRange(s: SessionRecord, pin: string, pid: Guid, answer: Option<string>,
                         timeTaken: Int32, now: Time, caller: ConnectionId)
    requires Accepts(s, pid) && !(0 <= s.currentQuestionIndex < |s.questions|)
    ensures Submit(s, pin, pid, answer, timeTaken, now, caller) ==
      Step(Counted(s, s.currentQuestionIndex), false, [], Some(IndexOutOfRange))
  {
  }

  /** An accepted, scored submission: the record is written, then the player is looked up. */
  lemma SubmitInRange(s: SessionRecord, pin: string, pid: Guid, answer: Option<string>,
                      timeTaken: Int32, now: Time, caller: ConnectionId)
    requires Accepts(s, pid) && 0 <= s.currentQuestionIndex < |s.questions|
    ensures var index := s.currentQuestionIndex;
      var points := EvaluateAnswer(s.questions[index], answer, timeTaken);
      var recorded := Recorded(Counted(s, index), index, pid, AnswerRecord(index, answer, points > 0, Some(now), points));
      var scored := recorded.(players := ScoreAdded(s.players, pid, points), lastUpdatedAt := now);
      Submit(s, pin, pid, answer, timeTaken, now, caller) ==
        if FirstIndexWithId(s.players, pid).None? then Step(recorded, false, [], Some(NoMatchingPlayer))
        else Step(scored, true, SubmitPushes(scored, pin, index, points, caller), None)
  {
  }

  /** Where an accepted submission leaves the two maps of the session; the rest of it but the players and the time stamp stays. */
  lemma SubmitShape(s: SessionRecord, pin: string, pid: Guid, answer: Option<string>,
                    timeTaken: Int32, now: Time, caller: ConnectionId)
    requires Accepts(s, pid)
    ensures var r := Submit(s, pin, pid, answer, timeTaken, now, caller);
      var index := s.currentQuestionIndex;
      var counted := Counted(s, index);
      && r.session == s.(answersByQuestion := r.session.answersByQuestion, answerCountsByQuestion := r.session.answerCountsByQuestion,
                         players := r.session.players, lastUpdatedAt := r.session.lastUpdatedAt)
      && r.session.answerCountsByQuestion == counted.answerCountsByQuestion
      && r.session.answersByQuestion ==
           if 0 <= index < |s.questions| then
             var points := EvaluateAnswer(s.questions[index], answer, timeTaken);
             Recorded(counted, index, pid, AnswerRecord(index, answer, points > 0, Some(now), points)).answersByQuestion
           else counted.answersByQuestion
  {
  }

  /** An accepted submission bumps the current question's counter by one and touches no other question. */
  lemma SubmitCounts(s: SessionRecord, pin: string, pid: Guid, answer: Option<string>,
                     timeTaken: Int32, now: Time, caller: ConnectionId)
    requires Accepts(s, pid)
    ensures var r := Submit(s, pin, pid, answer, timeTaken, now, caller);
      var index := s.currentQuestionIndex;
      && CountFor(r.session, index) == CountFor(s, index) + 1
      && (forall k :: k != index ==> AnswersFor(r.session, k) == AnswersFor(s, k) && CountFor(r.session, k) == CountFor(s, k))
  {
    SubmitShape(s, pin, pid, answer, timeTaken, now, caller);
  }

  /**
   * An accepted submission runs to the end iff the question index is in range
   * and the player is listed; when it throws, nothing is saved or sent and no
   * score changes.
   */
  lemma SubmitFaults(s: SessionRecord, pin: string, pid: Guid, answer: Option<string>,
                     timeTaken: Int32, now: Time, caller: ConnectionId)
    requires Accepts(s, pid)
    ensures var r := Submit(s, pin, pid, answer, timeTaken, now, caller);
      var index := s.currentQuestionIndex;
      && (r.fault.None? <==> 0 <= index < |s.questions| && FirstIndexWithId(s.players, pid).Some?)
      && (r.fault == Some(IndexOutOfRange) <==> !(0 <= index < |s.questions|))
      && (r.fault.Some? ==> r.pushes == [] && !r.saved && r.session.players == s.players)
  {
  }

  /** An accepted submission on a question in range records exactly one answer: the player's, with the points it earns. */
  lemma SubmitRecords(s: SessionRecord, pin: string, pid: Guid, answer: Option<string>,
                      timeTaken: Int32, now: Time, caller: ConnectionId)
    requires Accepts(s, pid) && 0 <= s.currentQuestionIndex < |s.questions|
    ensures var r := Submit(s, pin, pid, answer, timeTaken, now, caller);
      var index := s.currentQuestionIndex;
      var points := EvaluateAnswer(s.questions[index], answer, timeTaken);
      && AnswersFor(r.session, index) == AnswersFor(s, index)[pid := AnswerRecord(index, answer, points > 0, Some(now), points)]
      && r.session.isQuestionActive && r.session.currentQuestionIndex == index && r.session.questions == s.questions
  {
    SubmitShape(s, pin, pid, answer, timeTaken, now, caller);
  }

  /**
   * A submission that runs to the end adds the points earned to that player's
   * score (as `ScoreAdded` states, wrapping past the 32-bit range), so the
   * total of all scores grows by exactly the points when no wrap occurs; it
   * saves, and sends the three updates.
   */
  lemma SubmitScores(s: SessionRecord, pin: string, pid: Guid, answer: Option<string>,
                     timeTaken: Int32, now: Time, caller: ConnectionId)
    requires Accepts(s, pid) && 0 <= s.currentQuestionIndex < |s.questions| && FirstIndexWithId(s.players, pid).Some?
    ensures var r := Submit(s, pin, pid, answer, timeTaken, now, caller);
      var points := EvaluateAnswer(s.questions[s.currentQuestionIndex], answer, timeTaken);
      && r.saved && r.fault.None? && r.session.lastUpdatedAt == now
      && r.session.players == ScoreAdded(s.players, pid, points)
      && (var i := FirstIndexWithId(s.players, pid).value;
          MinInt32 <= s.players[i].score + points <= MaxInt32 ==> TotalScore(r.session.players) == TotalScore(s.players) + points)
      && |r.pushes| == 3 && r.pushes[2] == Push(Caller(caller), QuestionScoreIndividual(Some(points > 0), points))
  {
    ScoreAddedTotal(s.players, pid, EvaluateAnswer(s.questions[s.currentQuestionIndex], answer, timeTaken));
  }

  /** A player scores at most once per question: once its answer is in, a second submission is refused. */
  lemma SubmitTwiceScoresOnce(s: SessionRecord, pin: string, pid: Guid, a1: Option<string>, a2: Option<string>,
                              t1: Int32, t2: Int32, now1: Time, now2: Time, c1: ConnectionId, c2: ConnectionId)
    requires Submit(s, pin, pid, a1, t1, now1, c1).fault != Some(IndexOutOfRange)
    ensures var r := Submit(s, pin, pid, a1, t1, now1, c1);
      Submit(r.session, pin, pid, a2, t2, now2, c2) == Step(r.session, false, [], None)
  {
    var r := Submit(s, pin, pid, a1, t1, now1, c1);
    if Accepts(s, pid) {
      SubmitFaults(s, pin, pid, a1, t1, now1, c1);
      SubmitRecords(s, pin, pid, a1, t1, now1, c1);
      assert pid in AnswersFor(r.session, s.currentQuestionIndex);
    }
  }

  /**
   * While a question is open, its counter equals its number of records, and
   * an accepted submission keeps it so unless the question index is out of
   * range (the counter has then already gone up with nothing recorded).
   */
  lemma SubmitKeepsCountInStep(s: SessionRecord, pin: string, pid: Guid, answer: Option<string>,
                               timeTaken: Int32, now: Time, caller: ConnectionId)
    requires CountFor(s, s.currentQuestionIndex) == |AnswersFor(s, s.currentQuestionIndex)|
    ensures var r := Submit(s, pin, pid, answer, timeTaken, now, caller);
      r.fault != Some(IndexOutOfRange) <==>
        CountFor(r.session, s.currentQuestionIndex) == |AnswersFor(r.session, s.currentQuestionIndex)|
  {
    if Accepts(s, pid) {
      SubmitCounts(s, pin, pid, answer, timeTaken, now, caller);
      SubmitFaults(s, pin, pid, answer, timeTaken, now, caller);
      if 0 <= s.currentQuestionIndex < |s.questions| {
        SubmitRecords(s, pin, pid, answer, timeTaken, now, caller);
      }
    }
  }

  /** The reconnecting player that has answered finds its own record in the state it is sent. */
  lemma SubmitThenCurrentState(s: SessionRecord, pin: string, pid: Guid, answer: Option<string>,
                               timeTaken: Int32, now: Time, caller: ConnectionId)
    requires Accepts(s, pid) && 0 <= s.currentQuestionIndex < |s.questions|
    ensures var r := Submit(s, pin, pid, answer, timeTaken, now, caller);
      var points := EvaluateAnswer(s.questions[s.currentQuestionIndex], answer, timeTaken);
      CurrentState(Some(r.session), Some(pid)) ==
        ReceiveCurrentState(Some(s.questions[s.currentQuestionIndex]), s.currentQuestionIndex,
                            Some(AnswerRecord(s.currentQuestionIndex, answer, points > 0, Some(now), points)))
      && AnswerCount(Some(r.session), s.currentQuestionIndex) == AnswerCount(Some(s), s.currentQuestionIndex) + 1
  {
    SubmitRecords(s, pin, pid, answer, timeTaken, now, caller);
  }

  lemma ScoreAddedZero(players: seq<Player>, id: Guid)
    ensures ScoreAdded(players, id, 0) == players
  {
    match FirstIndexWithId(players, id)
    case None =>
    case Some(i) =>
      assert players[i].(score := players[i].score + 0) == players[i];
  }

  /** Registering "no answer" writes the no-answer record and only that, besides the time stamp. */
  lemma RegisterNoAnswer(s: SessionRecord, pid: Guid, index: int, now: Time)
    requires index in s.answersByQuestion
    ensures RegisterAnswer(s, pid, index, None, false, 0, now) ==
      s.(answersByQuestion := s.answersByQuestion[index := s.answersByQuestion[index][pid := NoAnswer(index, now)]],
         lastUpdatedAt := now)
  {
    ScoreAddedZero(s.players, pid);
  }

  /** The placeholder record the handler writes first is overwritten by `RegisterAnswer`, so it leaves no trace. */
  lemma PlaceholderOverwritten(s: SessionRecord, pid: Guid, index: int, placeholder: AnswerRecord, now: Time)
    requires index in s.answersByQuestion
    ensures var t := s.(answersByQuestion := s.answersByQuestion[index := s.answersByQuestion[index][pid := placeholder]]);
      RegisterAnswer(t, pid, index, None, false, 0, now) == RegisterAnswer(s, pid, index, None, false, 0, now)
  {
    var t := s.(answersByQuestion := s.answersByQuestion[index := s.answersByQuestion[index][pid := placeholder]]);
    RegisterNoAnswer(s, pid, index, now);
    RegisterNoAnswer(t, pid, index, now);
    assert s.answersByQuestion[index][pid := placeholder][pid := NoAnswer(index, now)] == s.answersByQuestion[index][pid := NoAnswer(index, now)];
    assert t.answersByQuestion[index := t.answersByQuestion[index][pid := NoAnswer(index, now)]]
        == s.answersByQuestion[index := s.answersByQuestion[index][pid := NoAnswer(index, now)]];
  }

  /** One more player in the back-fill loop. */
  lemma BackFillStep(s: SessionRecord, players: seq<Player>, i: nat, index: int,
                     connections: map<Guid, ConnectionId>, now: Time)
    requires index in s.answersByQuestion && i < |players|
    ensures var e := BackFill(s, players[..i], index, connections, now);
      BackFill(s, players[..i + 1], index, connections, now) ==
        Ended(Filled(e.session, players[i], index, now), e.pushes + FillPushes(e.session, players[i], index, connections))
  {
    assert players[..i + 1][..i] == players[..i];
  }

  /** `BackFill` changes only the records of question `index` and the time stamp. */
  lemma {:induction false} BackFillFrame(s: SessionRecord, players: seq<Player>, index: int,
                                         connections: map<Guid, ConnectionId>, now: Time)
    requires index in s.answersByQuestion
    ensures var e := BackFill(s, players, index, connections, now);
      && e.session == s.(answersByQuestion := e.session.answersByQuestion, lastUpdatedAt := e.session.lastUpdatedAt)
      && e.session.answersByQuestion.Keys == s.answersByQuestion.Keys
      && forall k :: k in s.answersByQuestion && k != index ==> e.session.answersByQuestion[k] == s.answersByQuestion[k]
    decreases |players|
  {
    if players != [] {
      var front := players[..|players| - 1];
      BackFillFrame(s, front, index, connections, now);
      var e := BackFill(s, front, index, connections, now);
      RegisterNoAnswer(e.session, players[|players| - 1].id, index, now);
    }
  }

  /** The records `BackFill` leaves for question `index`: every listed player has one; earlier ones are kept, new ones say "no answer". */
  ghost predicate RecordsFilled(before: map<Guid, AnswerRecord>, after: map<Guid, AnswerRecord>,
                                players: seq<Player>, index: int, now: Time)
  {
    && (forall p :: p in players ==> p.id in after)
    && (forall pid :: pid in before ==> pid in after && after[pid] == before[pid])
    && (forall pid :: pid in after && pid !in before ==> after[pid] == NoAnswer(index, now))
    && (forall pid :: pid in after && pid !in before ==> exists p :: p in players && p.id == pid)
  }

  lemma {:induction false} BackFillRecords(s: SessionRecord, players: seq<Player>, index: int,
                                           connections: map<Guid, ConnectionId>, now: Time)
    requires index in s.answersByQuestion
    ensures RecordsFilled(s.answersByQuestion[index], BackFill(s, players, index, connections, now).session.answersByQuestion[index],
                          players, index, now)
    decreases |players|
  {
    if players != [] {
      var front := players[..|players| - 1];
      var p := players[|players| - 1];
      BackFillRecords(s, front, index, connections, now);
      var e := BackFill(s, front, index, connections, now);
      RegisterNoAnswer(e.session, p.id, index, now);
      assert forall x :: x in players ==> x in front || x == p;
    }
  }

  /** The pushes of `BackFill` are exactly one per connected listed player that had no record. */
  lemma {:induction false} BackFillPushes(s: SessionRecord, players: seq<Player>, index: int,
                                          connections: map<Guid, ConnectionId>, now: Time)
    requires index in s.answersByQuestion
    ensures forall m :: m in BackFill(s, players, index, connections, now).pushes <==>
      exists p :: p in players && p.id !in s.answersByQuestion[index] && p.id in connections && m == NoAnswerPush(p.id, connections)
    decreases |players|
  {
    if players != [] {
      var front := players[..|players| - 1];
      var p := players[|players| - 1];
      BackFillPushes(s, front, index, connections, now);
      BackFillRecords(s, front, index, connections, now);
      var e := BackFill(s, front, index, connections, now);
      RegisterNoAnswer(e.session, p.id, index, now);
      assert forall x :: x in players ==> x in front || x == p;
      assert forall x :: x in front ==> x in players;
      if p.id in e.session.answersByQuestion[index] && p.id !in s.answersByQuestion[index] && p.id in connections {
        // p repeats the id of an earlier listed player, whose push is already there
        var q :| q in front && q.id == p.id;
        assert NoAnswerPush(p.id, connections) in e.pushes;
      }
    }
  }

  /**
   * Ending a question closes it and gives every listed player a record for it:
   * answers already in stay untouched, the rest get the no-answer record, and
   * exactly the connected silent players are told they scored nothing. Scores,
   * counters and other questions are unchanged, and later submissions are refused.
   */
  lemma EndQuestionEffect(s: SessionRecord, connections: map<Guid, ConnectionId>, now: Time, late: Guid)
    ensures var r := EndQuestion(s, connections, now);
      var index := s.currentQuestionIndex;
      var before := AnswersFor(s, index);
      var after := AnswersFor(r.session, index);
      && r.saved && r.fault.None? && !r.session.isQuestionActive && !Accepts(r.session, late)
      && r.session.players == s.players && r.session.answerCountsByQuestion == s.answerCountsByQuestion
      && r.session.currentQuestionIndex == index
      && (forall p :: p in s.players ==> p.id in after)
      && (forall pid :: pid in before ==> pid in after && after[pid] == before[pid])
      && (forall pid :: pid in after && pid !in before ==> after[pid] == NoAnswer(index, now))
      && (forall k :: k != index ==> AnswersFor(r.session, k) == AnswersFor(s, k))
      && (forall p :: p in s.players && p.id !in before && p.id in connections ==>
            NoAnswerPush(p.id, connections) in r.pushes)
  {
    var index := s.currentQuestionIndex;
    var closed := s.(isQuestionActive := false, answersByQuestion := EnsureAnswers(s.answersByQuestion, index));
    BackFillFrame(closed, s.players, index, connections, now);
    BackFillRecords(closed, s.players, index, connections, now);
    BackFillPushes(closed, s.players, index, connections, now);
  }

  /** Back-filled records name no option, so ending a question leaves its results as they were. */
  lemma EndQuestionKeepsResults(s: SessionRecord, connections: map<Guid, ConnectionId>, now: Time)
    ensures var r := EndQuestion(s, connections, now);
      Tally(AnswersFor(r.session, s.currentQuestionIndex)) == Tally(AnswersFor(s, s.currentQuestionIndex))
  {
    var index := s.currentQuestionIndex;
    var r := EndQuestion(s, connections, now);
    EndQuestionEffect(s, connections, now, EmptyGuid);
    var a := AnswersFor(s, index);
    var b := AnswersFor(r.session, index);
    forall k ensures Voters(b, k) == Voters(a, k) {
      forall pid | pid in b && pid !in a ensures OptionOf(b[pid]).None? {
      }
    }
    TallyKeys(a, b);
  }
}
