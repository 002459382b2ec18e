/**
 * The real-time hub: handlers the admin and player clients invoke. Each
 * handler finds the session by pin, changes it in place as the matching
 * `Lifecycle` function says, saves it through the session store and appends
 * what it sends to `outbox`. The player-to-connection table is `connections`.
 */
module Hub {
  import opened Wrappers
  import opened Numbers
  import opened Models
  import opened Scoring
  import opened SessionStore
  import opened Lifecycle

  /** The counting loop of `Admin_SendQuestionResults`, over the answers in any order. */
  method CountOptions(answers: map<Guid, AnswerRecord>) returns (counts: map<int, int>)
    ensures counts == Tally(answers)
  {
    counts := map[];
    var pending := answers.Keys;
    var done: map<Guid, AnswerRecord> := map[];
    assert Tally(done) == map[];
    while pending != {}
      invariant pending <= answers.Keys
      invariant done.Keys == answers.Keys - pending
      invariant forall pid :: pid in done ==> done[pid] == answers[pid]
      invariant counts == Tally(done)
      decreases pending
    {
      var pid :| pid in pending;
      TallyVote(done, pid, answers[pid]);
      counts := AddVote(counts, ParseAnswer(answers[pid].answer));
      done := done[pid := answers[pid]];
      pending := pending - {pid};
    }
    assert done == answers;
  }

  lemma AppendAssoc(a: seq<Push>, b: seq<Push>, c: seq<Push>)
    ensures (a + b) + c == a + (b + c)
  {
  }

  /** One answer counted: an unparsable answer is skipped, a parsed option gets an entry of 0 if it has none, then one more. */
  method AddVote(counts: map<int, int>, option: Option<Int32>) returns (r: map<int, int>)
    ensures r == Vote(counts, option)
  {
    r := counts;
    if option.Some? {
      var k := option.value as int;
      if k !in r {
        r := r[k := 0];
      }
      r := r[k := r[k] + 1];
    }
  }

  /** Creates the records map and counter of question `index` where missing (both question-showing handlers). */
  method Prepare(s: GameSession, index: int)
    modifies s`answersByQuestion, s`answerCountsByQuestion
    ensures s.Snapshot() == Prepared(old(s.Snapshot()), index)
  {
    s.answersByQuestion := EnsureAnswers(s.answersByQuestion, index);
    s.answerCountsByQuestion := EnsureCount(s.answerCountsByQuestion, index);
  }

  /** The counting stage of `Player_SubmitAnswer`. */
  method Count(s: GameSession, index: int)
    modifies s`answersByQuestion, s`answerCountsByQuestion
    ensures s.Snapshot() == Counted(old(s.Snapshot()), index)
  {
    s.answersByQuestion := EnsureAnswers(s.answersByQuestion, index);
    var counts := EnsureCount(s.answerCountsByQuestion, index);
    s.answerCountsByQuestion := counts[index := counts[index] + 1];
  }

  /** The recording stage of `Player_SubmitAnswer`. */
  method Record(s: GameSession, index: int, playerId: Guid, record: AnswerRecord)
    requires index in s.answersByQuestion
    modifies s`answersByQuestion
    ensures s.Snapshot() == Recorded(old(s.Snapshot()), index, playerId, record)
  {
    s.answersByQuestion := s.answersByQuestion[index := s.answersByQuestion[index][playerId := record]];
  }

  /** `Players.First(p => p.Id == playerId).Score += points`; `First` finding nobody throws, changing nothing. */
  method Award(s: GameSession, playerId: Guid, points: Int32) returns (found: bool)
    modifies s`players
    ensures found == FirstIndexWithId(old(s.players), playerId).Some?
    ensures s.Snapshot() == old(s.Snapshot()).(players := ScoreAdded(old(s.players), playerId, points))
  {
    var i := FirstIndexWithId(s.players, playerId);
    if i.None? {
      return false;
    }
    s.players := s.players[i.value := s.players[i.value].(score := Add32(s.players[i.value].score, points))];
    return true;
  }

  class QuizHub {
    const sessions: SessionManager
    /** `_connections`: each player's current connection. */
    var connections: map<Guid, ConnectionId>
    /** Everything sent to clients, in order. */
    var outbox: seq<Push>

    constructor (sessions: SessionManager)
      ensures this.sessions == sessions && connections == map[] && outbox == []
    {
      this.sessions := sessions;
      connections := map[];
      outbox := [];
    }

    /** The session the pin finds, as a value. */
    ghost function SessionOf(pin: string): Option<SessionRecord>
      reads sessions, sessions.SessionAt(pin)
    {
      if pin in sessions.byPin then Some(sessions.byPin[pin].Snapshot()) else None
    }

    /** `OnConnectedAsync`: a connection that carries a valid player id becomes that player's connection. */
    method OnConnected(playerId: Option<Guid>, connection: ConnectionId)
      modifies this`connections
      ensures connections == if playerId.Some? then old(connections)[playerId.value := connection] else old(connections)
    {
      if playerId.Some? {
        connections := connections[playerId.value := connection];
      }
    }

    /**
     * `OnDisconnectedAsync`: one player bound to the closing connection, if any,
     * loses its binding; which one, when several share it, is the table's order.
     */
    method OnDisconnected(connection: ConnectionId)
      modifies this`connections
      ensures (forall pid :: pid in old(connections) ==> old(connections)[pid] != connection) ==> connections == old(connections)
      ensures (exists pid :: pid in old(connections) && old(connections)[pid] == connection) ==>
        exists pid :: pid in old(connections) && old(connections)[pid] == connection && connections == old(connections) - {pid}
    {
      if pid :| pid in connections && connections[pid] == connection {
        connections := connections - {pid};
      }
    }

    /** `Admin_SendLoadingWithNumber`: the players see the waiting screen with the question number. */
    method SendLoadingWithNumber(pin: string, questionNumber: Int32)
      modifies this`outbox
      ensures outbox == old(outbox) + [Push(Group(pin), ReceiveLoadingWithNumber(questionNumber))]
    {
      outbox := outbox + [Push(Group(pin), ReceiveLoadingWithNumber(questionNumber))];
    }

    /** `Admin_SendLoadingToAll`: the players see the plain waiting screen. */
    method SendLoadingToAll(pin: string)
      modifies this`outbox
      ensures outbox == old(outbox) + [Push(Group(pin), ReceiveLoading)]
    {
      outbox := outbox + [Push(Group(pin), ReceiveLoading)];
    }

    /** `Admin_SendCurrentQuestion` (the question argument is not used): see `Present`. */
    method SendCurrentQuestion(pin: string, question: Question, now: Time) returns (fault: Option<Fault>)
      requires sessions.Valid()
      modifies this`outbox, sessions`store, sessions.SessionAt(pin)
      ensures sessions.Valid()
      ensures pin !in sessions.byPin ==> outbox == old(outbox) && sessions.store == old(sessions.store) && fault.None?
      ensures pin in sessions.byPin ==>
        var s := sessions.byPin[pin];
        var step := Present(old(s.Snapshot()), pin, now);
        && s.Snapshot() == step.session && outbox == old(outbox) + step.pushes && fault == step.fault
        && sessions.store == old(sessions.store)[s.sessionId := step.session]
    {
      var found := sessions.GetSessionByPin(pin);
      if found.None? {
        return None;
      }
      var s := found.value;
      ghost var before := s.Snapshot();
      var index := s.currentQuestionIndex;
      ghost var saved := sessions.store;
      Prepare(s, index);
      s.isQuestionActive := true;
      sessions.SaveSession(s, now);
      ghost var step := Present(before, pin, now);
      assert s.Snapshot() == step.session;
      assert sessions.store == saved[s.sessionId := step.session];
      if !(0 <= index < |s.questions|) {
        return Some(IndexOutOfRange);
      }
      var pushes := [Push(Group(pin), ReceiveQuestion(s.questions[index])),
                     Push(Group(AdminGroup(pin)), UpdateAnswerCount(|s.answersByQuestion[index]|))];
      assert pushes == step.pushes;
      outbox := outbox + pushes;
      return None;
    }

    /** `Admin_NavigateToQuestion`: see `Navigate`. */
    method NavigateToQuestion(pin: string, target: Int32, now: Time) returns (fault: Option<Fault>)
      requires sessions.Valid()
      modifies this`outbox, sessions`store, sessions.SessionAt(pin)
      ensures sessions.Valid()
      ensures pin !in sessions.byPin ==> outbox == old(outbox) && sessions.store == old(sessions.store) && fault.None?
      ensures pin in sessions.byPin ==>
        var s := sessions.byPin[pin];
        var step := Navigate(old(s.Snapshot()), pin, target, now);
        && s.Snapshot() == step.session && outbox == old(outbox) + step.pushes && fault == step.fault
        && sessions.store == old(sessions.store)[s.sessionId := step.session]
    {
      var found := sessions.GetSessionByPin(pin);
      if found.None? {
        return None;
      }
      var s := found.value;
      ghost var before := s.Snapshot();
      ghost var saved := sessions.store;
      s.currentQuestionIndex := target;
      Prepare(s, target);
      s.isQuestionActive := false;
      sessions.SaveSession(s, now);
      ghost var step := Navigate(before, pin, target, now);
      assert s.Snapshot() == step.session;
      assert sessions.store == saved[s.sessionId := step.session];
      if !(0 <= target < |s.questions|) {
        return Some(IndexOutOfRange);
      }
      var pushes := [Push(Group(pin), ReceiveQuestion(s.questions[target])),
                     Push(Group(AdminGroup(pin)), UpdateAnswerCount(|s.answersByQuestion[target]|))];
      assert pushes == step.pushes;
      outbox := outbox + pushes;
      return None;
    }

    /** `Player_SubmitAnswer`: a null pin or an unknown one does nothing; otherwise see `Submit`. */
    method SubmitAnswer(pin: Option<string>, playerId: Guid, answer: Option<string>, timeTaken: Int32,
                        now: Time, caller: ConnectionId) returns (fault: Option<Fault>)
      requires sessions.Valid()
      modifies this`outbox, sessions`store, if pin.Some? then sessions.SessionAt(pin.value) else {}
      ensures sessions.Valid()
      ensures (pin.None? || pin.value !in sessions.byPin) ==>
        outbox == old(outbox) && sessions.store == old(sessions.store) && fault.None?
      ensures pin.Some? && pin.value in sessions.byPin ==>
        var s := sessions.byPin[pin.value];
        var step := Submit(old(s.Snapshot()), pin.value, playerId, answer, timeTaken, now, caller);
        && s.Snapshot() == step.session && outbox == old(outbox) + step.pushes && fault == step.fault
        && sessions.store == if step.saved then old(sessions.store)[s.sessionId := step.session] else old(sessions.store)
    {
      if pin.None? {
        return None;
      }
      var session := sessions.GetSessionByPin(pin.value);
      if session.None? {
        return None;
      }
      fault := SubmitTo(session.value, pin.value, playerId, answer, timeTaken, now, caller);
    }

    /** `Player_SubmitAnswer` once the session is found. */
    method SubmitTo(s: GameSession, pin: string, playerId: Guid, answer: Option<string>, timeTaken: Int32,
                    now: Time, caller: ConnectionId) returns (fault: Option<Fault>)
      requires sessions.Valid()
      modifies this`outbox, sessions`store, s
      ensures sessions.Valid()
      ensures var step := Submit(old(s.Snapshot()), pin, playerId, answer, timeTaken, now, caller);
        && s.Snapshot() == step.session && outbox == old(outbox) + step.pushes && fault == step.fault
        && sessions.store == if step.saved then old(sessions.store)[s.sessionId := step.session] else old(sessions.store)
    {
      ghost var before := s.Snapshot();
      if !s.isQuestionActive {
        SubmitRefused(before, pin, playerId, answer, timeTaken, now, caller);
        return None;
      }
      var index := s.currentQuestionIndex;
      if index in s.answersByQuestion && playerId in s.answersByQuestion[index] {
        SubmitRefused(before, pin, playerId, answer, timeTaken, now, caller);
        return None;
      }
      Count(s, index);
      if !(0 <= index < |s.questions|) {
        SubmitOutOfRange(before, pin, playerId, answer, timeTaken, now, caller);
        return Some(IndexOutOfRange);
      }
      fault := ScoreOn(s, pin, playerId, answer, timeTaken, now, caller, before);
      SubmitInRange(before, pin, playerId, answer, timeTaken, now, caller);
    }

    /**
     * The rest of `Player_SubmitAnswer` once the answer is accepted and counted
     * and the index is in range: record, award, and, when the player is
     * listed, save and send.
     */
    method ScoreOn(s: GameSession, pin: string, playerId: Guid, answer: Option<string>, timeTaken: Int32,
                   now: Time, caller: ConnectionId, ghost before: SessionRecord) returns (fault: Option<Fault>)
      requires sessions.Valid()
      requires 0 <= before.currentQuestionIndex < |before.questions|
      requires s.Snapshot() == Counted(before, before.currentQuestionIndex)
      modifies this`outbox, sessions`store, s
      ensures sessions.Valid()
      ensures var index := before.currentQuestionIndex;
        var points := EvaluateAnswer(before.questions[index], answer, timeTaken);
        var recorded := Recorded(Counted(before, index), index, playerId, AnswerRecord(index, answer, points > 0, Some(now), points));
        var scored := recorded.(players := ScoreAdded(before.players, playerId, points), lastUpdatedAt := now);
        if FirstIndexWithId(before.players, playerId).None? then
          s.Snapshot() == recorded && fault == Some(NoMatchingPlayer) && outbox == old(outbox) && sessions.store == old(sessions.store)
        else
          && s.Snapshot() == scored && fault.None? && outbox == old(outbox) + SubmitPushes(scored, pin, index, points, caller)
          && sessions.store == old(sessions.store)[s.sessionId := scored]
    {
      var index := s.currentQuestionIndex;
      var points := EvaluateAnswer(s.questions[index], answer, timeTaken);
      var record := AnswerRecord(index, answer, points > 0, Some(now), points);
      Record(s, index, playerId, record);
      var found := Award(s, playerId, points);
      if !found {
        return Some(NoMatchingPlayer);
      }
      Publish(s, pin, index, points, caller, now);
      return None;
    }

    /** A scored submission saves the session, then sends the answer count, the ranking and the caller's result. */
    method Publish(s: GameSession, pin: string, index: int, points: Int32, caller: ConnectionId, now: Time)
      requires sessions.Valid()
      modifies this`outbox, sessions`store, s`lastUpdatedAt
      ensures sessions.Valid()
      ensures s.Snapshot() == old(s.Snapshot()).(lastUpdatedAt := now)
      ensures sessions.store == old(sessions.store)[s.sessionId := s.Snapshot()]
      ensures outbox == old(outbox) + SubmitPushes(s.Snapshot(), pin, index, points, caller)
    {
      sessions.SaveSession(s, now);
      var pushes := SubmitPushes(s.Snapshot(), pin, index, points, caller);
      outbox := outbox + pushes;
    }

      /** `Admin_SendQuestionEnded`: an unknown pin does nothing; otherwise see `EndQuestion`. */
    method SendQuestionEnded(pin: string, now: Time)
      requires sessions.Valid()
      modifies this`outbox, sessions`store, sessions.SessionAt(pin)
      ensures sessions.Valid()
      ensures pin !in sessions.byPin ==> outbox == old(outbox) && sessions.store == old(sessions.store)
      ensures pin in sessions.byPin ==>
        var s := sessions.byPin[pin];
        var step := EndQuestion(old(s.Snapshot()), connections, now);
        && s.Snapshot() == step.session && outbox == old(outbox) + step.pushes
        && sessions.store == old(sessions.store)[s.sessionId := step.session]
    {
      var found := sessions.GetSessionByPin(pin);
      if found.None? {
        return;
      }
      EndOn(found.value, pin, now);
    }

    /** `Admin_SendQuestionEnded` once the session `s` is found under `pin`. */
    method EndOn(s: GameSession, pin: string, now: Time)
      requires sessions.Valid() && pin in sessions.byPin && sessions.byPin[pin] == s
      modifies this`outbox, sessions`store, s
      ensures sessions.Valid()
      ensures var step := EndQuestion(old(s.Snapshot()), connections, now);
        && s.Snapshot() == step.session && outbox == old(outbox) + step.pushes
        && sessions.store == old(sessions.store)[s.sessionId := step.session]
    {
      ghost var before := s.Snapshot();
      var index := s.currentQuestionIndex;
      s.isQuestionActive := false;
      s.answersByQuestion := EnsureAnswers(s.answersByQuestion, index);
      assert s.Snapshot() == before.(isQuestionActive := false, answersByQuestion := EnsureAnswers(before.answersByQuestion, index));
      FillAll(s, pin, s.players, index, now);
      ghost var stored := sessions.store;
      sessions.SaveSession(s, now);
      SameStoreAfterWrite(stored, old(sessions.store), s.sessionId, s.Snapshot());
    }

    /** The loop of `Admin_SendQuestionEnded` over `players`: see `BackFill`. */
    method FillAll(s: GameSession, pin: string, players: seq<Player>, index: int, now: Time)
      requires sessions.Valid() && pin in sessions.byPin && sessions.byPin[pin] == s
      requires index in s.answersByQuestion
      modifies this`outbox, sessions`store, s
      ensures sessions.Valid()
      ensures var e := BackFill(old(s.Snapshot()), players, index, connections, now);
        s.Snapshot() == e.session && outbox == old(outbox) + e.pushes
      ensures sessions.store - {s.sessionId} == old(sessions.store) - {s.sessionId}
    {
      ghost var start := s.Snapshot();
      var i := 0;
      while i < |players|
        invariant 0 <= i <= |players|
        invariant sessions.Valid()
        invariant s.Snapshot() == BackFill(start, players[..i], index, connections, now).session
        invariant outbox == old(outbox) + BackFill(start, players[..i], index, connections, now).pushes
        invariant sessions.store - {s.sessionId} == old(sessions.store) - {s.sessionId}
      {
        ghost var e := BackFill(start, players[..i], index, connections, now);
        BackFillStep(start, players, i, index, connections, now);
        FillOne(s, pin, players[i], index, now);
        AppendAssoc(old(outbox), e.pushes, FillPushes(e.session, players[i], index, connections));
        i := i + 1;
      }
      assert players[..i] == players;
    }

    method FillOne(s: GameSession, pin: string, p: Player, index: int, now: Time)
      requires sessions.Valid() && pin in sessions.byPin && sessions.byPin[pin] == s
      requires index in s.answersByQuestion
      modifies this`outbox, sessions`store, s
      ensures sessions.Valid()
      ensures s.Snapshot() == Filled(old(s.Snapshot()), p, index, now)
      ensures outbox == old(outbox) + FillPushes(old(s.Snapshot()), p, index, connections)
      ensures sessions.store - {s.sessionId} == old(sessions.store) - {s.sessionId}
    {
      if p.id in s.answersByQuestion[index] {
        return;
      }
      ghost var before := s.Snapshot();
      ghost var stored := sessions.store;
      var placeholder := AnswerRecord(index, None, false, None, 0);
      PlaceholderOverwritten(before, p.id, index, placeholder, now);
      s.answersByQuestion := s.answersByQuestion[index := s.answersByQuestion[index][p.id := placeholder]];
      sessions.RegisterPlayerAnswer(pin, p.id, index, None, false, 0, now);
      StoreWriteElsewhere(stored, s.sessionId, s.Snapshot());
      if p.id in connections {
        outbox := outbox + [Push(Client(connections[p.id]), QuestionScoreIndividual(None, 0))];
      }
    }

    /** `Admin_SendQuestionResults`: an unknown pin does nothing; otherwise see `Results`. */
    method SendQuestionResults(pin: string) returns (fault: Option<Fault>)
      modifies this`outbox
      ensures pin !in sessions.byPin ==> outbox == old(outbox) && fault.None?
      ensures pin in sessions.byPin ==>
        var step := Results(sessions.byPin[pin].Snapshot(), pin);
        outbox == old(outbox) + step.pushes && fault == step.fault
    {
      var found := sessions.GetSessionByPin(pin);
      if found.None? {
        return None;
      }
      var s := found.value;
      var index := s.currentQuestionIndex;
      var answers := if index in s.answersByQuestion then s.answersByQuestion[index] else map[];
      var counts := CountOptions(answers);
      if !(0 <= index < |s.questions|) {
        return Some(IndexOutOfRange);
      }
      outbox := outbox + [Push(Group(AdminGroup(pin)), ReceiveQuestionResults(counts, s.questions[index].correctOptionIndex as int))];
      return None;
    }

    /** `Admin_RequestCurrentAnswerCount`: see `AnswerCount`. */
    method RequestCurrentAnswerCount(pin: string, index: Int32) returns (n: int)
      ensures n == AnswerCount(SessionOf(pin), index)
    {
      var found := sessions.GetSessionByPin(pin);
      if found.None? {
        return 0;
      }
      var s := found.value;
      if index !in s.answersByQuestion {
        return 0;
      }
      return |s.answersByQuestion[index]|;
    }

    /** `Player_RequestCurrentState`: the caller is sent `CurrentState`. */
    method RequestCurrentState(pin: string, playerId: Option<Guid>, caller: ConnectionId)
      modifies this`outbox
      ensures outbox == old(outbox) + [Push(Caller(caller), CurrentState(SessionOf(pin), playerId))]
    {
      var found := sessions.GetSessionByPin(pin);
      var message;
      if found.None? {
        message := SessionNotFound;
      } else if !found.value.isQuestionActive {
        message := ReceiveLoadingWithNumber(found.value.currentQuestionIndex);
      } else {
        var s := found.value;
        var index := s.currentQuestionIndex;
        var question := if 0 <= index < |s.questions| then Some(s.questions[index]) else None;
        var record := None;
        if playerId.Some? && index in s.answersByQuestion && playerId.value in s.answersByQuestion[index] {
          record := Some(s.answersByQuestion[index][playerId.value]);
        }
        message := ReceiveCurrentState(question, index, record);
      }
      outbox := outbox + [Push(Caller(caller), message)];
    }

    /** `UpdatePlayerScoreIndividualAsync`: each connected player, in list order, is sent its score. */
    method UpdatePlayerScoreIndividual(players: seq<Player>)
      modifies this`outbox
      ensures outbox == old(outbox) + ScorePushes(players, connections)
    {
      var i := 0;
      while i < |players|
        invariant 0 <= i <= |players|
        invariant outbox == old(outbox) + ScorePushes(players[..i], connections)
      {
        assert players[..i + 1][..i] == players[..i];
        var p := players[i];
        if p.id in connections {
          outbox := outbox + [Push(Client(connections[p.id]), FinalScoreIndividual(p.score))];
        }
        i := i + 1;
      }
      assert players[..i] == players;
    }

    /** `Admin_RequestCurrentRanking`: the ranking, after sending every connected player its score; empty for an unknown pin. */
    method RequestCurrentRanking(pin: string) returns (ranking: seq<RankingEntry>)
      modifies this`outbox
      ensures pin !in sessions.byPin ==> ranking == [] && outbox == old(outbox)
      ensures pin in sessions.byPin ==>
        var s := sessions.byPin[pin];
        ranking == CalculateRanking(s.gamePin, s.players) && outbox == old(outbox) + ScorePushes(s.players, connections)
    {
      var found := sessions.GetSessionByPin(pin);
      if found.None? {
        return [];
      }
      var s := found.value;
      ranking := CalculateRanking(s.gamePin, s.players);
      UpdatePlayerScoreIndividual(s.players);
    }

    /** `Admin_SendCurrentRanking`: as `RequestCurrentRanking`, and the admins are sent the ranking too. */
    method SendCurrentRanking(pin: string) returns (ranking: seq<RankingEntry>)
      modifies this`outbox
      ensures pin !in sessions.byPin ==> ranking == [] && outbox == old(outbox)
      ensures pin in sessions.byPin ==>
        var s := sessions.byPin[pin];
        && ranking == CalculateRanking(s.gamePin, s.players)
        && outbox == old(outbox) + ScorePushes(s.players, connections) + [Push(Group(AdminGroup(pin)), ReceiveCurrentRanking(ranking))]
    {
      var found := sessions.GetSessionByPin(pin);
      if found.None? {
        return [];
      }
      var s := found.value;
      ranking := CalculateRanking(s.gamePin, s.players);
      UpdatePlayerScoreIndividual(s.players);
      outbox := outbox + [Push(Group(AdminGroup(pin)), ReceiveCurrentRanking(ranking))];
    }
  }
}
