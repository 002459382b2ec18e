/**
 * The session store: live sessions indexed by session id and by game pin
 * (both indexes referring to the same objects), backed by a durable store of
 * session records keyed by session id.
 */
module SessionStore {
  import opened Wrappers
  import opened Numbers
  import opened Models

  /** The position of the first player with id `id`, as `FirstOrDefault(p => p.Id == id)` finds it. */
  function FirstIndexWithId(players: seq<Player>, id: Guid): (r: Option<nat>)
    ensures r.Some? ==> (r.value < |players| && players[r.value].id == id &&
                         forall j :: 0 <= j < r.value ==> players[j].id != id)
    ensures r.None? ==> forall j :: 0 <= j < |players| ==> players[j].id != id
  {
    if players == [] then None
    else if players[0].id == id then Some(0)
    else match FirstIndexWithId(players[1..], id)
      case None => None
      case Some(i) => Some(i + 1)
  }

  /**
   * The players after `AddScore`: the first player with that id gains `points`,
   * in C#'s unchecked 32-bit addition. The length, every id and name, and every
   * player with another id stay as they were.
   */
  function ScoreAdded(players: seq<Player>, id: Guid, points: Int32): (r: seq<Player>)
    ensures |r| == |players|
    ensures forall j :: 0 <= j < |players| ==> r[j].id == players[j].id && r[j].name == players[j].name
    ensures forall j :: 0 <= j < |players| && players[j].id != id ==> r[j] == players[j]
    ensures FirstIndexWithId(players, id).None? ==> r == players
    ensures FirstIndexWithId(players, id).Some? ==>
      var i := FirstIndexWithId(players, id).value;
      && r[i] == players[i].(score := Add32(players[i].score, points))
      && forall j :: 0 <= j < |players| && j != i ==> r[j] == players[j]
  {
    match FirstIndexWithId(players, id)
    case None => players
    case Some(i) => players[i := players[i].(score := Add32(players[i].score, points))]
  }

  /** The sum of all players' scores. */
  function TotalScore(players: seq<Player>): int {
    if players == [] then 0 else players[0].score + TotalScore(players[1..])
  }

  lemma {:induction false} TotalScoreUpdate(players: seq<Player>, i: nat, p: Player)
    requires i < |players|
    ensures TotalScore(players[i := p]) == TotalScore(players) - players[i].score + p.score
  {
    if i > 0 {
      TotalScoreUpdate(players[1..], i - 1, p);
      assert players[i := p][1..] == players[1..][i - 1 := p];
    }
  }

  /**
   * The total of all scores moves by exactly the change in the one player
   * `AddScore` touches, which is `points` when the sum fits in 32 bits.
   */
  lemma ScoreAddedTotal(players: seq<Player>, id: Guid, points: Int32)
    ensures var r := ScoreAdded(players, id, points);
      && (FirstIndexWithId(players, id).None? ==> TotalScore(r) == TotalScore(players))
      && (FirstIndexWithId(players, id).Some? ==>
            var i := FirstIndexWithId(players, id).value;
            && TotalScore(r) == TotalScore(players) - players[i].score + r[i].score
            && (MinInt32 <= players[i].score + points <= MaxInt32 ==> TotalScore(r) == TotalScore(players) + points))
  {
    match FirstIndexWithId(players, id)
    case None =>
    case Some(i) =>
      TotalScoreUpdate(players, i, players[i].(score := Add32(players[i].score, points)));
  }

  /** The per-question player map `RegisterPlayerAnswer` and the hub create on first use. */
  function EnsureAnswers(book: AnswerBook, index: int): (r: AnswerBook)
    ensures index in r && r.Keys == book.Keys + {index}
    ensures forall k :: k in book ==> r[k] == book[k]
    ensures index !in book ==> r[index] == map[]
  {
    if index in book then book else book[index := map[]]
  }

  /**
   * `RegisterPlayerAnswer` on a session found by pin: the record for
   * (question, player) is written over whatever was there, the player's score
   * gains the points, and the save stamps the time.
   */
  function RegisterAnswer(s: SessionRecord, playerId: Guid, questionIndex: int, answer: Option<string>,
                          isCorrect: bool, points: Int32, now: Time): (r: SessionRecord)
    ensures r == s.(answersByQuestion := r.answersByQuestion, players := r.players, lastUpdatedAt := now)
    ensures questionIndex in r.answersByQuestion
    ensures playerId in r.answersByQuestion[questionIndex]
    ensures r.answersByQuestion[questionIndex][playerId] == AnswerRecord(questionIndex, answer, isCorrect, Some(now), points)
    ensures |r.players| == |s.players|
  {
    var book := EnsureAnswers(s.answersByQuestion, questionIndex);
    var record := AnswerRecord(questionIndex, answer, isCorrect, Some(now), points);
    s.(answersByQuestion := book[questionIndex := book[questionIndex][playerId := record]],
       players := ScoreAdded(s.players, playerId, points),
       lastUpdatedAt := now)
  }

  /**
   * Registering writes exactly one record and touches nothing else: there is
   * no duplicate check, so a second registration for the same player and
   * question replaces the record and adds the points again.
   */
  lemma RegisterAnswerEffect(s: SessionRecord, playerId: Guid, questionIndex: int, answer: Option<string>,
                             isCorrect: bool, points: Int32, now: Time)
    ensures var r := RegisterAnswer(s, playerId, questionIndex, answer, isCorrect, points, now);
      && r.answersByQuestion.Keys == s.answersByQuestion.Keys + {questionIndex}
      && r.answersByQuestion[questionIndex][playerId] == AnswerRecord(questionIndex, answer, isCorrect, Some(now), points)
      && (forall k :: k in s.answersByQuestion && k != questionIndex ==> r.answersByQuestion[k] == s.answersByQuestion[k])
      && (forall p :: p in r.answersByQuestion[questionIndex] && p != playerId ==>
            questionIndex in s.answersByQuestion && p in s.answersByQuestion[questionIndex] &&
            r.answersByQuestion[questionIndex][p] == s.answersByQuestion[questionIndex][p])
      && r.answerCountsByQuestion == s.answerCountsByQuestion
      && r.currentQuestionIndex == s.currentQuestionIndex && r.isQuestionActive == s.isQuestionActive
      && (FirstIndexWithId(s.players, playerId).None? ==> r.players == s.players)
      && (FirstIndexWithId(s.players, playerId).Some? ==>
            var i := FirstIndexWithId(s.players, playerId).value;
            && r.players[i].score == Add32(s.players[i].score, points)
            && TotalScore(r.players) == TotalScore(s.players) - s.players[i].score + r.players[i].score)
  {
    ScoreAddedTotal(s.players, playerId, points);
  }

  lemma RegisterAnswerTwiceCountsTwice(s: SessionRecord, playerId: Guid, questionIndex: int, answer: Option<string>,
                                       isCorrect: bool, points: Int32, now: Time)
    requires FirstIndexWithId(s.players, playerId).Some?
    ensures var once := RegisterAnswer(s, playerId, questionIndex, answer, isCorrect, points, now);
      var twice := RegisterAnswer(once, playerId, questionIndex, answer, isCorrect, points, now);
      var i := FirstIndexWithId(s.players, playerId).value;
      && twice.answersByQuestion == once.answersByQuestion
      && twice.players[i].score == Add32(Add32(s.players[i].score, points), points)
      && forall j :: 0 <= j < |s.players| && j != i ==> twice.players[j] == s.players[j]
  {
    var once := RegisterAnswer(s, playerId, questionIndex, answer, isCorrect, points, now);
    ScoreAddedTwice(s.players, playerId, points);
    assert once.players == ScoreAdded(s.players, playerId, points);
    RegisterSameRecordAgain(once.answersByQuestion, playerId, questionIndex,
                            AnswerRecord(questionIndex, answer, isCorrect, Some(now), points));
  }

  /** Adding the same points twice adds them twice to the first player with the id, and changes nobody else. */
  lemma ScoreAddedTwice(players: seq<Player>, id: Guid, points: Int32)
    requires FirstIndexWithId(players, id).Some?
    ensures var i := FirstIndexWithId(players, id).value;
      var twice := ScoreAdded(ScoreAdded(players, id, points), id, points);
      && twice[i].score == Add32(Add32(players[i].score, points), points)
      && forall j :: 0 <= j < |players| && j != i ==> twice[j] == players[j]
  {
    var i := FirstIndexWithId(players, id).value;
    var once := ScoreAdded(players, id, points);
    FirstIndexUnchanged(players, once, id, i);
    var twice := ScoreAdded(once, id, points);
    assert once[i].score == Add32(players[i].score, points);
    forall j | 0 <= j < |players| && j != i ensures twice[j] == players[j] {
      assert once[j] == players[j];
    }
  }

  /**
   * `Score += points` is unchecked 32-bit arithmetic: two awards of 2000000150
   * points, which a correct answer with a negative reported time earns, turn
   * a score of 0 into -294966996.
   */
  lemma TwoLargeAwardsWrapNegative(p: Player)
    requires p.score == 0
    ensures ScoreAdded(ScoreAdded([p], p.id, 2000000150), p.id, 2000000150)[0].score == -294966996
  {
    ScoreAddedTwice([p], p.id, 2000000150);
  }

  /** Writing a record that is already there leaves the book as it was. */
  lemma RegisterSameRecordAgain(book: AnswerBook, playerId: Guid, questionIndex: int, record: AnswerRecord)
    requires questionIndex in book && playerId in book[questionIndex] && book[questionIndex][playerId] == record
    ensures var b := EnsureAnswers(book, questionIndex); b[questionIndex := b[questionIndex][playerId := record]] == book
  {
    assert book[questionIndex][playerId := record] == book[questionIndex];
  }

  /** Changing players but not their ids keeps the first one with the id. */
  lemma FirstIndexUnchanged(a: seq<Player>, b: seq<Player>, id: Guid, i: nat)
    requires FirstIndexWithId(a, id) == Some(i)
    requires |b| == |a| && forall j :: 0 <= j < |a| ==> b[j].id == a[j].id
    ensures FirstIndexWithId(b, id) == Some(i)
  {
    assert b[i].id == id;
    var k := FirstIndexWithId(b, id).value;
    assert !(k < i) && !(i < k);
  }

  lemma SameStoreAfterWrite(a: map<string, SessionRecord>, b: map<string, SessionRecord>, id: string, r: SessionRecord)
    requires a - {id} == b - {id}
    ensures a[id := r] == b[id := r]
  {
    var x, y := a[id := r], b[id := r];
    forall k | k in x ensures k in y && x[k] == y[k] {
      if k != id {
        assert k in a - {id};
      }
    }
    forall k | k in y ensures k in x {
      if k != id {
        assert k in b - {id};
      }
    }
  }

  /** Writing `id` leaves the rest of the store as it was. */
  lemma StoreWriteElsewhere(a: map<string, SessionRecord>, id: string, r: SessionRecord)
    ensures a[id := r] - {id} == a - {id}
  {
    var x, y := a[id := r] - {id}, a - {id};
    forall k | k in x ensures k in y && x[k] == y[k] {
    }
    forall k | k in y ensures k in x {
    }
  }

  /** The pin-index key a session occupies, if it has a non-empty pin. */
  function PinKeys(s: GameSession): set<string> {
    if s.gamePin.Some? && s.gamePin.value != "" then {s.gamePin.value} else {}
  }

  class SessionManager {
    /** `_sessionsById`. */
    var byId: map<string, GameSession>
    /** `_sessionsByPin`. */
    var byPin: map<string, GameSession>
    /** The session files: one record per session id. */
    var store: map<string, SessionRecord>

    /**
     * Index coherence: each index is keyed by the session's own id or pin, an
     * empty pin is never a key, every session reachable by pin is the very
     * object the id index holds for it, and each stored record sits under its
     * own id.
     */
    ghost predicate Valid()
      reads this`byId, this`byPin, this`store
    {
      Indexed() && Stored()
    }

    /** The two in-memory indexes agree with each other and with the sessions' own keys. */
    ghost predicate Indexed()
      reads this`byId, this`byPin
    {
      && (forall id :: id in byId ==> byId[id].sessionId == id)
      && (forall pin :: pin in byPin ==> pin != "" && byPin[pin].gamePin == Some(pin))
      && (forall pin :: pin in byPin ==> byPin[pin].sessionId in byId && byId[byPin[pin].sessionId] == byPin[pin])
    }

    /** Each stored record sits under its own id. */
    ghost predicate Stored()
      reads this`store
    {
      forall id :: id in store ==> store[id].sessionId == id
    }

    /** The session the pin index holds for `pin`, as a set for frames. */
    function SessionAt(pin: string): set<GameSession>
      reads this`byPin
    {
      if pin in byPin then {byPin[pin]} else {}
    }

    /** A manager over the sessions previously saved; nothing is in memory yet. */
    constructor (saved: map<string, SessionRecord>)
      requires forall id :: id in saved ==> saved[id].sessionId == id
      ensures Valid() && byId == map[] && byPin == map[] && store == saved
    {
      byId, byPin, store := map[], map[], saved;
    }

    /**
     * `CreateSession`: a fresh session with a pin drawn from [10000, 99999),
     * entered in both indexes and saved. The pin is not checked for collisions:
     * a live session holding the same pin loses its pin-index entry.
     */
    method CreateSession(questions: seq<Question>, id: string, now: Time) returns (s: GameSession)
      requires Valid()
      requires id !in byId  // Guid.NewGuid() never repeats an id
      modifies this
      ensures Valid() && fresh(s)
      ensures s.Snapshot() == SessionRecord(id, questions, 0, [], map[], false, false, s.gamePin, now, now, false, map[])
      ensures exists n :: 10000 <= n < 99999 && s.gamePin == Some(IntToString(n))
      ensures s.gamePin.Some? && byId == old(byId)[id := s] && byPin == old(byPin)[s.gamePin.value := s]
      ensures store == old(store)[id := s.Snapshot()]
    {
      var n :| 10000 <= n < 99999;
      FiveDigitText(n);
      s := new GameSession.New(id, IntToString(n), questions, now);
      byId := byId[s.sessionId := s];
      byPin := byPin[s.gamePin.value := s];
      SaveSession(s, now);
    }

    /**
     * `GetSession`: the in-memory session if there is one; otherwise the stored
     * record, loaded into a new object that is cached under the id only.
     */
    method GetSession(id: string) returns (r: Option<GameSession>)
      requires Valid()
      modifies this
      ensures Valid() && byPin == old(byPin) && store == old(store)
      ensures id in old(byId) ==> r == Some(old(byId)[id]) && byId == old(byId)
      ensures id !in old(byId) && id in store ==>
        r.Some? && fresh(r.value) && r.value.Snapshot() == store[id] && byId == old(byId)[id := r.value]
      ensures id !in old(byId) && id !in store ==> r == None && byId == old(byId)
    {
      if id in byId {
        return Some(byId[id]);
      }
      if id in store {
        var loaded := new GameSession.FromRecord(store[id]);
        byId := byId[id := loaded];
        return Some(loaded);
      }
      return None;
    }

    /** `GetSessionByPin`: a lookup in the pin index alone, never the id index or the store. */
    function GetSessionByPin(pin: string): (r: Option<GameSession>)
      reads this`byPin
      ensures r.Some? <==> pin in byPin
      ensures r.Some? ==> r.value == byPin[pin]
    {
      if pin in byPin then Some(byPin[pin]) else None
    }

    /** `SaveSession`: stamps the time and replaces the stored record for the session's id. */
    method SaveSession(s: GameSession, now: Time)
      requires Valid()
      modifies this`store, s`lastUpdatedAt
      ensures Valid()
      ensures s.Snapshot() == old(s.Snapshot()).(lastUpdatedAt := now)
      ensures store == old(store)[s.sessionId := s.Snapshot()]
    {
      s.lastUpdatedAt := now;
      store := store[s.sessionId := s.Snapshot()];
    }

    /**
     * `LoadAllSessions`: memory is discarded and rebuilt from the store, in no
     * particular order. Every stored record becomes a new session object in the
     * id index; every non-empty pin of a stored record is in the pin index,
     * holding one of the sessions with that pin.
     */
    method LoadAllSessions()
      requires Valid()
      modifies this
      ensures Valid() && store == old(store)
      ensures byId.Keys == store.Keys
      ensures forall id :: id in byId ==> fresh(byId[id]) && byId[id].Snapshot() == store[id]
      ensures forall pin :: pin in byPin <==> pin != "" && exists id :: id in store && store[id].gamePin == Some(pin)
    {
      byId := map[];
      byPin := map[];
      CacheAll();
      forall pin | pin in byPin
        ensures pin != "" && exists id :: id in store && store[id].gamePin == Some(pin)
      {
        var id := byPin[pin].sessionId;
        assert byId[id].Snapshot() == store[id];
      }
    }

    /** The loop of `LoadAllSessions`: every stored record, in no particular order, goes through `Cache`. */
    method CacheAll()
      requires Stored() && byId == map[] && byPin == map[]
      modifies this`byId, this`byPin
      ensures Indexed()
      ensures byId.Keys == store.Keys
      ensures forall id :: id in byId ==> fresh(byId[id]) && byId[id].Snapshot() == store[id]
      ensures forall id :: id in store && store[id].gamePin.Some? && store[id].gamePin.value != "" ==>
        store[id].gamePin.value in byPin
    {
      var pending := store.Keys;
      while pending != {}
        invariant pending <= store.Keys
        invariant CachedFromStore(store.Keys - pending)
        invariant forall id :: id in byId ==> fresh(byId[id])
        decreases pending
      {
        var id :| id in pending;
        CacheNext(id, store.Keys - pending);
        pending := pending - {id};
      }
    }

    /** The sessions of `done` are cached as the store holds them, each under its pin when it has one. */
    ghost predicate CachedFromStore(done: set<string>)
      reads this`byId, this`byPin, this`store, byId.Values
    {
      && Indexed()
      && byId.Keys == done
      && (forall id :: id in byId ==> id in store && byId[id].Snapshot() == store[id])
      && (forall id :: id in byId && store[id].gamePin.Some? && store[id].gamePin.value != "" ==>
            store[id].gamePin.value in byPin)
    }

    /** One step of `LoadAllSessions`' loop: the stored session `id` joins the cache. */
    method CacheNext(id: string, ghost done: set<string>)
      requires Stored() && id in store && id !in done && CachedFromStore(done)
      modifies this`byId, this`byPin
      ensures CachedFromStore(done + {id})
      ensures fresh(byId[id]) && forall k :: k in old(byId) ==> byId[k] == old(byId)[k]
    {
      ghost var pinsBefore := byPin;
      var loaded := Cache(store[id]);
      assert pinsBefore.Keys <= byPin.Keys;
    }

    method Cache(r: SessionRecord) returns (loaded: GameSession)
      requires Indexed() && r.sessionId !in byId
      modifies this`byId, this`byPin
      ensures Indexed()
      ensures fresh(loaded) && loaded.Snapshot() == r
      ensures byId == old(byId)[r.sessionId := loaded]
      ensures byPin == if r.gamePin.Some? && r.gamePin.value != "" then old(byPin)[r.gamePin.value := loaded] else old(byPin)
    {
      loaded := new GameSession.FromRecord(r);
      byId := byId[loaded.sessionId := loaded];
      if loaded.gamePin.Some? && loaded.gamePin.value != "" {
        byPin := byPin[loaded.gamePin.value := loaded];
      }
    }

    /**
     * `RemoveSession`: an id that is not in memory gives false and changes
     * nothing (even if a stored record exists). Otherwise the id entry, the
     * pin-index entry under the session's pin (whichever session it now holds)
     * and any pin-index entry keyed by the id itself are removed, the stored
     * record is deleted, and the result is true.
     */
    method RemoveSession(id: string) returns (removed: bool)
      requires Valid()
      modifies this
      ensures Valid()
      ensures removed == (id in old(byId))
      ensures !removed ==> byId == old(byId) && byPin == old(byPin) && store == old(store)
      ensures removed ==>
        && byId == old(byId) - {id}
        && byPin == old(byPin) - PinKeys(old(byId)[id]) - {id}
        && store == old(store) - {id}
        && old(byId)[id] !in byPin.Values
    {
      if id !in byId {
        return false;
      }
      var s := byId[id];
      byId := byId - {id};
      if s.gamePin.Some? && s.gamePin.value != "" {
        byPin := byPin - {s.gamePin.value};
      }
      byPin := byPin - {id};
      store := store - {id};
      return true;
    }

    /** `AddPlayerToSession`: appends the player to the session with that pin and saves it. */
    method AddPlayerToSession(pin: string, player: Player, now: Time)
      requires Valid()
      modifies this`store, SessionAt(pin)
      ensures Valid()
      ensures pin !in byPin ==> store == old(store)
      ensures pin in byPin ==>
        var s := byPin[pin];
        && s.Snapshot() == old(s.Snapshot()).(players := old(s.players) + [player], lastUpdatedAt := now)
        && store == old(store)[s.sessionId := s.Snapshot()]
    {
      var found := GetSessionByPin(pin);
      if found.Some? {
        var s := found.value;
        s.players := s.players + [player];
        SaveSession(s, now);
      }
    }

    /** `RegisterPlayerAnswer`: on the session with that pin, see `RegisterAnswer`; then saves. */
    method RegisterPlayerAnswer(pin: string, playerId: Guid, questionIndex: int, answer: Option<string>,
                                isCorrect: bool, points: Int32, now: Time)
      requires Valid()
      modifies this`store, SessionAt(pin)
      ensures Valid()
      ensures pin !in byPin ==> store == old(store)
      ensures pin in byPin ==>
        var s := byPin[pin];
        && s.Snapshot() == RegisterAnswer(old(s.Snapshot()), playerId, questionIndex, answer, isCorrect, points, now)
        && store == old(store)[s.sessionId := s.Snapshot()]
    {
      var found := GetSessionByPin(pin);
      if found.None? {
        return;
      }
      var s := found.value;
      if questionIndex !in s.answersByQuestion {
        s.answersByQuestion := s.answersByQuestion[questionIndex := map[]];
      }
      var record := AnswerRecord(questionIndex, answer, isCorrect, Some(now), points);
      s.answersByQuestion := s.answersByQuestion[questionIndex := s.answersByQuestion[questionIndex][playerId := record]];
      AddScore(s, playerId, points);
      SaveSession(s, now);
    }

    /** `AddScore`: the first player with the id gains the points; no such player, no change. */
    method AddScore(s: GameSession, playerId: Guid, points: Int32)
      modifies s`players
      ensures s.players == ScoreAdded(old(s.players), playerId, points)
    {
      var i := FirstIndexWithId(s.players, playerId);
      if i.Some? {
        var p := s.players[i.value];
        s.players := s.players[i.value := p.(score := Add32(p.score, points))];
      }
    }
  }
}
