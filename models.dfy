/**
 * The entities of the quiz: questions, players, answer records, game sessions
 * and ranking entries, plus the real-time pushes the hub sends.
 * Identifiers and clock readings are opaque values.
 */
module Models {
  import opened Wrappers
  import opened Numbers

  /** A `Guid`; `Guid(0)` plays the part of `Guid.Empty`. */
  datatype Guid = Guid(bits: nat)

  const EmptyGuid: Guid := Guid(0)

  /** A `DateTime` reading, taken as an opaque tick count. */
  type Time = int

  /** A SignalR connection id. */
  type ConnectionId = string

  datatype Question = Question(
    text: string,
    imageUrl: string,
    options: seq<string>,
    correctOptionIndex: Int32)

  datatype Player = Player(
    id: Guid,
    name: string,
    score: Int32,
    avatarSeed: string,
    isActive: bool)

  /** What was recorded for one player on one question; `answer == None` is "no answer". */
  datatype AnswerRecord = AnswerRecord(
    questionIndex: int,
    answer: Option<string>,
    isCorrect: bool,
    answeredAt: Option<Time>,
    pointsEarned: Int32)

  /** One line of a ranking, derived from a player and its place. */
  datatype RankingEntry = RankingEntry(
    gamePin: Option<string>,
    playerId: Guid,
    name: string,
    score: Int32,
    position: int)

  /** Per question index, the records keyed by player id. */
  type AnswerBook = map<int, map<Guid, AnswerRecord>>

  /** Every field of a game session, as one value: what the durable store keeps. */
  datatype SessionRecord = SessionRecord(
    sessionId: string,
    questions: seq<Question>,
    currentQuestionIndex: int,
    players: seq<Player>,
    answersByQuestion: AnswerBook,
    isQuestionVisible: bool,
    isAnswerVisible: bool,
    gamePin: Option<string>,
    createdAt: Time,
    lastUpdatedAt: Time,
    isQuestionActive: bool,
    answerCountsByQuestion: map<int, int>)

  /** A live game session. The session store's two indexes point at the same object. */
  class GameSession {
    const sessionId: string
    const gamePin: Option<string>
    const questions: seq<Question>
    const createdAt: Time
    var currentQuestionIndex: int
    var players: seq<Player>
    var answersByQuestion: AnswerBook
    var isQuestionVisible: bool
    var isAnswerVisible: bool
    var lastUpdatedAt: Time
    var isQuestionActive: bool
    var answerCountsByQuestion: map<int, int>

    /** The whole session as one value. */
    function Snapshot(): (r: SessionRecord)
      reads this
      ensures r.sessionId == sessionId && r.gamePin == gamePin && r.questions == questions
    {
      SessionRecord(sessionId, questions, currentQuestionIndex, players, answersByQuestion,
        isQuestionVisible, isAnswerVisible, gamePin, createdAt, lastUpdatedAt,
        isQuestionActive, answerCountsByQuestion)
    }

    /** A session as `CreateSession` builds it: first question, no players, nothing answered. */
    constructor New(id: string, pin: string, qs: seq<Question>, now: Time)
      ensures Snapshot() == SessionRecord(id, qs, 0, [], map[], false, false, Some(pin), now, now, false, map[])
    {
      sessionId, gamePin, questions, createdAt := id, Some(pin), qs, now;
      currentQuestionIndex, players, answersByQuestion := 0, [], map[];
      isQuestionVisible, isAnswerVisible, lastUpdatedAt := false, false, now;
      isQuestionActive, answerCountsByQuestion := false, map[];
    }

    /** A session read back from the durable store. */
    constructor FromRecord(r: SessionRecord)
      ensures Snapshot() == r
    {
      sessionId, gamePin, questions, createdAt := r.sessionId, r.gamePin, r.questions, r.createdAt;
      currentQuestionIndex, players, answersByQuestion := r.currentQuestionIndex, r.players, r.answersByQuestion;
      isQuestionVisible, isAnswerVisible, lastUpdatedAt := r.isQuestionVisible, r.isAnswerVisible, r.lastUpdatedAt;
      isQuestionActive, answerCountsByQuestion := r.isQuestionActive, r.answerCountsByQuestion;
    }
  }

  /** The client methods the hub invokes. */
  datatype Message =
    | ReceiveLoadingWithNumber(number: int)
    | ReceiveLoading
    | ReceiveQuestion(question: Question)
    | UpdateAnswerCount(count: int)
    | ReceiveUpdateRanking(ranking: seq<RankingEntry>)
    | ReceiveCurrentRanking(ranking: seq<RankingEntry>)
    | QuestionScoreIndividual(isCorrect: Option<bool>, points: Int32)
    | FinalScoreIndividual(score: Int32)
    | ReceiveCurrentState(current: Option<Question>, index: int, answer: Option<AnswerRecord>)
    | ReceiveQuestionResults(counts: map<int, int>, correctIndex: int)
    | SessionNotFound

  /** Who receives a push: a named group, the calling connection, or one given connection. */
  datatype Audience = Group(name: string) | Caller(connection: ConnectionId) | Client(connection: ConnectionId)

  datatype Push = Push(to: Audience, message: Message)

  /** The admin audience of the session with pin `pin`. */
  function AdminGroup(pin: string): string {
    pin + "_admin"
  }
}
