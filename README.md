# QuizOnBlaze live-quiz core in Dafny

QuizOnBlaze runs live quizzes. An admin creates a game session and gets a five-digit game pin. Players join with the pin, and the admin shows questions one at a time. Players answer against the clock. The client reports how many seconds the answer took; a correct answer earns 150 points less 10 per second, so at most 150 for any non-negative time. The admin ends each question, sees the vote counts and shows the ranking. Beside the live game sit three small services:

- an all-time leaderboard of players kept by name;
- a prize draw among the best players;
- a filter that refuses player names containing forbidden words.

This project models that core and proves properties about it:

- **`SessionStore`** (`session_manager.dfy`): the session manager. It keeps live sessions in two in-memory indexes that point at the same objects: one keyed by session id, one keyed by game pin. Behind them is a durable store of session records keyed by id. `SessionManager` is a class whose maps are updated in place. `Valid()` states index coherence, and every method keeps it. Each method states its whole new state.
- **`Models`** (`models.dfy`): the entities. Questions, players, answer records and ranking entries are datatypes. A live `GameSession` is a class whose fields the handlers update. `Snapshot()` reads it back as the `SessionRecord` value that the durable store keeps. The pushes the hub sends to clients are the datatypes `Message`, `Audience` and `Push`.
- **`Lifecycle`** (`lifecycle.dfy`): what each hub handler does to the session it finds by pin, written as functions on session values. A `Step` is the new session, whether it was saved, the pushes sent and the exception thrown (`Fault`). The lemmas about these functions carry the protocol's properties:
  - at most one answer per player per question;
  - scoring and counters;
  - back-filling the players who did not answer;
  - tallying the votes;
  - what a reconnecting player is sent.
- **`Hub`** (`quiz_hub.dfy`): the SignalR hub as a class. It holds the player-to-connection table and an `outbox` of every push sent, in order. Each handler method changes the session in place, saves it, appends to the outbox, and is proved to match its `Lifecycle` function. The three loops of the hub are methods with loop invariants: vote counting in `CountOptions`, back-filling in `FillAll`, and the final-score pushes in `UpdatePlayerScoreIndividual`.
- **`Totals`** (`totals.dfy`): sums over the session. The vote tally adds up to the number of answers that name an option. Every player's score equals, in 32-bit arithmetic, the sum of the points on that player's records, and every handler that changes a session keeps this so.
- **`Scoring`** and **`Ordering`** (`scoring.dfy`, `ordering.dfy`):
  - the points formula, in C#'s 32-bit arithmetic;
  - the ranking as a stable descending sort by score, numbered from 1. The sort is proved to be the only stable descending arrangement.
- **`Leaderboard`** and **`Prizes`** (`leaderboard.dfy`, `prizes.dfy`):
  - the player list service: add-or-update by case-insensitive name, top N and reset;
  - the prize draw without replacement from the top 2N.
- **`NameFilter`** (`name_filter.dfy`): the forbidden-word list and the name check.
- **`Numbers`** and **`Text`** (`numbers.dfy`, `text.dfy`) cover the .NET text services the core relies on:
  - `Int32` wrap-around, unchecked addition, `ToString` and `TryParse`;
  - `char.IsWhiteSpace`, `Trim`, `IsNullOrWhiteSpace`, ASCII case folding and substring search.
- **`Wrappers`** (`wrappers.dfy`): `Option`, which stands for C#'s null.

The clock (`DateTime.UtcNow`), new ids (`Guid.NewGuid`) and the caller's connection id are parameters. `Random.Next` is a nondeterministic choice (`:|`) within the bounds the source passes. An exception thrown part-way through a handler is modelled as a `Fault` result: the changes made before the throw stay, and nothing after it happens. `IndexOutOfRange` stands for `Questions[idx]` with an index outside the list. `NoMatchingPlayer` stands for `First` finding nobody.

Where the code and the documented behaviour differ, the model follows the code:

- **Back-filled records carry a time stamp.** `Admin_SendQuestionEnded` first writes a "no answer" record with no time stamp for each player who did not answer. It then calls `RegisterPlayerAnswer`, which overwrites that record with one stamped `UtcNow`. So back-filled records end with `AnsweredAt = now` (`Lifecycle.NoAnswer`, `Lifecycle.PlaceholderOverwritten`).
- **Pins are not checked for collisions.** `CreateSession` does not check the pin it draws. A live session holding the same pin loses its pin-index entry.
- **`RemoveSession` only sees sessions in memory.** It returns false for a session that exists only in the durable store, and leaves that stored record in place.
- **The answer time is not checked.** `Player_SubmitAnswer` takes `timeTakenSeconds` from the client as it is. A negative time earns more than 150 points: -200000000 seconds earns 2000000150 (`Scoring.NegativeTimeEarnsMore`). `Score += points` is unchecked, so two such answers turn a score of 0 into -294966996 (`SessionStore.TwoLargeAwardsWrapNegative`).
- **Back-filled records are not counted.** `Admin_SendQuestionEnded` adds a record for every player who did not answer, but does not raise `AnswerCountsByQuestion`. After a question ends, the counter can be lower than the number of records (`Lifecycle.EndQuestionEffect`: the counters are unchanged).
- **`OnConnectedAsync` joins the same group twice.** For a pin ending in `_admin` it joins that group a second time. It never joins any other connection to the admin group. The model records only the connection table.

## Model

| member | source | states |
|---|---|---|
| Scoring.EvaluateAnswer | Code/QuizOnBlaze/Hubs/QuizHub.cs:199-221 | the points are never negative, and are positive only when the answer is exactly the text of the correct option index |
| Scoring.AnswerMatchesExactly | Code/QuizOnBlaze/Hubs/QuizHub.cs:202-204 | comparing ignoring case with the text of an int is plain equality, since that text has no letters |
| Scoring.EvaluateAnswerFormula | Code/QuizOnBlaze/Hubs/QuizHub.cs:199-221 | without overflow, a correct answer earns max(0, 150 - 10 * min(t, 15)); a wrong or null one earns 0 |
| Scoring.EvaluateAnswerBounds | Code/QuizOnBlaze/Hubs/QuizHub.cs:212-220 | at most 150 for any non-negative time, 0 from 15 seconds on, and exactly 150 for a correct answer at 0 seconds |
| Scoring.CalculateRanking | Code/QuizOnBlaze/Hubs/QuizHub.cs:381-394 | one entry per player; positions exactly 1..n; every entry carries the session's pin; scores never increase down the list |
| Scoring.RankingIsStableOrder | Code/QuizOnBlaze/Hubs/QuizHub.cs:383-393 | entry i is built from the i-th player of a stable descending arrangement of the players, which is a permutation of them |
| Scoring.RankingOfTies | Code/QuizOnBlaze/Hubs/QuizHub.cs:383-391 | scores 300, 300, 100 get places 1, 2, 3, with the tied players in input order |
| Scoring.NegativeTimeEarnsMore | Code/QuizOnBlaze/Hubs/QuizHub.cs:199-221 | the time is the client's: a correct answer reported after -200000000 seconds earns 2000000150 points |
| Scoring.TiesKeepInputOrder | Code/QuizOnBlaze/Hubs/QuizHub.cs:384 | the stable sort leaves an already descending list with ties as it is |
| Ordering.SortByScore | Code/QuizOnBlaze/Hubs/QuizHub.cs:384 | `OrderByDescending(p => p.Score)`: the result is a permutation of the input, sorted by descending score, and players with equal scores keep their input order |
| Ordering.StableDescendingUnique | Code/QuizOnBlaze/Hubs/QuizHub.cs:384 | two descending lists with the same players of every score, in the same order, are equal, so the stable order is unique |
| Ordering.InsertSorts | Code/QuizOnBlaze/Hubs/QuizHub.cs:384 | inserting the head into the sorted tail keeps the result sorted by descending score and a stable permutation of the input |
| Numbers.Add32 | Code/QuizOnBlaze/Hubs/QuizHub.cs:181 | C#'s unchecked `+`: the exact sum when it fits in 32 bits; past the top of the range the result is smaller than either operand |
| Numbers.Add32IsWrap | Code/QuizOnBlaze/Hubs/QuizHub.cs:181 | an unchecked addition is the 32-bit wrap of the exact sum |
| Numbers.Wrap32Add | Code/QuizOnBlaze/Hubs/QuizHub.cs:181 | wrapping an intermediate sum changes nothing, so unchecked additions compose |
| Numbers.Add32Twice | Code/QuizOnBlaze/Services/SessionManager.cs:293 | adding the same value twice, unchecked, gives the wrap of the exact total |
| Numbers.ParseIntToString | Code/QuizOnBlaze/Hubs/QuizHub.cs:284 | `int.TryParse` reads back every number `ToString` prints |
| Numbers.FiveDigitText | Code/QuizOnBlaze/Services/SessionManager.cs:59 | every pin `Random.Next(10000, 99999)` can draw prints as five digits without a leading zero |
| SessionStore.FirstIndexWithId | Code/QuizOnBlaze/Services/SessionManager.cs:290 | the first position holding a player with that id, or none when no player has it |
| SessionStore.ScoreAdded | Code/QuizOnBlaze/Services/SessionManager.cs:288-295 | the first player with the id gets its score plus the points, in unchecked 32-bit addition; every other player, each id and name, and the length stay; an unknown id changes nothing |
| SessionStore.ScoreAddedTotal | Code/QuizOnBlaze/Services/SessionManager.cs:288-295 | the total of all scores moves by exactly the change in that one player, which is the points when the new score fits in 32 bits; an unknown id leaves it |
| SessionStore.TwoLargeAwardsWrapNegative | Code/QuizOnBlaze/Services/SessionManager.cs:288-295 | two awards of 2000000150 points wrap a score of 0 to -294966996 |
| SessionStore.EnsureAnswers | Code/QuizOnBlaze/Services/SessionManager.cs:264-267 | the question's record map exists afterwards; existing maps are kept; a new map is empty |
| SessionStore.RegisterAnswer | Code/QuizOnBlaze/Services/SessionManager.cs:256-284 | only the records, the players and the time stamp change; the record for (question, player) is the given one, stamped now; the number of players stays |
| SessionStore.RegisterAnswerEffect | Code/QuizOnBlaze/Services/SessionManager.cs:256-284 | registering writes the given record for (question, player) over whatever was there, keeps every other record, question and counter; a listed player's score gains the points in unchecked addition, and the total moves by that player's change |
| SessionStore.RegisterAnswerTwiceCountsTwice | Code/QuizOnBlaze/Services/SessionManager.cs:269-280 | there is no duplicate check: registering the same answer twice leaves the records as after one call but adds the points twice (unchecked, twice over) |
| SessionStore.SessionManager.constructor | Code/QuizOnBlaze/Services/SessionManager.cs:29-34 | a new manager has empty indexes over the saved records and is coherent |
| SessionStore.SessionManager.CreateSession | Code/QuizOnBlaze/Services/SessionManager.cs:54-75 | a fresh session at question 0 with no players and a pin that is the text of a number in [10000, 99999); both indexes point at it, whatever held that pin before; it is saved |
| SessionStore.SessionManager.GetSession | Code/QuizOnBlaze/Services/SessionManager.cs:77-94 | returns the in-memory session when there is one; otherwise loads the stored record into a new object cached under the id only; returns none when neither exists; the pin index and the store never change |
| SessionStore.SessionManager.GetSessionByPin | Code/QuizOnBlaze/Services/SessionManager.cs:96-100 | finds a session exactly when the pin index holds the pin, and returns that entry |
| SessionStore.SessionManager.SaveSession | Code/QuizOnBlaze/Services/SessionManager.cs:102-111 | stamps the time and replaces the stored record for the session's id with the whole session; nothing else changes |
| SessionStore.SessionManager.LoadAllSessions | Code/QuizOnBlaze/Services/SessionManager.cs:185-207 | memory is discarded; the id index then holds a new object per stored record, equal to it; the pin index holds exactly the non-empty pins of stored records; the store is unchanged |
| SessionStore.SessionManager.CacheAll | Code/QuizOnBlaze/Services/SessionManager.cs:192-206 | the loop over the stored records leaves every one cached under its id, and every non-empty pin in the pin index |
| SessionStore.SessionManager.CacheNext | Code/QuizOnBlaze/Services/SessionManager.cs:194-204 | one turn of that loop adds the session under its id without disturbing the entries already cached |
| SessionStore.SessionManager.Cache | Code/QuizOnBlaze/Services/SessionManager.cs:196-203 | a loaded record becomes a new object under its id and, when its pin is non-empty, under its pin |
| SessionStore.SessionManager.RemoveSession | Code/QuizOnBlaze/Services/SessionManager.cs:210-253 | an id not in memory gives false and changes nothing; otherwise the id entry, the pin entry, any pin entry keyed by the id and the stored record go; the result is true and the session is unreachable by pin |
| SessionStore.SessionManager.AddPlayerToSession | Code/QuizOnBlaze/Services/SessionManager.cs:140-154 | an unknown pin changes nothing; otherwise exactly one player is appended, the others stay, and the session is saved |
| SessionStore.SessionManager.RegisterPlayerAnswer | Code/QuizOnBlaze/Services/SessionManager.cs:256-284 | an unknown pin changes nothing; otherwise the session becomes `RegisterAnswer` of itself and is saved |
| SessionStore.SessionManager.AddScore | Code/QuizOnBlaze/Services/SessionManager.cs:288-295 | the players become `ScoreAdded` of the old list: the first player with the id gains the points in unchecked 32-bit addition |
| Lifecycle.EnsureCount | Code/QuizOnBlaze/Hubs/QuizHub.cs:86-87 | the question's counter exists afterwards; existing counters are kept; a new one is 0 |
| Lifecycle.QuestionAt | Code/QuizOnBlaze/Hubs/QuizHub.cs:97 | the question is there exactly when the index is within the list |
| Lifecycle.Present | Code/QuizOnBlaze/Hubs/QuizHub.cs:74-104 | presenting opens the question, keeps the index, players and questions, saves, and throws exactly when the index is outside the list |
| Lifecycle.Navigate | Code/QuizOnBlaze/Hubs/QuizHub.cs:108-135 | navigating moves to the target with the question closed, keeps players and questions, saves, and throws exactly when the target is outside the list |
| Lifecycle.Prepared | Code/QuizOnBlaze/Hubs/QuizHub.cs:82-87 | creates the question's records map and counter when missing; changes nothing else and clears no earlier answers |
| Lifecycle.Show | Code/QuizOnBlaze/Hubs/QuizHub.cs:94-101 | the players are sent the question and the admins its answer count, unless the index is out of range, which throws before anything is sent |
| Lifecycle.PresentKeepsAnswers | Code/QuizOnBlaze/Hubs/QuizHub.cs:74-104 | presenting opens the current question, keeps every answer and counter, saves, tells the admins how many answers the question already has, throws exactly for an out-of-range index, and changes nothing more when repeated |
| Lifecycle.NavigateKeepsAnswers | Code/QuizOnBlaze/Hubs/QuizHub.cs:108-135 | navigating sets the index to the target and closes the question; it keeps every answer and counter, throws exactly for an out-of-range target, and refuses submissions afterwards |
| Lifecycle.Counted | Code/QuizOnBlaze/Hubs/QuizHub.cs:151-164 | the current question's counter goes up by one and its records map exists; nothing else changes |
| Lifecycle.Recorded | Code/QuizOnBlaze/Hubs/QuizHub.cs:171-178 | the player's record for the question is written; every other record stays |
| Lifecycle.SubmitRefused | Code/QuizOnBlaze/Hubs/QuizHub.cs:146-158 | a submission to a closed question, or from a player who already has a record, changes nothing, saves nothing and sends nothing |
| Lifecycle.SubmitKeepsQuestion | Code/QuizOnBlaze/Hubs/QuizHub.cs:140-194 | a submission never moves the index, opens or closes the question, or changes the questions or the pin; it saves exactly when accepted and completed; a throw sends nothing and changes no score; a refused one changes nothing |
| Lifecycle.SubmitShape | Code/QuizOnBlaze/Hubs/QuizHub.cs:149-181 | an accepted submission changes only the records, counters, players and time stamp, as counting and recording say |
| Lifecycle.SubmitCounts | Code/QuizOnBlaze/Hubs/QuizHub.cs:162-164 | an accepted submission raises the current question's counter by exactly one and leaves every other question's records and counter unchanged |
| Lifecycle.SubmitFaults | Code/QuizOnBlaze/Hubs/QuizHub.cs:164-181 | an accepted submission completes iff the index is in range and the player is listed; when it throws, nothing is saved or sent and no score changes |
| Lifecycle.SubmitRecords | Code/QuizOnBlaze/Hubs/QuizHub.cs:167-178 | exactly one record is added for the question: the player's, with the answer, `IsCorrect = points > 0`, the time and the points |
| Lifecycle.SubmitScores | Code/QuizOnBlaze/Hubs/QuizHub.cs:180-193 | a completed submission adds the points to that player only, in unchecked addition, and raises the total by exactly the points when the new score fits in 32 bits; it saves; exactly three pushes are sent, the last to the caller alone with its correctness and points |
| Lifecycle.SubmitTwiceScoresOnce | Code/QuizOnBlaze/Hubs/QuizHub.cs:156-158 | after a submission that did not throw on the index, a second one by the same player is refused and changes nothing |
| Lifecycle.SubmitKeepsCountInStep | Code/QuizOnBlaze/Hubs/QuizHub.cs:161-178 | if the counter equals the number of records before a submission, it still does afterwards exactly when the index did not throw |
| Lifecycle.SubmitThenCurrentState | Code/QuizOnBlaze/Hubs/QuizHub.cs:247-267 | after answering, a reconnecting player is sent the question and its own record, and the answer count has gone up by one |
| Lifecycle.RegisterNoAnswer | Code/QuizOnBlaze/Hubs/QuizHub.cs:334 | registering "no answer" writes the no-answer record and the time stamp, and changes no score |
| Lifecycle.PlaceholderOverwritten | Code/QuizOnBlaze/Hubs/QuizHub.cs:324-334 | the hub's null-stamped placeholder is overwritten by the registration, so it leaves no trace |
| Lifecycle.Filled | Code/QuizOnBlaze/Hubs/QuizHub.cs:322-334 | one turn of the back-fill loop changes only the records and the time stamp; afterwards the player has a record and every earlier record is kept |
| Lifecycle.BackFill | Code/QuizOnBlaze/Hubs/QuizHub.cs:320-343 | the loop changes only the records and the time stamp, and leaves every player it visits with a record |
| Lifecycle.BackFillFrame | Code/QuizOnBlaze/Hubs/QuizHub.cs:320-343 | the back-fill loop changes only the records of the current question and the time stamp |
| Lifecycle.BackFillRecords | Code/QuizOnBlaze/Hubs/QuizHub.cs:320-334 | after the loop every listed player has a record; earlier records are untouched; every new one belongs to a listed player and says "no answer" |
| Lifecycle.BackFillPushes | Code/QuizOnBlaze/Hubs/QuizHub.cs:336-340 | the loop sends the no-answer push exactly to the connected listed players that had no record |
| Lifecycle.EndQuestion | Code/QuizOnBlaze/Hubs/QuizHub.cs:305-346 | ending saves, never throws, closes the question at the same index, keeps the players and every counter, and leaves every listed player with a record |
| Lifecycle.EndQuestionEffect | Code/QuizOnBlaze/Hubs/QuizHub.cs:305-346 | ending a question closes it and gives every player a record; answers already in stay; the rest get the no-answer record; connected silent players are told; scores, counters and other questions are unchanged; later submissions are refused |
| Lifecycle.EndQuestionKeepsResults | Code/QuizOnBlaze/Hubs/QuizHub.cs:319-343 | back-filled records name no option, so ending a question leaves its vote tally as it was |
| Lifecycle.TallyAt | Code/QuizOnBlaze/Hubs/QuizHub.cs:277-292 | an option is in the tally iff somebody's answer parses to it, and its count is the number of such players |
| Lifecycle.Tally | Code/QuizOnBlaze/Hubs/QuizHub.cs:277-292 | every counted option has at least one vote and at most as many as there are records |
| Lifecycle.Results | Code/QuizOnBlaze/Hubs/QuizHub.cs:272-300 | the session is not changed or saved; it throws exactly when the index is outside the list, and then sends nothing; otherwise the admins get one push: the tally of the current question and its correct option |
| Lifecycle.TallyVote | Code/QuizOnBlaze/Hubs/QuizHub.cs:282-291 | counting one more record is one vote step on the tally of the others, whatever the order |
| Lifecycle.TallyIgnoresNoAnswer | Code/QuizOnBlaze/Hubs/QuizHub.cs:284 | a record whose answer does not parse (a null back-fill, say) leaves the tally unchanged |
| Lifecycle.TallyAddsOneVote | Code/QuizOnBlaze/Hubs/QuizHub.cs:286-289 | a new answer naming option k adds one to k, starting from 0 |
| Lifecycle.TallyKeepsOtherVotes | Code/QuizOnBlaze/Hubs/QuizHub.cs:286-289 | and leaves every other option's count as it was |
| Lifecycle.CurrentState | Code/QuizOnBlaze/Hubs/QuizHub.cs:230-268 | "session not found" exactly for an unknown pin; the waiting screen with the index exactly for a closed question; for an open one the question at the index, if in range, and the caller's own record exactly when it has one |
| Lifecycle.AnswerCount | Code/QuizOnBlaze/Hubs/QuizHub.cs:368-377 | the number of records for the question, 0 for an unknown pin or a question with no map |
| Totals.TallyTotal | Code/QuizOnBlaze/Hubs/QuizHub.cs:277-292 | the counts of the tally add up to the number of answers that name an option, which is at most the number of records |
| Totals.PointsChangeAt | Code/QuizOnBlaze/Hubs/QuizHub.cs:171-178 | when one question's records change, a player's recorded points change by that question's difference only |
| Totals.SubmitKeepsScoresMatching | Code/QuizOnBlaze/Hubs/QuizHub.cs:140-194 | if every score equals, in 32-bit arithmetic, the points on that player's records and ids are distinct, a submission keeps both: the record it adds carries exactly the points it adds |
| Totals.EndQuestionKeepsScoresMatching | Code/QuizOnBlaze/Hubs/QuizHub.cs:305-346 | back-filled records earn 0 and no score changes, so ending a question keeps scores equal to recorded points |
| Totals.ShowingKeepsScoresMatching | Code/QuizOnBlaze/Hubs/QuizHub.cs:74-135 | presenting and navigating keep scores equal to recorded points |
| Totals.JoinKeepsScoresMatching | Code/QuizOnBlaze/Services/SessionManager.cs:140-154 | a player joining with score 0 and no records keeps scores equal to recorded points |
| Lifecycle.ScorePushesExact | Code/QuizOnBlaze/Hubs/QuizHub.cs:423-433 | exactly the connected players are sent their final score, at most one push per player |
| Hub.CountOptions | Code/QuizOnBlaze/Hubs/QuizHub.cs:277-292 | the counting loop, in any order over the records, ends with exactly `Tally` of them |
| Hub.AddVote | Code/QuizOnBlaze/Hubs/QuizHub.cs:284-290 | one turn of it: an unparsed answer is skipped; a parsed option gets an entry of 0 if missing, then one more |
| Hub.Prepare | Code/QuizOnBlaze/Hubs/QuizHub.cs:82-87 | the session becomes `Prepared` of itself |
| Hub.Count | Code/QuizOnBlaze/Hubs/QuizHub.cs:151-164 | the session becomes `Counted` of itself |
| Hub.Record | Code/QuizOnBlaze/Hubs/QuizHub.cs:171-178 | the session becomes `Recorded` of itself |
| Hub.Award | Code/QuizOnBlaze/Hubs/QuizHub.cs:181 | `First(...).Score +=`: reports whether the player exists; the first player with the id gains the points in unchecked 32-bit addition; nothing changes when it does not |
| Hub.QuizHub.constructor | Code/QuizOnBlaze/Hubs/QuizHub.cs:21-24 | a hub over the session manager with no connections and nothing sent |
| Hub.QuizHub.OnConnected | Code/QuizOnBlaze/Hubs/QuizHub.cs:26-36 | a connection carrying a valid player id becomes that player's connection, replacing any earlier one; otherwise the table is unchanged |
| Hub.QuizHub.OnDisconnected | Code/QuizOnBlaze/Hubs/QuizHub.cs:56-64 | if no player is bound to the closing connection the table is unchanged; otherwise exactly one player bound to it loses its entry |
| Hub.QuizHub.SendLoadingWithNumber | Code/QuizOnBlaze/Hubs/QuizHub.cs:67-70 | exactly one push: the question number, to the pin's player group |
| Hub.QuizHub.SendLoadingToAll | Code/QuizOnBlaze/Hubs/QuizHub.cs:348-351 | exactly one push: the waiting screen, to the pin's player group |
| Hub.QuizHub.SendCurrentQuestion | Code/QuizOnBlaze/Hubs/QuizHub.cs:74-104 | an unknown pin changes and sends nothing; otherwise the session, the store, the outbox and the fault are those of `Present` |
| Hub.QuizHub.NavigateToQuestion | Code/QuizOnBlaze/Hubs/QuizHub.cs:108-135 | an unknown pin changes and sends nothing; otherwise everything follows `Navigate` |
| Hub.QuizHub.SubmitAnswer | Code/QuizOnBlaze/Hubs/QuizHub.cs:140-194 | a null or unknown pin changes and sends nothing; otherwise everything follows `Submit`, and the store changes only when the session is saved |
| Hub.QuizHub.SubmitTo | Code/QuizOnBlaze/Hubs/QuizHub.cs:146-194 | on the session found, the session, outbox, fault and store are those of `Submit` |
| Hub.QuizHub.ScoreOn | Code/QuizOnBlaze/Hubs/QuizHub.cs:167-193 | after counting, in range: the record is written and the player looked up; an unlisted player throws with nothing saved or sent; a listed one gains the points, the session is saved and the three updates go out |
| Hub.QuizHub.Publish | Code/QuizOnBlaze/Hubs/QuizHub.cs:182-193 | saves the session under its id with the time stamp, then sends the answer count, the ranking and the caller's result |
| Hub.QuizHub.SendQuestionEnded | Code/QuizOnBlaze/Hubs/QuizHub.cs:305-346 | an unknown pin changes and sends nothing; otherwise everything follows `EndQuestion` |
| Hub.QuizHub.EndOn | Code/QuizOnBlaze/Hubs/QuizHub.cs:311-345 | on the session found, the session, outbox and store are those of `EndQuestion` |
| Hub.QuizHub.FillAll | Code/QuizOnBlaze/Hubs/QuizHub.cs:320-343 | the back-fill loop leaves the session and outbox as `BackFill` says; the store changes only under this session's id |
| Hub.QuizHub.FillOne | Code/QuizOnBlaze/Hubs/QuizHub.cs:322-341 | one turn: a player without a record is registered as not answering and the session saved; a connected one is sent the no-answer push; the store changes only under this session's id |
| Hub.QuizHub.SendQuestionResults | Code/QuizOnBlaze/Hubs/QuizHub.cs:272-300 | an unknown pin sends nothing; otherwise the admins get `Results`: the tally of the current question and its correct option; an out-of-range index throws; the session is not changed |
| Hub.QuizHub.RequestCurrentAnswerCount | Code/QuizOnBlaze/Hubs/QuizHub.cs:368-377 | returns `AnswerCount` of the session the pin finds |
| Hub.QuizHub.RequestCurrentState | Code/QuizOnBlaze/Hubs/QuizHub.cs:230-268 | exactly one push, to the caller only: `CurrentState` of the session the pin finds |
| Hub.QuizHub.UpdatePlayerScoreIndividual | Code/QuizOnBlaze/Hubs/QuizHub.cs:423-433 | the outbox gains `ScorePushes`: each connected player's final score, in list order |
| Hub.QuizHub.RequestCurrentRanking | Code/QuizOnBlaze/Hubs/QuizHub.cs:397-406 | an unknown pin gives an empty ranking and sends nothing; otherwise returns the ranking after sending each connected player its score |
| Hub.QuizHub.SendCurrentRanking | Code/QuizOnBlaze/Hubs/QuizHub.cs:409-421 | as above, and the admins are then sent the ranking |
| Leaderboard.FirstNamed | Code/QuizOnBlaze/Services/PlayerService.cs:55 | the first position whose name equals the given name ignoring case, or none when no name does |
| Leaderboard.UpsertedEffect | Code/QuizOnBlaze/Services/PlayerService.cs:53-64 | a match gets the new score in place of the old; the length and every other player are unchanged. Without a match, exactly one player is appended, holding the untrimmed name and the score |
| Leaderboard.UpsertedIdempotent | Code/QuizOnBlaze/Services/PlayerService.cs:53-64 | for a name with no surrounding white space, adding it twice with one score equals adding it once |
| Leaderboard.PaddedNameAddedTwice | Code/QuizOnBlaze/Services/PlayerService.cs:53-59 | the lookup trims but the stored name is untrimmed, so adding " x " twice appends two players |
| Leaderboard.TopPlayers | Code/QuizOnBlaze/Services/PlayerService.cs:82-85 | at most `count` players (none for `count <= 0`), in non-increasing score order, drawn from the list |
| Leaderboard.TopPlayersAreBest | Code/QuizOnBlaze/Services/PlayerService.cs:82-85 | the players left out score no more than any player taken, and the two parts make up the list |
| Leaderboard.PlayerService.GetTopPlayers | Code/QuizOnBlaze/Services/PlayerService.cs:82-85 | at most `count` players of the list (none for `count <= 0`), in non-increasing score order |
| Leaderboard.PlayerService.constructor | Code/QuizOnBlaze/Services/PlayerService.cs:18-39 | starts from the players the file holds, or none |
| Leaderboard.PlayerService.AddOrUpdatePlayer | Code/QuizOnBlaze/Services/PlayerService.cs:46-68 | refuses a null or blank name, changing nothing; otherwise the list becomes `Upserted` and is saved |
| Leaderboard.PlayerService.SavePlayers | Code/QuizOnBlaze/Services/PlayerService.cs:70-77 | the file afterwards holds the list |
| Leaderboard.PlayerService.ResetScores | Code/QuizOnBlaze/Services/PlayerService.cs:90-97 | every score becomes 0; ids, names and the length are unchanged; the list is saved |
| Prizes.WinnerCount | Code/QuizOnBlaze/Services/PrizeService.cs:17-26 | never more winners than candidates, nor more than asked for; exactly the smaller of the two, and none for a count of 0 or less |
| Prizes.RemoveAt | Code/QuizOnBlaze/Services/PrizeService.cs:24 | the list loses exactly the element at the index |
| Prizes.HugeDrawHasNoWinners | Code/QuizOnBlaze/Services/PrizeService.cs:17 | asking for 2^30 or more winners doubles past the 32-bit range to a negative count, so nobody wins |
| Prizes.PrizeService.constructor | Code/QuizOnBlaze/Services/PrizeService.cs:10-13 | the draw reads the given player service |
| Prizes.PrizeService.DrawWinners | Code/QuizOnBlaze/Services/PrizeService.cs:15-27 | n defaults to 3; the number of winners is min(n, size of the top 2n list), and none for n <= 0; the winners are a sub-multiset of that list, so nobody is drawn twice |
| NameFilter.Normalize | Code/QuizOnBlaze/Services/ForbiddenWordsService.cs:16-17 | trimming and lower-casing a non-blank line gives a non-empty, trimmed, lower-case word |
| NameFilter.NormalizedLines | Code/QuizOnBlaze/Services/ForbiddenWordsService.cs:15-18 | no more words than lines, and every word is non-empty, trimmed and lower-case |
| NameFilter.NormalizedLinesSound | Code/QuizOnBlaze/Services/ForbiddenWordsService.cs:15-18 | every stored word is the normalised form of a non-blank line |
| NameFilter.NormalizedLinesComplete | Code/QuizOnBlaze/Services/ForbiddenWordsService.cs:15-18 | every non-blank line's normalised form is stored |
| NameFilter.LoadForbiddenWords | Code/QuizOnBlaze/Services/ForbiddenWordsService.cs:9-24 | without a file the list is empty; every loaded word is non-empty, trimmed and lower-case |
| NameFilter.MatchesLiteral | Code/QuizOnBlaze/Services/ForbiddenWordsService.cs:34-35 | the escaped pattern matches exactly when the lower-cased word occurs at some offset of the lower-cased text |
| NameFilter.IsNameAllowed | Code/QuizOnBlaze/Services/ForbiddenWordsService.cs:26-41 | a name is allowed iff no word of the list matches it |
| NameFilter.RefusedIffSubstring | Code/QuizOnBlaze/Services/ForbiddenWordsService.cs:26-41 | with loaded words, a name is refused iff some word occurs as a contiguous substring of the lower-cased name, with no word boundary |
| NameFilter.MissingFileAllowsAll | Code/QuizOnBlaze/Services/ForbiddenWordsService.cs:20-23 | without a word file every name is allowed |
| NameFilter.LowerCaseSameAnswer | Code/QuizOnBlaze/Services/ForbiddenWordsService.cs:28 | a name and its lower-cased form get the same answer |
| NameFilter.MoreWordsRefuseMore | Code/QuizOnBlaze/Services/ForbiddenWordsService.cs:31-40 | a name is allowed by two lists joined iff both allow it, so more words can only refuse more names |

## Left out

- Concurrency: the shared static connection table and the file locks matter only under concurrent callers. Each handler is one sequential step.
- File and JSON I/O: `File.*`, `Directory.*` and `JsonConvert` are not modelled. The durable store is a map of session records, and the leaderboard file is a list value. No JSON round trip is stated.
- `LoadQuestionsFromFileAsync`: it only reads and deserialises a file.
- `GetAllSessions`: it only copies the id index's values.
- SignalR transport: every `SendAsync` is a push appended to `outbox`. `Groups.AddToGroupAsync` is not modelled, so nothing is stated about who belongs to the player and `_admin` groups.
- The `SessionsChanged` and `PlayersChanged` events are UI notifications with no effect on state.
- `GetPlayerModelFromSession`: casting a LINQ query to `PlayerModel` always throws. Nothing depends on it.
- `GetAnswerCountForQuestion`: private and never called.
- `SessionStore.SessionManager.GetSession`: a stored record that deserialises to null is not modelled. The store holds only records.
- `SessionStore.SessionManager.LoadAllSessions`: the order of the session files is not modelled. When two stored sessions share a pin, the state only says that the pin maps to one of them.
- `Hub.QuizHub.OnConnected`: the query string is taken as already parsed. `playerId` is `None` when `Guid.TryParse` fails.
- `Hub.QuizHub.RequestCurrentState`: `playerId` likewise stands for the outcome of `Guid.TryParse`.
- Case folding: `ToLowerInvariant` and `OrdinalIgnoreCase` are modelled as ASCII case folding. Unicode letters outside ASCII are left as they are. Answers are compared with number text, which has no letters, so scoring is exact either way.
- `Leaderboard.PlayerService.AddOrUpdatePlayer`: players are values, so the model cannot see a player object shared with another list changing along with it. The lock is not modelled either.
- `Leaderboard.PlayerService.ResetScores`: likewise, the reset applies to the list's values, not to shared player objects.
- `Prizes.PrizeService.DrawWinners`: `Random.Next` is any index in range, so the contract holds for every sequence of draws. The drawn players are values, not references into the leaderboard. The contract states the count and drawing without replacement, not which players are drawn.
- `Leaderboard.PlayerService.constructor`: a missing file and a file that reads as null are the same `None`. A file that fails to parse is not modelled.
- `NameFilter.LoadForbiddenWords`: reading the file's lines is not modelled; the lines are the input.
- `Regex` is not modelled as such. An escaped pattern with `IgnoreCase` matches its literal text anywhere in the name, which is what `MatchesLiteral` states.
- Authentication, bootstrap, UI state services, the QR-code and avatar helpers and the enums are not part of this model.
