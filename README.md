# A verified model of the calismaapp back end

This project models, in Dafny, the core of an English-practice back end. The
back end is a Spring application with two generations: `backend` and
`backend_v2`. The parts modelled are:

- **The matchmaking coordinator** (`MatchmakingService`). It keeps a FIFO
  waiting queue of user ids and four maps: partner, room, last heartbeat and
  queue-join time. Its operations are join, leave, getMatch, endMatch, the
  heartbeat and timeout queries, and the periodic stale-user sweep. Each
  operation is a method of the class `Matchmaking.MatchmakingService`. Each
  method is proved equal to a specification function on a `Coordinator`
  value. The lemmas state what those functions preserve or break.
- **The user entities**:
  - `User`: XP, the level step function, the next-level threshold, and the
    login, logout and activity stamps.
  - `UserSession`: expiry and invalidation.
  - `UserDailyStats`: the counters, including correct ≤ total answers.
  - `UserFriend`: the status machine.
  - `Word`: the sentence list and its back-pointers.
  
  Each one whose fields change in place is a class with field-level
  `modifies` frames.
- **The store-backed services**, over tables modelled as sequences:
  - `WordReviewService`: one review per word and day, review dates, the
    summary map, and deletes.
  - `SentencePracticeService`: save, update and delete semantics, the
    ordered listings, and the counts.
- **The controllers' string logic**:
  - the `practice_`/`word_` id scheme of the sentence listing and its
    delete routing;
  - difficulty normalisation and statistics;
  - request validation;
  - the three regular expressions of the chatbot controller, each written
    as a scanner with its own specification: numbered sentences, the ad-hoc
    JSON fields, and the trailing-parenthesis split;
  - bearer-token extraction, and the order of the auth endpoints' checks.
- **`AuthService`**:
  - tag normalisation and generation;
  - login dispatch and the order of its failures;
  - registration;
  - selective profile update;
  - the device-type rule;
  - token validation;
  - password change with session invalidation.

The repositories are sequences of objects. BCrypt is a pair of functions
held by the service. `Random` is a draw function.

Time is an explicit parameter `now` in milliseconds; days are integers.
Java `int` arithmetic is written out where it matters (`Wrap32`, `JavaDiv`).
`Long.parseLong`, `Long.toString` (decimal), `String.trim`, `isBlank`,
`startsWith`, `contains`, `replaceAll`, `split`, `String.join` and
`compareTo` are modelled in `JavaLang`. `compareTo` compares the UTF-16 code
units of the two strings, so a character above U+FFFF sorts before U+FFFF
(`SupplementaryBeforeBmpEnd`). `parseLong` accepts every decimal digit that
`Character.digit` knows in the Basic Multilingual Plane, so "٣" parses as 3
(`ParseLongArabicIndic`). `List.remove`, filtering, counting
and the `ORDER BY … DESC` sort are modelled in `Collections`.

Where the code and the intended behaviour disagree, the model follows the
code. For each such place, a lemma exhibits the difference:

- **The matchmaker's invariants do not hold unconditionally.**
  - Leaving while matched leaves the partner pointing at the caller, with no
    room (`LeaveDanglesPartner`). The intended behaviour tears the pair down.
  - A caller already at the head of the queue is matched with itself
    (`JoinSelfMatch`).
  - From the empty coordinator the queue never holds more than one user
    (`RunQueueAtMostOne`). A second join by the only queued user is
    therefore the self-match (`ReachedRejoinIsSelfMatch`).
  - A stale user whose partner is still fresh is swept, and the partner
    keeps pointing at it (`SweepDanglesPartner`). The sweep keeps
    consistency when every stale matched user's partner is stale too
    (`SweepPreservesConsistent`).
  - Room ids collide when an id contains `_` (`RoomIdCollision`).
  
  Consistency is therefore proved under stated preconditions: well-formed
  ids, a caller not already queued, and an unmatched caller for leave.
- **The sentence controller never deletes a listed practice row.** It strips
  eight characters from a nine-character `practice_` prefix, so every listed
  practice id is refused with 400 (`ListedPracticeIdsRefused`).
- **The sentence controller never deletes a listed word sentence either.**
  `deleteById` loads the sentence with its word, and the word's eagerly
  fetched sentence list cascades every operation. At flush the persist
  cascade reaches the removed sentence, which makes it managed again
  (sections 3.2.2 and 3.2.4 of the Jakarta Persistence specification). The
  endpoint answers 200 and the row stays (`DeleteKeepsWordSentence`). The
  intended behaviour removes the sentence from its word's list first, which
  `Word.removeSentence` does.
- **Two of the JSON fallback checks can never fire.** They look for the
  quoted `"isCorrect":true/false` flags in a lower-cased string
  (`QuotedFlagsNeverLower`).
- **Level 10 covers 11000 ≤ xp < 20000** (`LevelTenSpan`). From level 10 on,
  the "XP for next level" lies inside the current level, so it never reaches
  level + 1 (`NextLevelFromTen`). From level 11 on it is exactly where the
  current level starts (`LevelFormula`).
- **Clearing a language breaks the profile endpoint.** `updateProfile`
  stores a JSON null for `nativeLanguage` or `targetLanguage`, and the
  `/me` body hands both to `Map.entry`, which throws on null. After
  `{"nativeLanguage": null}` is accepted, every `/me` of that user is a
  server error (`ClearedLanguageBreaksProfile`).
- **The statistics can miss sentences.** A word sentence with no difficulty
  is listed as "easy" but counted in no bucket
  (`UnratedSentenceMissingFromBuckets`).

## Model

| member | source | states |
|---|---|---|
| Matchmaking.RoomIdSymmetric | backend_v2/src/main/java/com/ingilizce/calismaapp/service/MatchmakingService.java:186-191 | The room id does not depend on argument order and is "room_" + the smaller id + "_" + the larger one in string order |
| Matchmaking.RoomIdInjective | backend_v2/src/main/java/com/ingilizce/calismaapp/service/MatchmakingService.java:186-191 | For ids without '_' a room id determines its pair of users (up to order) |
| Matchmaking.RoomIdParts | backend_v2/src/main/java/com/ingilizce/calismaapp/service/MatchmakingService.java:186-191 | A room id is "room_" followed by the two ids, in one order or the other, joined by '_' |
| Matchmaking.RoomIdCollision | backend_v2/src/main/java/com/ingilizce/calismaapp/service/MatchmakingService.java:186-191 | Ids containing '_' collide: ("a_b","c") and ("a","b_c") get the same room id |
| Matchmaking.JoinWhenMatched | backend_v2/src/main/java/com/ingilizce/calismaapp/service/MatchmakingService.java:113-120 | A matched caller only refreshes its heartbeat and gets the room stored under its pair's id, or none if it was deleted |
| Matchmaking.JoinEnqueues | backend_v2/src/main/java/com/ingilizce/calismaapp/service/MatchmakingService.java:138-140 | With an empty queue the unmatched caller is appended with join time and heartbeat now, nothing else changes, and no room is returned |
| Matchmaking.JoinPairsWithHead | backend_v2/src/main/java/com/ingilizce/calismaapp/service/MatchmakingService.java:123-135 | With a non-empty queue the head is popped (its join time removed), paired both ways with the caller, and a room (caller, head, id, now) is stored and returned |
| Matchmaking.JoinSelfMatch | backend_v2/src/main/java/com/ingilizce/calismaapp/service/MatchmakingService.java:123-135 | A caller at the head of the queue is matched with itself |
| Matchmaking.HeartbeatKeepsConsistent | backend_v2/src/main/java/com/ingilizce/calismaapp/service/MatchmakingService.java:47-49 | A heartbeat keeps the coordinator consistent |
| Matchmaking.JoinPreservesConsistent | backend_v2/src/main/java/com/ingilizce/calismaapp/service/MatchmakingService.java:111-141 | A join by a well-formed caller that is not queued keeps pairing symmetric and irreflexive, one room per pair, and queue xor matched |
| Matchmaking.LeaveRemovesCaller | backend_v2/src/main/java/com/ingilizce/calismaapp/service/MatchmakingService.java:146-155 | After leave the caller is in no map and no room, and every other user keeps its queue membership |
| Matchmaking.LeaveDanglesPartner | backend_v2/src/main/java/com/ingilizce/calismaapp/service/MatchmakingService.java:146-155 | Leaving while matched leaves the partner pointing at the caller with getMatch empty, so consistency is lost |
| Matchmaking.RoomsOfUnmatched | backend_v2/src/main/java/com/ingilizce/calismaapp/service/MatchmakingService.java:152-154 | In a consistent state the room removal of leave removes nothing for an unmatched caller |
| Matchmaking.LeavePreservesConsistent | backend_v2/src/main/java/com/ingilizce/calismaapp/service/MatchmakingService.java:146-155 | An unmatched caller leaving keeps the coordinator consistent |
| Matchmaking.MatchOfPaired | backend_v2/src/main/java/com/ingilizce/calismaapp/service/MatchmakingService.java:160-168 | In a consistent state getMatch returns the room naming the user and its partner when matched, and none otherwise |
| Matchmaking.EndMatchUnpairs | backend_v2/src/main/java/com/ingilizce/calismaapp/service/MatchmakingService.java:173-181 | endMatch removes both directions and the room, removes only the caller's heartbeat, and keeps the queue and join times |
| Matchmaking.EndMatchPreservesConsistent | backend_v2/src/main/java/com/ingilizce/calismaapp/service/MatchmakingService.java:173-181 | endMatch keeps the coordinator consistent, matched or not |
| Matchmaking.WaitingTimeSeconds | backend_v2/src/main/java/com/ingilizce/calismaapp/service/MatchmakingService.java:54-59 | The waiting time is 0 off the queue and the whole seconds elapsed since joining on it |
| Matchmaking.StaleUsersCharacterized | backend_v2/src/main/java/com/ingilizce/calismaapp/service/MatchmakingService.java:76-94 | A user is stale exactly when its heartbeat is more than 15000 ms old or it has queued more than 60000 ms (strict) |
| Matchmaking.LeaveAfterLeaveAll | backend_v2/src/main/java/com/ingilizce/calismaapp/service/MatchmakingService.java:97-102 | One more leave after a group has left is the larger group leaving |
| Matchmaking.LeaveInOrderIsLeaveAll | backend_v2/src/main/java/com/ingilizce/calismaapp/service/MatchmakingService.java:97-102 | Calling leaveQueue on distinct users one at a time equals removing them all at once, in any order |
| Matchmaking.SweepInOrder | backend_v2/src/main/java/com/ingilizce/calismaapp/service/MatchmakingService.java:97-102 | Any duplicate-free listing of the stale users, left one by one, gives the sweep |
| Matchmaking.SweepRemovesStale | backend_v2/src/main/java/com/ingilizce/calismaapp/service/MatchmakingService.java:76-103 | After the sweep no stale user is queued, matched, timed or heart-beating, and every other user keeps its entries |
| Matchmaking.LeaveAllPreservesConsistent | backend_v2/src/main/java/com/ingilizce/calismaapp/service/MatchmakingService.java:97-102 | Removing a set of users closed under partners keeps the coordinator consistent |
| Matchmaking.SweepPreservesConsistent | backend_v2/src/main/java/com/ingilizce/calismaapp/service/MatchmakingService.java:76-103 | The sweep keeps consistency when the partner of every stale matched user is stale as well |
| Matchmaking.SweepDanglesPartner | backend_v2/src/main/java/com/ingilizce/calismaapp/service/MatchmakingService.java:76-103 | A stale user with a fresh partner is swept while the partner still points at it, getMatch of the partner is empty and consistency is lost |
| Matchmaking.TwoJoins | backend_v2/src/main/java/com/ingilizce/calismaapp/service/MatchmakingService.java:111-141 | Two joins on an empty coordinator: the first queues, the second pairs with it in room "room_A_B" and empties the queue |
| Matchmaking.StepQueueAtMostOne | backend_v2/src/main/java/com/ingilizce/calismaapp/service/MatchmakingService.java:123-140 | Any one call keeps the waiting queue at one user or fewer |
| Matchmaking.RunQueueAtMostOne | backend_v2/src/main/java/com/ingilizce/calismaapp/service/MatchmakingService.java:111-141 | Any sequence of calls from the empty coordinator leaves at most one user queued |
| Matchmaking.ReachedRejoinIsSelfMatch | backend_v2/src/main/java/com/ingilizce/calismaapp/service/MatchmakingService.java:123-135 | In every reachable state, a queued unmatched user is the whole queue, and its second join empties the queue and pairs it with itself |
| Matchmaking.MatchmakingService.constructor | backend_v2/src/main/java/com/ingilizce/calismaapp/service/MatchmakingService.java:12-24 | A new coordinator has an empty queue and empty maps |
| Matchmaking.MatchmakingService.UpdateHeartbeat | backend_v2/src/main/java/com/ingilizce/calismaapp/service/MatchmakingService.java:47-49 | The new state is the old one with the caller's heartbeat set to now |
| Matchmaking.MatchmakingService.GetWaitingTime | backend_v2/src/main/java/com/ingilizce/calismaapp/service/MatchmakingService.java:54-59 | Returns the waiting time of the current state |
| Matchmaking.MatchmakingService.IsQueueTimedOut | backend_v2/src/main/java/com/ingilizce/calismaapp/service/MatchmakingService.java:64-69 | True exactly when the caller has a join time more than 60000 ms before now |
| Matchmaking.MatchmakingService.JoinQueue | backend_v2/src/main/java/com/ingilizce/calismaapp/service/MatchmakingService.java:111-141 | The returned room and the new state are those of Join on the old state |
| Matchmaking.MatchmakingService.LeaveQueue | backend_v2/src/main/java/com/ingilizce/calismaapp/service/MatchmakingService.java:146-155 | The new state is Leave of the old state: the queue's first occurrence, the caller's keys and every room naming the caller are removed |
| Matchmaking.MatchmakingService.GetMatch | backend_v2/src/main/java/com/ingilizce/calismaapp/service/MatchmakingService.java:160-168 | Read-only: the room under the id derived from the partner, none without a partner |
| Matchmaking.MatchmakingService.EndMatch | backend_v2/src/main/java/com/ingilizce/calismaapp/service/MatchmakingService.java:173-181 | The new state is EndPair of the old state |
| Matchmaking.MatchmakingService.GetQueueSize | backend_v2/src/main/java/com/ingilizce/calismaapp/service/MatchmakingService.java:196-198 | Returns the queue's length |
| Matchmaking.MatchmakingService.IsInQueue | backend_v2/src/main/java/com/ingilizce/calismaapp/service/MatchmakingService.java:203-205 | True exactly when the user is in the queue |
| Matchmaking.MatchmakingService.CollectStaleUsers | backend_v2/src/main/java/com/ingilizce/calismaapp/service/MatchmakingService.java:79-94 | The two scans collect each stale user exactly once (no duplicates, and the set is StaleUsers) |
| Matchmaking.MatchmakingService.CleanupStaleUsers | backend_v2/src/main/java/com/ingilizce/calismaapp/service/MatchmakingService.java:76-103 | The new state is the sweep of the old state: every stale user has left |
| Users.LevelValueOf | backend_v2/src/main/java/com/ingilizce/calismaapp/entity/User.java:210-216 | Enum.valueOf succeeds only on a constant's exact name |
| Users.LevelNamesRoundTrip | backend_v2/src/main/java/com/ingilizce/calismaapp/entity/User.java:210-216 | valueOf inverts name(), valueOf succeeds exactly on names, and the level orders are 1 to 6 without repeats |
| Users.LevelMonotone | backend_v2/src/main/java/com/ingilizce/calismaapp/entity/User.java:167-189 | calculateLevel is at least 1 and never decreases as XP grows |
| Users.CalculateLevel | backend_v2/src/main/java/com/ingilizce/calismaapp/entity/User.java:167-189 | At least 1; at most 10 below 15000 XP and at least 10 from there on |
| Users.LevelTenSpan | backend_v2/src/main/java/com/ingilizce/calismaapp/entity/User.java:184-188 | Level 10 is exactly 11000 ≤ xp < 20000 |
| Users.LevelFormula | backend_v2/src/main/java/com/ingilizce/calismaapp/entity/User.java:188 | Level L ≥ 11 is reached exactly from xp 15000 + (L − 10)·5000 |
| Users.XpForNextLevel | backend_v2/src/main/java/com/ingilizce/calismaapp/entity/User.java:191-197 | Defined on every level but a negative one, where Java's array access fails |
| Users.NextLevelBelowTen | backend_v2/src/main/java/com/ingilizce/calismaapp/entity/User.java:191-195 | For levels 1–9 the answer is the least XP with the next level |
| Users.NextLevelFromTen | backend_v2/src/main/java/com/ingilizce/calismaapp/entity/User.java:191-196 | From level 10 the answer lies inside the current level (from level 11, exactly where it starts), so it never reaches level + 1 |
| Users.XpOverflow | backend_v2/src/main/java/com/ingilizce/calismaapp/entity/User.java:162 | One XP more than Integer.MAX_VALUE wraps to Integer.MIN_VALUE and level 1 |
| Users.User.constructor | backend_v2/src/main/java/com/ingilizce/calismaapp/entity/User.java:122-128 | The given identity with the field defaults: Turkish/English, BEGINNER, active, offline, XP 0, level 1 |
| Users.User.FullDisplayTag | backend_v2/src/main/java/com/ingilizce/calismaapp/entity/User.java:141-143 | The display name followed by the tag |
| Users.User.SetProfile | backend_v2/src/main/java/com/ingilizce/calismaapp/entity/User.java:272-331 | The profile setters set exactly their fields |
| Users.User.RecordLogin | backend_v2/src/main/java/com/ingilizce/calismaapp/entity/User.java:145-149 | Online, with last login and last activity at now |
| Users.User.RecordLogout | backend_v2/src/main/java/com/ingilizce/calismaapp/entity/User.java:151-154 | Offline, with last logout at now |
| Users.User.RecordActivity | backend_v2/src/main/java/com/ingilizce/calismaapp/entity/User.java:156-158 | Only the last-activity stamp changes |
| Users.User.AddXp | backend_v2/src/main/java/com/ingilizce/calismaapp/entity/User.java:160-165 | The XP total grows with int wrap-around, the level is recomputed, the result says whether it rose, and without overflow it never falls |
| Sessions.UserSession.constructor | backend_v2/src/main/java/com/ingilizce/calismaapp/entity/UserSession.java:64-75 | Login and activity at now, expiry 30 days later, active, not expired now, expired just after the expiry instant |
| Sessions.UserSession.RecordActivity | backend_v2/src/main/java/com/ingilizce/calismaapp/entity/UserSession.java:81-83 | Only the last-activity stamp changes |
| Sessions.UserSession.Invalidate | backend_v2/src/main/java/com/ingilizce/calismaapp/entity/UserSession.java:85-88 | Inactive with logout at now; nothing else changes |
| Sessions.ExpiryThreshold | backend_v2/src/main/java/com/ingilizce/calismaapp/entity/UserSession.java:77-79 | `isExpired` is strict: the expiry instant is still valid, the next millisecond is not, and an expired session stays expired later |
| Sessions.UserSession.ExtendSession | backend_v2/src/main/java/com/ingilizce/calismaapp/entity/UserSession.java:90-92 | The expiry is now + days, whatever it was; a non-negative extension is not expired now, a negative one is |
| DailyStats.UserDailyStats.constructor | backend_v2/src/main/java/com/ingilizce/calismaapp/entity/UserDailyStats.java:71-80 | Every counter 0 and the goal not completed |
| DailyStats.UserDailyStats.AccuracyRate | backend_v2/src/main/java/com/ingilizce/calismaapp/entity/UserDailyStats.java:83-87 | 0 without answers, in [0, 100] when correct ≤ total, 100 when every answer was correct |
| DailyStats.UserDailyStats.AddXp | backend_v2/src/main/java/com/ingilizce/calismaapp/entity/UserDailyStats.java:89-92 | Only the XP earned (wrapping) and the update stamp change |
| DailyStats.UserDailyStats.IncrementWordsLearned | backend_v2/src/main/java/com/ingilizce/calismaapp/entity/UserDailyStats.java:94-97 | Only that counter (+1) and the update stamp change |
| DailyStats.UserDailyStats.IncrementWordsReviewed | backend_v2/src/main/java/com/ingilizce/calismaapp/entity/UserDailyStats.java:99-102 | Only that counter (+1) and the update stamp change |
| DailyStats.UserDailyStats.AddStudyTime | backend_v2/src/main/java/com/ingilizce/calismaapp/entity/UserDailyStats.java:104-107 | Only the study minutes (wrapping) and the update stamp change |
| DailyStats.UserDailyStats.RecordAnswer | backend_v2/src/main/java/com/ingilizce/calismaapp/entity/UserDailyStats.java:109-114 | One more answer, one more correct answer exactly when correct, and correct ≤ total is kept below the int limit |
| DailyStats.Tally | backend_v2/src/main/java/com/ingilizce/calismaapp/entity/UserDailyStats.java:109-114 | The counters after a sequence of answers satisfy 0 ≤ correct ≤ total = number of answers |
| DailyStats.RecordAll | backend_v2/src/main/java/com/ingilizce/calismaapp/entity/UserDailyStats.java:109-114 | Recording answers one by one on a fresh record gives the tally and keeps correct ≤ total |
| Friends.StatusOfEvent | backend_v2/src/main/java/com/ingilizce/calismaapp/entity/UserFriend.java:55-74 | The status after an operation depends on the operation alone: no transition checks the prior status |
| Friends.StatusDisplayName | backend_v2/src/main/java/com/ingilizce/calismaapp/entity/UserFriend.java:77-91 | The Turkish display name of each status |
| Friends.StatusDisplayNameInjective | backend_v2/src/main/java/com/ingilizce/calismaapp/entity/UserFriend.java:77-91 | No two statuses share a display name |
| Friends.RunKeepsBlockFields | backend_v2/src/main/java/com/ingilizce/calismaapp/entity/UserFriend.java:55-74 | Every sequence of operations keeps a BLOCKED friendship carrying its block instant, and no reason without an instant |
| Friends.UnblockUndoesBlock | backend_v2/src/main/java/com/ingilizce/calismaapp/entity/UserFriend.java:60-70 | Unblocking an accepted friendship just blocked restores it exactly, accepted instant included |
| Friends.BlockOutlivesAcceptAndReject | backend_v2/src/main/java/com/ingilizce/calismaapp/entity/UserFriend.java:55-74 | Accept and reject of a blocked friendship keep the block instant and reason |
| Friends.UserFriend.constructor | backend_v2/src/main/java/com/ingilizce/calismaapp/entity/UserFriend.java:44-52 | A new friendship is PENDING with no stamps |
| Friends.UserFriend.Accept | backend_v2/src/main/java/com/ingilizce/calismaapp/entity/UserFriend.java:55-58 | ACCEPTED with accepted instant now; the block fields stay |
| Friends.UserFriend.Block | backend_v2/src/main/java/com/ingilizce/calismaapp/entity/UserFriend.java:60-64 | BLOCKED with block instant now and the given reason |
| Friends.UserFriend.Unblock | backend_v2/src/main/java/com/ingilizce/calismaapp/entity/UserFriend.java:66-70 | ACCEPTED, block fields cleared, accepted instant unchanged |
| Friends.UserFriend.Reject | backend_v2/src/main/java/com/ingilizce/calismaapp/entity/UserFriend.java:72-74 | REJECTED, every stamp untouched |
| Words.Sentence.constructor | backend/src/main/java/com/ingilizce/calismaapp/entity/Sentence.java:31-36 | The given text, translation, difficulty and word |
| Words.Word.constructor | backend/src/main/java/com/ingilizce/calismaapp/entity/Word.java:39-43 | The given word with no sentences |
| Words.Word.AddSentence | backend/src/main/java/com/ingilizce/calismaapp/entity/Word.java:94-97 | The sentence is appended and points back at the word; other sentences keep their pointers; back-pointer consistency is kept |
| Words.Word.RemoveSentence | backend/src/main/java/com/ingilizce/calismaapp/entity/Word.java:99-102 | The first occurrence is removed and the back-pointer cleared, also when the sentence was not listed (list unchanged) |
| Words.AddThenRemove | backend/src/main/java/com/ingilizce/calismaapp/entity/Word.java:94-102 | Adding an unlisted sentence and removing it restores the list |
| Words.AddTwiceRemoveOnce | backend/src/main/java/com/ingilizce/calismaapp/entity/Word.java:94-102 | Adding a sentence twice and removing it once leaves it listed without a back-pointer |
| WordReviews.AddReviewTo | backend_v2/src/main/java/com/ingilizce/calismaapp/service/WordReviewService.java:25-39 | Fails on an unknown word, then on an existing review of that day; otherwise stores exactly one new review with the given type and notes |
| WordReviews.AddReviewKeepsStoreOk | backend_v2/src/main/java/com/ingilizce/calismaapp/service/WordReviewService.java:30-32 | addReview keeps distinct ids and at most one review per word and day |
| WordReviews.WordReviewsOf | backend_v2/src/main/java/com/ingilizce/calismaapp/service/WordReviewService.java:42-44 | The word's reviews, a permutation of its rows, latest day first |
| WordReviews.WordReviewsMembers | backend_v2/src/main/java/com/ingilizce/calismaapp/service/WordReviewService.java:42-44 | A review is listed exactly when it is a row of that word |
| WordReviews.ReviewsOn | backend_v2/src/main/java/com/ingilizce/calismaapp/service/WordReviewService.java:47-49 | Exactly the rows of that day |
| WordReviews.IsReviewedOn | backend_v2/src/main/java/com/ingilizce/calismaapp/service/WordReviewService.java:52-54 | A review of the word on that day is stored; then the word's review count is positive |
| WordReviews.ReviewCount | backend_v2/src/main/java/com/ingilizce/calismaapp/service/WordReviewService.java:57-59 | The number of the word's rows, never more than the stored rows |
| WordReviews.ReviewDates | backend_v2/src/main/java/com/ingilizce/calismaapp/service/WordReviewService.java:62-67 | One day per review of the word, each a day on which the word was reviewed |
| WordReviews.ReviewSummary | backend_v2/src/main/java/com/ingilizce/calismaapp/service/WordReviewService.java:70-77 | When it succeeds, each day maps to a stored review of the word on that day |
| WordReviews.ReviewCountSpec | backend_v2/src/main/java/com/ingilizce/calismaapp/service/WordReviewService.java:57-59 | The count is the number of the word's rows, 0 exactly when there are none |
| WordReviews.ReviewDatesSpec | backend_v2/src/main/java/com/ingilizce/calismaapp/service/WordReviewService.java:62-67 | One day per review of the word, descending, and a day occurs exactly when the word was reviewed that day |
| WordReviews.ReviewDatesMembers | backend_v2/src/main/java/com/ingilizce/calismaapp/service/WordReviewService.java:52-54 | A day is among the review dates exactly when isWordReviewedOnDate holds |
| WordReviews.ToMapByDate | backend_v2/src/main/java/com/ingilizce/calismaapp/service/WordReviewService.java:70-77 | Collectors.toMap succeeds exactly on distinct days and maps each day to its review |
| WordReviews.ReviewSummaryTotal | backend_v2/src/main/java/com/ingilizce/calismaapp/service/WordReviewService.java:70-77 | In a store kept by addReview the summary never fails and has exactly the reviewed days |
| WordReviews.DeleteByWordAndDateSpec | backend_v2/src/main/java/com/ingilizce/calismaapp/service/WordReviewService.java:85-88 | Every review of that word and day is removed, every other row kept, and the store stays well formed |
| WordReviews.DeleteReviewSpec | backend_v2/src/main/java/com/ingilizce/calismaapp/service/WordReviewService.java:80-82 | Exactly the rows with that id are removed and the store stays well formed |
| WordReviews.AddThenDelete | backend_v2/src/main/java/com/ingilizce/calismaapp/service/WordReviewService.java:25-88 | Adding a review and deleting that word and day gives back the original rows |
| WordReviews.WordReviewService.constructor | backend_v2/src/main/java/com/ingilizce/calismaapp/service/WordReviewService.java:15-22 | An empty, well-formed store over the given words |
| WordReviews.WordReviewService.AddReview | backend_v2/src/main/java/com/ingilizce/calismaapp/service/WordReviewService.java:25-39 | Result and new store are those of AddReviewTo, and well-formedness is kept |
| WordReviews.WordReviewService.DeleteReviewByWordAndDate | backend_v2/src/main/java/com/ingilizce/calismaapp/service/WordReviewService.java:85-88 | The new store is DeleteByWordAndDate of the old one |
| WordReviews.WordReviewService.DeleteReview | backend_v2/src/main/java/com/ingilizce/calismaapp/service/WordReviewService.java:80-82 | The new store is DeleteReviewFrom of the old one |
| SentencePractices.DifficultyValueOf | backend/src/main/java/com/ingilizce/calismaapp/entity/SentencePractice.java:81-92 | Enum.valueOf succeeds exactly on "EASY", "MEDIUM", "HARD" and returns the constant with that name |
| SentencePractices.FindIndex | backend/src/main/java/com/ingilizce/calismaapp/service/SentencePracticeService.java:35 | findById finds a row exactly when the id exists, and the row has that id |
| SentencePractices.Update | backend/src/main/java/com/ingilizce/calismaapp/service/SentencePracticeService.java:34-44 | An absent id gives null and no change; a present one gives the updated row |
| SentencePractices.UpdateSpec | backend/src/main/java/com/ingilizce/calismaapp/service/SentencePracticeService.java:37-41 | The three fields are copied, id and creation day kept, every other row unchanged, ids stay distinct |
| SentencePractices.Delete | backend/src/main/java/com/ingilizce/calismaapp/service/SentencePracticeService.java:47-53 | True exactly when the id existed, after which it is absent; false leaves the rows unchanged |
| SentencePractices.DeleteSpec | backend/src/main/java/com/ingilizce/calismaapp/service/SentencePracticeService.java:47-53 | Every other row is kept and ids stay distinct |
| SentencePractices.DeleteTwice | backend/src/main/java/com/ingilizce/calismaapp/service/SentencePracticeService.java:47-53 | A second delete of the same id reports false |
| SentencePractices.Save | backend/src/main/java/com/ingilizce/calismaapp/service/SentencePracticeService.java:29-31 | A body without an id, or with an id no row has, is stored last under the next id; a body with a stored id overwrites that row with all its fields and adds none (Hibernate's merge before 6.6) |
| SentencePractices.SaveKeepsRowsOk | backend/src/main/java/com/ingilizce/calismaapp/service/SentencePracticeService.java:29-31 | Saving keeps ids distinct and findById then returns the saved entity; an insert adds one row under a new id, a merge keeps the row count |
| SentencePractices.SaveStoredRow | backend/src/main/java/com/ingilizce/calismaapp/service/SentencePracticeService.java:29-31 | Saving a stored row back unchanged leaves the table and the id counter as they were |
| SentencePractices.AllSentences | backend/src/main/java/com/ingilizce/calismaapp/service/SentencePracticeService.java:19-21 | A permutation of the rows ordered by creation day, latest first |
| SentencePractices.ByDifficulty | backend/src/main/java/com/ingilizce/calismaapp/service/SentencePracticeService.java:56-58 | Exactly the rows of that difficulty, each as often as stored, latest first |
| SentencePractices.ByDate | backend/src/main/java/com/ingilizce/calismaapp/service/SentencePracticeService.java:61-63 | Exactly the rows of that day, each as often as stored |
| SentencePractices.ByDateRange | backend/src/main/java/com/ingilizce/calismaapp/service/SentencePracticeService.java:71-73 | Exactly the rows created between the two days inclusive, each as often as stored, latest first |
| SentencePractices.DateRangeOfOneDay | backend/src/main/java/com/ingilizce/calismaapp/service/SentencePracticeService.java:61-73 | A one-day range holds the same rows as that day's listing; an inverted range holds none |
| SentencePractices.DistinctDates | backend/src/main/java/com/ingilizce/calismaapp/service/SentencePracticeService.java:66-68 | Every creation day exactly once, strictly descending |
| SentencePractices.DifficultyCountsSum | backend/src/main/java/com/ingilizce/calismaapp/service/SentencePracticeService.java:76-82 | The three per-difficulty counts add up to the total |
| SentencePractices.TotalCount | backend/src/main/java/com/ingilizce/calismaapp/service/SentencePracticeService.java:76-78 | As many rows as the full listing shows |
| SentencePractices.CountByDifficulty | backend/src/main/java/com/ingilizce/calismaapp/service/SentencePracticeService.java:80-82 | The rows of that difficulty, never more than the total |
| SentencePractices.CountMatchesListing | backend/src/main/java/com/ingilizce/calismaapp/service/SentencePracticeService.java:76-82 | Each count is the length of the matching listing |
| SentencePractices.SentencePracticeService.constructor | backend/src/main/java/com/ingilizce/calismaapp/service/SentencePracticeService.java:13-16 | An empty table |
| SentencePractices.SentencePracticeService.SaveSentence | backend/src/main/java/com/ingilizce/calismaapp/service/SentencePracticeService.java:29-31 | Result, rows and id counter are those of Save, insert or merge, and ids stay distinct |
| SentencePractices.SentencePracticeService.UpdateSentence | backend/src/main/java/com/ingilizce/calismaapp/service/SentencePracticeService.java:34-44 | Result and new rows are those of Update, and ids stay distinct |
| SentencePractices.SentencePracticeService.DeleteSentence | backend/src/main/java/com/ingilizce/calismaapp/service/SentencePracticeService.java:47-53 | Result and new rows are those of Delete, and ids stay distinct |
| SentenceEndpoints.NormalizeDifficulty | backend/src/main/java/com/ingilizce/calismaapp/controller/SentencePracticeController.java:60-65 | "easy" for a missing or blank difficulty, else the same-length text with no upper-case letter |
| SentenceEndpoints.NormalizeDifficultyIdempotent | backend/src/main/java/com/ingilizce/calismaapp/controller/SentencePracticeController.java:60-65 | Normalising a normalised difficulty changes nothing |
| SentenceEndpoints.RouteDelete | backend/src/main/java/com/ingilizce/calismaapp/controller/SentencePracticeController.java:109-149 | "practice_" ids parse what follows index 8, "word_" ids what follows index 5, others whole; a failed parse is 400 |
| SentenceEndpoints.PracticeIdsRefused | backend/src/main/java/com/ingilizce/calismaapp/controller/SentencePracticeController.java:112-114 | Every "practice_" id is refused, as the cut leaves a leading '_' |
| SentenceEndpoints.ListedPracticeIdsRefused | backend/src/main/java/com/ingilizce/calismaapp/controller/SentencePracticeController.java:38 | No id the listing gives a practice row can delete it |
| SentenceEndpoints.ListedWordIdsRouted | backend/src/main/java/com/ingilizce/calismaapp/controller/SentencePracticeController.java:57 | A listed word-sentence id routes to the word table with its own id |
| SentenceEndpoints.BareIdsRouted | backend/src/main/java/com/ingilizce/calismaapp/controller/SentencePracticeController.java:130-134 | A bare decimal number is taken as that practice id |
| SentenceEndpoints.ArabicIndicIdRouted | backend/src/main/java/com/ingilizce/calismaapp/controller/SentencePracticeController.java:130-134 | The id "٣" is routed to the deletion of practice 3 |
| SentenceEndpoints.ParseDifficulty | backend/src/main/java/com/ingilizce/calismaapp/controller/SentencePracticeController.java:155 | Succeeds exactly when the upper-cased name is EASY, MEDIUM or HARD, giving that level |
| SentenceEndpoints.ParseDifficultyCaseInsensitive | backend/src/main/java/com/ingilizce/calismaapp/controller/SentencePracticeController.java:155 | Every spelling that upper-cases to a level name is accepted as that level |
| SentenceEndpoints.Statistics | backend/src/main/java/com/ingilizce/calismaapp/controller/SentencePracticeController.java:199-224 | Each combined figure is the practice count plus the word count (raw difficulty text), and the buckets never exceed the total |
| SentenceEndpoints.WordBucketsBounded | backend/src/main/java/com/ingilizce/calismaapp/controller/SentencePracticeController.java:207-210 | The three word-sentence buckets together never exceed the word total |
| SentenceEndpoints.PracticeStatsAddUp | backend/src/main/java/com/ingilizce/calismaapp/controller/SentencePracticeController.java:213-216 | Without word sentences the buckets add up to the total |
| SentenceEndpoints.UnratedSentenceMissingFromBuckets | backend/src/main/java/com/ingilizce/calismaapp/controller/SentencePracticeController.java:207-210 | A word sentence without difficulty is listed "easy" but counted in no bucket |
| SentenceEndpoints.AppendEach | backend/src/main/java/com/ingilizce/calismaapp/controller/SentencePracticeController.java:36-45 | The add loop keeps what the list held and appends the entry of each element, in order |
| SentenceEndpoints.SentencePracticeController.GetAllSentences | backend/src/main/java/com/ingilizce/calismaapp/controller/SentencePracticeController.java:30-81 | The practice rows (latest first) as "practice_" entries, then every word sentence as a "word_" entry, in order |
| SentenceEndpoints.SentencePracticeController.DeleteSentence | backend/src/main/java/com/ingilizce/calismaapp/controller/SentencePracticeController.java:109-149 | 400 and no change on a refused id; 200 for a word-sentence id, with the row kept because the flush re-persists it through its word's cascade; for a practice id 200 exactly when it existed (404 otherwise) |
| SentenceEndpoints.SentencePracticeController.DeleteKeepsWordSentence | backend/src/main/java/com/ingilizce/calismaapp/controller/SentencePracticeController.java:123-129 | Deleting a listed word sentence by its listed id answers 200, and the next listing still shows it |
| Chatbot.NumberMarker | backend/src/main/java/com/ingilizce/calismaapp/controller/ChatbotController.java:96 | The marker `\d+\)` ends after its parenthesis |
| Chatbot.NumberMarkerSpec | backend/src/main/java/com/ingilizce/calismaapp/controller/ChatbotController.java:96 | A marker is digits then ')', and one is found wherever such a run starts |
| Chatbot.LazyEndLeast | backend/src/main/java/com/ingilizce/calismaapp/controller/ChatbotController.java:96 | The lazy `.+?` stops at the first boundary (next marker or end) |
| Chatbot.NumberedMatchAt | backend/src/main/java/com/ingilizce/calismaapp/controller/ChatbotController.java:96 | A numbered match's group 1 lies after the marker and is not empty |
| Chatbot.NumberedMatchSpec | backend/src/main/java/com/ingilizce/calismaapp/controller/ChatbotController.java:96 | Group 1 follows a marker and its white space and ends at a boundary |
| Chatbot.FindNumbered | backend/src/main/java/com/ingilizce/calismaapp/controller/ChatbotController.java:97-99 | Matcher.find moves forward |
| Chatbot.FindNumberedFirst | backend/src/main/java/com/ingilizce/calismaapp/controller/ChatbotController.java:99 | find reports a start at which the pattern matches, with that match |
| Chatbot.FindNumberedNone | backend/src/main/java/com/ingilizce/calismaapp/controller/ChatbotController.java:99 | find fails only when the pattern matches at no later start |
| Chatbot.KeepTrimmed | backend/src/main/java/com/ingilizce/calismaapp/controller/ChatbotController.java:100-103 | The kept items are trimmed and non-empty |
| Chatbot.KeepLines | backend/src/main/java/com/ingilizce/calismaapp/controller/ChatbotController.java:107-115 | The kept lines are trimmed, non-empty and start with neither "ROLE:" nor "TASK:" |
| Chatbot.SentencesAreTrimmed | backend/src/main/java/com/ingilizce/calismaapp/controller/ChatbotController.java:92-118 | Every parsed sentence is non-empty and already trimmed |
| Chatbot.NumberedExample | backend/src/main/java/com/ingilizce/calismaapp/controller/ChatbotController.java:96-104 | "1) A 2) B" parses to ["A", "B"] |
| Chatbot.NumberedFirst | backend/src/main/java/com/ingilizce/calismaapp/controller/ChatbotController.java:107-115 | The line fallback is used exactly when no numbered item survives |
| Chatbot.ScanNumbered | backend/src/main/java/com/ingilizce/calismaapp/controller/ChatbotController.java:96-104 | The find loop yields the trimmed non-empty groups of successive matches |
| Chatbot.ScanLines | backend/src/main/java/com/ingilizce/calismaapp/controller/ChatbotController.java:108-114 | The line loop yields the kept lines in order |
| Chatbot.ParseSentences | backend/src/main/java/com/ingilizce/calismaapp/controller/ChatbotController.java:92-118 | parseSentences computes Sentences(response) |
| Chatbot.ValueStart | backend/src/main/java/com/ingilizce/calismaapp/controller/ChatbotController.java:136 | The value after a key and `\s*:\s*` starts after the key |
| Chatbot.StringAt | backend/src/main/java/com/ingilizce/calismaapp/controller/ChatbotController.java:145 | A quoted value read by `([^"]+)` is non-empty and has no quote |
| Chatbot.FindString | backend/src/main/java/com/ingilizce/calismaapp/controller/ChatbotController.java:145-147 | A found string field is non-empty and has no quote |
| Chatbot.StringFieldAt | backend/src/main/java/com/ingilizce/calismaapp/controller/ChatbotController.java:145 | A field written key:"v" is read back as v |
| Chatbot.BoolFieldAt | backend/src/main/java/com/ingilizce/calismaapp/controller/ChatbotController.java:136 | A flag written key:true or key:false is read back |
| Chatbot.FindStringSkips | backend/src/main/java/com/ingilizce/calismaapp/controller/ChatbotController.java:147 | find skips the positions where the key does not occur |
| Chatbot.FindBoolSkips | backend/src/main/java/com/ingilizce/calismaapp/controller/ChatbotController.java:138 | find skips the positions where the key does not occur |
| Chatbot.FindStringField | backend/src/main/java/com/ingilizce/calismaapp/controller/ChatbotController.java:145-151 | A string field's value is the one after the key's first occurrence |
| Chatbot.FindBoolField | backend/src/main/java/com/ingilizce/calismaapp/controller/ChatbotController.java:136-142 | The flag is the one after the key's first occurrence |
| Chatbot.FindStringAbsent | backend/src/main/java/com/ingilizce/calismaapp/controller/ChatbotController.java:149-151 | Without the key the pattern is not found, so the default applies |
| Chatbot.Cleaned | backend/src/main/java/com/ingilizce/calismaapp/controller/ChatbotController.java:125-126 | The cleaned reply is trimmed and contains no "```" fence at all |
| Chatbot.TrimKeepsAbsent | backend/src/main/java/com/ingilizce/calismaapp/controller/ChatbotController.java:126 | Trimming a text that does not contain a pattern cannot create it |
| Chatbot.CleanedPlain | backend/src/main/java/com/ingilizce/calismaapp/controller/ChatbotController.java:126 | A reply without backticks is only trimmed |
| Chatbot.JsonSlice | backend/src/main/java/com/ingilizce/calismaapp/controller/ChatbotController.java:129-133 | The slice starts with '{' and ends with '}' |
| Chatbot.JsonSliceSpec | backend/src/main/java/com/ingilizce/calismaapp/controller/ChatbotController.java:129-132 | The braces branch is taken exactly when some '}' follows some '{' |
| Chatbot.ParseJson | backend/src/main/java/com/ingilizce/calismaapp/controller/ChatbotController.java:120-181 | The three fields are always set; a correct translation has no quote; the braces branch never gives an empty feedback |
| Chatbot.JsonFields | backend/src/main/java/com/ingilizce/calismaapp/controller/ChatbotController.java:132-160 | In the braces branch each field is the first match in the slice or its default ("Çeviri kontrol edildi." for feedback) |
| Chatbot.NoJsonVerdict | backend/src/main/java/com/ingilizce/calismaapp/controller/ChatbotController.java:162-171 | Without braces: correct = contains "doğru" or neither "incorrect" nor "yanlış"; no translation; feedback the cleaned reply |
| Chatbot.QuotedFlagsNeverLower | backend/src/main/java/com/ingilizce/calismaapp/controller/ChatbotController.java:163-167 | The quoted isCorrect tests never match a lower-cased string |
| Chatbot.CheckReply | backend/src/main/java/com/ingilizce/calismaapp/controller/ChatbotController.java:173-178 | A null reply gives the failure fallback followed by the exception's message; any other is parsed |
| Chatbot.ParenTail | backend/src/main/java/com/ingilizce/calismaapp/controller/ChatbotController.java:224 | The tail `\s*\(([^)]+)\)\s*$` has a '(' before group 2 and a ')' after it |
| Chatbot.TrailingDollar | backend/src/main/java/com/ingilizce/calismaapp/controller/ChatbotController.java:224 | Backtracking into trailing white space finds no other `$` position |
| Chatbot.LazyParen | backend/src/main/java/com/ingilizce/calismaapp/controller/ChatbotController.java:224 | The lazy `.+?` ends where a tail matches |
| Chatbot.ParenMatchAt | backend/src/main/java/com/ingilizce/calismaapp/controller/ChatbotController.java:224 | A match's group 1 is non-empty and followed by a tail |
| Chatbot.FindParen | backend/src/main/java/com/ingilizce/calismaapp/controller/ChatbotController.java:225-226 | find reports the first start with a match; a match needs a '(' |
| Chatbot.NoParenKeepsSentence | backend/src/main/java/com/ingilizce/calismaapp/controller/ChatbotController.java:220-229 | A sentence without '(' is kept whole with an empty translation |
| Chatbot.ParenTailInLayout | backend/src/main/java/com/ingilizce/calismaapp/controller/ChatbotController.java:224 | In "text (translation)" the tail matches exactly where only white space precedes the parenthesis |
| Chatbot.MatchInLayout | backend/src/main/java/com/ingilizce/calismaapp/controller/ChatbotController.java:224-228 | In that shape group 1 is the text less trailing white space |
| Chatbot.ParenSplitSimple | backend/src/main/java/com/ingilizce/calismaapp/controller/ChatbotController.java:220-229 | "text (translation)" splits into the trimmed text and the trimmed translation |
| Chatbot.ParenAfterLineBreak | backend/src/main/java/com/ingilizce/calismaapp/controller/ChatbotController.java:220-229 | With a line break in the text only the last line is kept as English, since `.` stops at line terminators |
| Chatbot.NoMatchBeforeBreak | backend/src/main/java/com/ingilizce/calismaapp/controller/ChatbotController.java:225-226 | Before such a line break find skips to the start of the next line |
| Chatbot.GenerateSentences | backend/src/main/java/com/ingilizce/calismaapp/controller/ChatbotController.java:25-51 | 400 exactly for a missing or blank word; otherwise the parsed sentences of the model's reply to the trimmed word, with their count |
| Chatbot.CombinedMessage | backend/src/main/java/com/ingilizce/calismaapp/controller/ChatbotController.java:72 | Both texts sit untrimmed between the fixed labels, followed by the instruction |
| Chatbot.CheckTranslation | backend/src/main/java/com/ingilizce/calismaapp/controller/ChatbotController.java:53-90 | 400 exactly when either text is missing; otherwise the verdict of the reply to the combined message |
| Chatbot.Chat | backend/src/main/java/com/ingilizce/calismaapp/controller/ChatbotController.java:257-282 | 400 exactly for a missing or blank message; otherwise the reply to the trimmed message, stamped now |
| Chatbot.MeaningTextPlacesEach | backend/src/main/java/com/ingilizce/calismaapp/controller/ChatbotController.java:206-208 | Every meaning appears in order at its place, each but the last followed by ", "; no meanings give "" |
| Chatbot.SaveToToday | backend/src/main/java/com/ingilizce/calismaapp/controller/ChatbotController.java:185-255 | 400 exactly for a missing or blank word; otherwise the trimmed word, joined meanings, today, "medium", and each sentence split, in order |
| AuthEndpoints.ExtractToken | backend_v2/src/main/java/com/ingilizce/calismaapp/controller/AuthController.java:237-242 | "Bearer " + t gives t; any other header is returned as is, a missing one stays missing |
| AuthEndpoints.ExtractBearer | backend_v2/src/main/java/com/ingilizce/calismaapp/controller/AuthController.java:238-239 | A token sent with the scheme comes back unchanged, an empty one included |
| AuthEndpoints.ExtractBare | backend_v2/src/main/java/com/ingilizce/calismaapp/controller/AuthController.java:241 | A token without the scheme is accepted as it is, same as with it |
| AuthEndpoints.ExtractOnce | backend_v2/src/main/java/com/ingilizce/calismaapp/controller/AuthController.java:237-242 | Only one scheme prefix is removed |
| AuthEndpoints.Utf16Length | backend_v2/src/main/java/com/ingilizce/calismaapp/controller/AuthController.java:38 | length() counts UTF-16 units: between one and two per character |
| AuthEndpoints.Utf16LengthIsUnits | backend_v2/src/main/java/com/ingilizce/calismaapp/controller/AuthController.java:38 | length() is the number of UTF-16 code units of the string |
| AuthEndpoints.SupplementaryPasswordLongEnough | backend_v2/src/main/java/com/ingilizce/calismaapp/controller/AuthController.java:38 | Three characters outside the BMP already pass the 6-character check |
| AuthEndpoints.RegisterCheck | backend_v2/src/main/java/com/ingilizce/calismaapp/controller/AuthController.java:32-40 | Refuses, in order, a missing or blank email, a missing or blank name, a missing or short password; passes otherwise |
| AuthEndpoints.LoginCheck | backend_v2/src/main/java/com/ingilizce/calismaapp/controller/AuthController.java:62-68 | Refuses, in order, a missing or blank key, then a missing or blank password |
| AuthEndpoints.RegisterPassInputs | backend_v2/src/main/java/com/ingilizce/calismaapp/controller/AuthController.java:32-40 | Passing the checks means all three inputs are present and non-empty |
| AuthEndpoints.ControlCharacterNameReachesService | backend_v2/src/main/java/com/ingilizce/calismaapp/controller/AuthController.java:35 | A control-character name passes isBlank but trims to nothing in the service |
| AuthEndpoints.EmQuadNameRefused | backend_v2/src/main/java/com/ingilizce/calismaapp/controller/AuthController.java:35 | An em quad name is blank for the endpoint though trim keeps it |
| AuthEndpoints.Register | backend_v2/src/main/java/com/ingilizce/calismaapp/controller/AuthController.java:25-49 | Checks refuse with 400 before the service and change nothing; a taken email is 400, and every refusal from the service changes nothing; success is 200, stores the new user last with a fresh "#" tag and opens one session whose token and expiry are returned |
| AuthEndpoints.Login | backend_v2/src/main/java/com/ingilizce/calismaapp/controller/AuthController.java:56-77 | Checks refuse with 400 before the service; an unknown key, a wrong password or a disabled account is 401 and changes nothing; success is 200 for the found user, stamps login, online and activity on that user only, and opens one session whose token and expiry are returned |
| AuthEndpoints.Logout | backend_v2/src/main/java/com/ingilizce/calismaapp/controller/AuthController.java:84-94 | 400 without a header; otherwise 200; an unknown token changes nothing; a known one is closed at `now` and its user marked offline with a logout time, and no other session or user changes |
| AuthEndpoints.GetProfile | backend_v2/src/main/java/com/ingilizce/calismaapp/controller/AuthController.java:101-120 | 401 without a header or live session, changing nothing; otherwise only the session's and its user's activity stamps change, and the reply is 200 with the session's user when both languages are present, else a 500 from `Map.entry` |
| AuthEndpoints.ClearedLanguageBreaksProfile | backend_v2/src/main/java/com/ingilizce/calismaapp/controller/AuthController.java:254-255 | A live user's PUT /profile with a null `nativeLanguage` is accepted, and the following GET /me is a 500 |
| AuthEndpoints.FindUserByTag | backend_v2/src/main/java/com/ingilizce/calismaapp/controller/AuthController.java:127-153 | 401 unless the caller has a live session, changing nothing; then only the caller's session and user get their activity stamps, and the reply is the user with the normalised tag (404 when none) |
| AuthEndpoints.UpdateProfile | backend_v2/src/main/java/com/ingilizce/calismaapp/controller/AuthController.java:160-178 | 401 without a header or live session, changing nothing; for a live session the activity stamps are written and no other session or user changes; a null level is a 500 that keeps every profile field; otherwise 200 with each present key applied: name (non-blank, trimmed), bio, avatar, country, both languages and level |
| AuthEndpoints.ChangePassword | backend_v2/src/main/java/com/ingilizce/calismaapp/controller/AuthController.java:185-216 | Token (401) before length (400) before the service; a 401 changes nothing; for a live session only the activity stamps of that session and user change, except that success re-hashes the password and closes exactly the user's active sessions at `now`; every refusal keeps the password and every session's state |
| AuthEndpoints.NewPassword | backend_v2/src/main/java/com/ingilizce/calismaapp/controller/AuthController.java:201-215 | A short or missing new password is 400 and a missing current one 500, a wrong current one 400, each changing nothing; otherwise 200 with the new hash and the user's active sessions closed |
| AuthEndpoints.ValidateToken | backend_v2/src/main/java/com/ingilizce/calismaapp/controller/AuthController.java:223-233 | Always 200; valid exactly when a header names a live session; a dead token or no header changes nothing; a live session and its user get their activity stamps and nothing else changes |
| Auth.NormalizeTag | backend_v2/src/main/java/com/ingilizce/calismaapp/service/AuthService.java:220-225 | The result starts with "#", ends with the input, and equals it exactly when the input starts with "#" |
| Auth.NormalizeTagIdempotent | backend_v2/src/main/java/com/ingilizce/calismaapp/service/AuthService.java:220-225 | Normalising twice is normalising once; "n" and "#n" name the same tag |
| Auth.Candidate | backend_v2/src/main/java/com/ingilizce/calismaapp/service/AuthService.java:47-55 | Attempts up to 100 draw a 5-digit number, later ones a 6-digit number |
| Auth.CandidateTagLength | backend_v2/src/main/java/com/ingilizce/calismaapp/entity/User.java:24 | Generated tags have 6 or 7 characters, within the column's 10 |
| Auth.FindEmail | backend_v2/src/main/java/com/ingilizce/calismaapp/repository/UserRepository.java:17 | The first user with the email, none exactly when no user has it |
| Auth.FindTag | backend_v2/src/main/java/com/ingilizce/calismaapp/repository/UserRepository.java:19 | The first user with the tag, none exactly when no user has it |
| Auth.FindToken | backend_v2/src/main/java/com/ingilizce/calismaapp/repository/UserSessionRepository.java:18 | The first session with the token, none exactly when no session has it |
| Auth.ExistsByEmailFinds | backend_v2/src/main/java/com/ingilizce/calismaapp/repository/UserRepository.java:21 | existsByEmail holds exactly when findByEmail finds a user |
| Auth.ExistsByTagFinds | backend_v2/src/main/java/com/ingilizce/calismaapp/repository/UserRepository.java:23 | existsByUserTag holds exactly when findByUserTag finds a user |
| Auth.FindLoginKey | backend_v2/src/main/java/com/ingilizce/calismaapp/service/AuthService.java:116-122 | A key starting with "#" is searched as a tag, any other as an email |
| Auth.LoginKeyAgreesWithSearch | backend_v2/src/main/java/com/ingilizce/calismaapp/service/AuthService.java:116-122 | A "#" key finds what the tag search finds; without "#" only an email logs in |
| Auth.DeviceType | backend_v2/src/main/java/com/ingilizce/calismaapp/service/AuthService.java:325 | MOBILE exactly when the device info is present and contains "Android", else WEB |
| Auth.ParseLevel | backend_v2/src/main/java/com/ingilizce/calismaapp/service/AuthService.java:265-272 | A parsed level's name is the value upper-cased with "-" turned into "_" |
| Auth.ParseLevelAnyCase | backend_v2/src/main/java/com/ingilizce/calismaapp/service/AuthService.java:265-272 | Any spelling that upper-cases to an enum name parses to it |
| Auth.ParseLevelDisplayName | backend_v2/src/main/java/com/ingilizce/calismaapp/service/AuthService.java:265-272 | Every display name, "Upper-Intermediate" included, parses back to its level |
| Auth.UpdatedName | backend_v2/src/main/java/com/ingilizce/calismaapp/service/AuthService.java:244-249 | The name is kept or replaced by a non-empty trimmed one |
| Auth.RegisterKeepsConsistent | backend_v2/src/main/java/com/ingilizce/calismaapp/entity/User.java:20-24 | A user with an unused email and tag and its session keep emails and tags unique and every session owned |
| Auth.AuthService.constructor | backend_v2/src/main/java/com/ingilizce/calismaapp/service/AuthService.java:24-38 | Empty tables with the given password functions |
| Auth.AuthService.GenerateUniqueUserTag | backend_v2/src/main/java/com/ingilizce/calismaapp/service/AuthService.java:43-58 | The first attempt whose tag is unused, with the 5- or 6-digit range of its attempt number |
| Auth.AuthService.DrawTag | backend_v2/src/main/java/com/ingilizce/calismaapp/service/AuthService.java:47-55 | One loop pass gives the attempt's candidate and its tag |
| Auth.AuthService.CreateSession | backend_v2/src/main/java/com/ingilizce/calismaapp/service/AuthService.java:322-328 | A new active session of the user with the device type, stored last |
| Auth.AuthService.Register | backend_v2/src/main/java/com/ingilizce/calismaapp/service/AuthService.java:64-105 | A taken email fails before a blank name; failures change nothing; success stores a trimmed-name, logged-in user with a fresh tag and one session |
| Auth.AuthService.Enroll | backend_v2/src/main/java/com/ingilizce/calismaapp/service/AuthService.java:82-96 | The success path: a fresh "#" tag unused before, the user stored last, one session, consistency kept |
| Auth.AuthService.AddUser | backend_v2/src/main/java/com/ingilizce/calismaapp/service/AuthService.java:85-96 | The new user, logged in, is stored last and given one session |
| Auth.AuthService.Login | backend_v2/src/main/java/com/ingilizce/calismaapp/service/AuthService.java:111-162 | Fails in order on unknown key, wrong password, disabled account, changing nothing; only success records the login and opens a session |
| Auth.AuthService.Logout | backend_v2/src/main/java/com/ingilizce/calismaapp/service/AuthService.java:168-187 | The session with the token, if any, is invalidated and its user logged out; success either way |
| Auth.AuthService.LiveSession | backend_v2/src/main/java/com/ingilizce/calismaapp/service/AuthService.java:195-204 | The session with the token, exactly when it is active and not expired |
| Auth.AuthService.ValidateToken | backend_v2/src/main/java/com/ingilizce/calismaapp/service/AuthService.java:192-215 | The live session's user, after recording activity on both; empty and no change otherwise |
| Auth.AuthService.FindUserByTag | backend_v2/src/main/java/com/ingilizce/calismaapp/service/AuthService.java:220-225 | A stored user with the normalised tag, none exactly when no user has it |
| Auth.AuthService.UpdateProfile | backend_v2/src/main/java/com/ingilizce/calismaapp/service/AuthService.java:231-279 | Each present key changes only its field (name trimmed when non-blank, level when it parses); a null level rolls back everything |
| Auth.AuthService.ChangePassword | backend_v2/src/main/java/com/ingilizce/calismaapp/service/AuthService.java:285-314 | A null or wrong current password changes nothing; success stores the new hash and closes the user's active sessions at now |
| JavaLang.Wrap32 | backend_v2/src/main/java/com/ingilizce/calismaapp/entity/User.java:162 | The int value congruent to x modulo 2^32; in-range values are unchanged |
| JavaLang.JavaDiv | backend_v2/src/main/java/com/ingilizce/calismaapp/entity/User.java:188 | Java integer division, rounding toward zero |
| JavaLang.Trim | backend/src/main/java/com/ingilizce/calismaapp/controller/ChatbotController.java:100 | String.trim leaves neither a leading nor a trailing character up to U+0020 |
| JavaLang.TrimIdempotent | backend/src/main/java/com/ingilizce/calismaapp/controller/ChatbotController.java:110 | Trimming a trimmed string changes nothing |
| JavaLang.RequiredText | backend_v2/src/main/java/com/ingilizce/calismaapp/service/AuthService.java:74-79 | The null-or-trims-to-empty guard: the trimmed text exactly when there is one |
| JavaLang.ToLower | backend/src/main/java/com/ingilizce/calismaapp/controller/ChatbotController.java:163 | Lower-cases each ASCII letter in place |
| JavaLang.LowerNeverContainsUpper | backend/src/main/java/com/ingilizce/calismaapp/controller/ChatbotController.java:163-167 | A lower-cased string contains no pattern with an upper-case letter |
| JavaLang.ReplaceAll | backend/src/main/java/com/ingilizce/calismaapp/controller/ChatbotController.java:126 | `replaceAll` with a literal pattern replaces non-overlapping occurrences left to right; removing a pattern never lengthens the text |
| JavaLang.ReplaceAllKeepsHead | backend/src/main/java/com/ingilizce/calismaapp/controller/ChatbotController.java:126 | Where the pattern does not start, the first character is kept and the rest is replaced on its own |
| JavaLang.ReplaceAllShrinks | backend/src/main/java/com/ingilizce/calismaapp/controller/ChatbotController.java:126 | A text that contains the pattern gets strictly shorter when the pattern is replaced by something shorter, so at least one occurrence is replaced |
| JavaLang.ReplaceAllFenceFree | backend/src/main/java/com/ingilizce/calismaapp/controller/ChatbotController.java:126 | After every "```" is removed, no "```" is left, including any the removal itself brings together |
| JavaLang.ReplaceAllAbsent | backend/src/main/java/com/ingilizce/calismaapp/controller/ChatbotController.java:126 | A text without the pattern is returned unchanged |
| JavaLang.Split | backend/src/main/java/com/ingilizce/calismaapp/controller/ChatbotController.java:108 | No piece of `split` contains the separator |
| JavaLang.SplitJoin | backend/src/main/java/com/ingilizce/calismaapp/controller/ChatbotController.java:108 | Joining the pieces of `split` with the separator gives a prefix of the string followed in it only by separators, and that prefix does not end in a separator: the string less all its trailing separators |
| JavaLang.JoinLast | backend/src/main/java/com/ingilizce/calismaapp/controller/ChatbotController.java:108 | The joined text ends with the last piece |
| JavaLang.SplitAllJoin | backend/src/main/java/com/ingilizce/calismaapp/controller/ChatbotController.java:108 | Joining the pieces of a split at every separator, trailing empty ones included, gives the string back |
| JavaLang.JoinPlacesEach | backend/src/main/java/com/ingilizce/calismaapp/controller/ChatbotController.java:207 | String.join writes every element at its offset with the separator after all but the last |
| JavaLang.ParseLong | backend/src/main/java/com/ingilizce/calismaapp/controller/SentencePracticeController.java:114 | A parsed value fits a long; an input that is empty or starts with neither a sign nor a Unicode decimal digit fails |
| JavaLang.ParseLongToString | backend/src/main/java/com/ingilizce/calismaapp/controller/SentencePracticeController.java:124 | parseLong reads back what toString wrote |
| JavaLang.DecimalDigit | backend/src/main/java/com/ingilizce/calismaapp/controller/SentencePracticeController.java:114 | Character.digit in base 10: a value from -1 to 9, and c - '0' for an ASCII digit |
| JavaLang.DigitFromRuns | backend/src/main/java/com/ingilizce/calismaapp/controller/SentencePracticeController.java:114 | A character has a digit value exactly when it lies in one of the ten-character digit runs, and the value is its offset in that run |
| JavaLang.DecimalDigitRuns | backend/src/main/java/com/ingilizce/calismaapp/controller/SentencePracticeController.java:114 | Character.digit gives a value exactly for the characters of the Unicode decimal digit runs of the Basic Multilingual Plane |
| JavaLang.AsciiDecimalDigit | backend/src/main/java/com/ingilizce/calismaapp/controller/SentencePracticeController.java:114 | Below U+0660 a character is a decimal digit exactly when it is '0'..'9' |
| JavaLang.ParseLongArabicIndic | backend/src/main/java/com/ingilizce/calismaapp/controller/SentencePracticeController.java:114 | "٣" parses as 3 and "-٣" as -3 |
| JavaLang.LessEqTotal | backend_v2/src/main/java/com/ingilizce/calismaapp/service/MatchmakingService.java:187 | compareTo on UTF-16 code units orders any two strings |
| JavaLang.LessEqAntisymmetric | backend_v2/src/main/java/com/ingilizce/calismaapp/service/MatchmakingService.java:187 | Strings ordered both ways are equal |
| JavaLang.Utf16Injective | backend_v2/src/main/java/com/ingilizce/calismaapp/service/MatchmakingService.java:187-189 | Strings with the same UTF-16 code units are equal |
| JavaLang.LessEqByFirst | backend_v2/src/main/java/com/ingilizce/calismaapp/service/MatchmakingService.java:187-189 | A smaller first character in the Basic Multilingual Plane puts a string strictly first |
| JavaLang.SupplementaryBeforeBmpEnd | backend_v2/src/main/java/com/ingilizce/calismaapp/service/MatchmakingService.java:187-189 | "\U{10000}" sorts strictly before "\U{FFFF}" although its character is larger |
| Collections.RemoveFirst | backend/src/main/java/com/ingilizce/calismaapp/entity/Word.java:100 | List.remove(Object) drops one element if present and changes nothing otherwise |
| Collections.RemoveFirstMultiset | backend/src/main/java/com/ingilizce/calismaapp/entity/Word.java:100 | Exactly one copy of the element is taken away |
| Collections.RemoveFirstOfAppended | backend/src/main/java/com/ingilizce/calismaapp/entity/Word.java:94-102 | Appending an absent element and removing it restores the list |
| Collections.SortDesc | backend/src/main/java/com/ingilizce/calismaapp/repository/SentencePracticeRepository.java:16 | ORDER BY … DESC: a sorted permutation of the rows |
| Collections.InsertDescFilter | backend/src/main/java/com/ingilizce/calismaapp/repository/SentencePracticeRepository.java:16 | Inserting a row adds it at the front of the rows with its key and leaves the rest of them in order |
| Collections.SortDescStable | backend/src/main/java/com/ingilizce/calismaapp/repository/SentencePracticeRepository.java:16 | The sort is stable: rows with equal keys keep their stored order |
| Collections.Filter | backend_v2/src/main/java/com/ingilizce/calismaapp/service/WordReviewService.java:85-88 | The elements satisfying the predicate, each from the input with no more copies, and every satisfying input element kept |
| Collections.FilterAppend | backend_v2/src/main/java/com/ingilizce/calismaapp/service/WordReviewService.java:85-88 | Filtering distributes over concatenation, so the kept elements stay in their input order |
| Collections.FilterKeepsAll | backend_v2/src/main/java/com/ingilizce/calismaapp/service/WordReviewService.java:85-88 | A sequence whose every element satisfies the predicate is its own filter |
| Collections.CountIsFilterLength | backend/src/main/java/com/ingilizce/calismaapp/service/SentencePracticeService.java:80-82 | A count is the length of the matching filter |

## Left out

- Concurrency: `synchronized`, the `ConcurrentHashMap`s and the readers that run without the lock are not modelled. Each call is one atomic step.
- The `@Scheduled` timer is not modelled. The sweep is a method taking `now`.
- Wall-clock reads (`System.currentTimeMillis`, `LocalDateTime.now`, `LocalDate.now`) become the parameters `now` and `today`. `@PreUpdate`/`updatedAt` stamps exist only where a method sets them explicitly.
- DailyStats.UserDailyStats.AccuracyRate: the exact ratio as a `real`, without double rounding. `User.getLevelProgress` uses floating point and is not modelled.
- Text-to-speech (`PiperTtsService`, `TtsController`) is not modelled. The language model behind `ChatbotService` is a function parameter.
- JPA repositories are sequences of rows or objects. JPQL is not modelled. Ties in `ORDER BY` keep the stored order, which `SortDescStable` proves; the database's own order for ties is not modelled.
- BCrypt is a pair of functions held by the service. UUID session tokens are parameters. `Random.nextInt` is the draw function.
- Auth.AuthService.GenerateUniqueUserTag: the Java do-while may never end. The model requires a ghost attempt number whose tag is free, which makes the loop terminate.
- `ResponseEntity` bodies are reply datatypes rather than `Map`s. `buildUserResponse` is not modelled field by field: a profile reply carries the `User` itself. Only its failure on a null language is modelled (`ProfileBuildable`); its other values are never null for a stored user.
- `register` also creates and saves `UserSettings`, which is not modelled.
- Auth.AuthService.UpdateProfile and Auth.AuthService.ChangePassword take the `User` the token resolved to. The service's not-found branch for a user id is not reachable from the endpoints and is not modelled.
- The service's register and login receive non-null email and password, as their endpoints guarantee. A null current password in changePassword makes BCrypt throw, which is the `RawPasswordNull` answer, a 500 at the endpoint.
- Case mapping (`toLowerCase`, `toUpperCase`) covers ASCII letters only, in the root locale. Under a default locale such as tr-TR, `"medium".toUpperCase()` gives `"MEDİUM"` and `valueOf` fails; that is not modelled.
- Console logging (`System.out.println`, `printStackTrace`) is not modelled.
- The JDK's wording of a `NullPointerException` message is a parameter of `CheckReply` and `CheckTranslation`.
- Long overflow in the statistics sums is not modelled. Int wrap-around is modelled for XP and the daily counters.
- Exceptions other than the ones named in the contracts are not modelled: a `ClassCastException` from a non-string list element, null list elements, and the generic 500 handlers. The `catch` of `parseJsonResponse` is modelled only for a null reply, the one input that reaches it.
- `getSentenceById` of the sentence controller is a plain repository passthrough. `createSentence` hands the request body to `saveSentence` unchanged, the client's `id` included; `Save` models that body as a `SentenceBody`. `getSentencesByDate`, `getSentencesByDateRange` and `getAllDistinctDates` of the controller add only `LocalDate.parse`, which is not modelled; the service queries behind them are.
- The JSON binding of a `SentencePractice` body is not modelled: its `createdDate` is a field of `SentenceBody`, which for a body that leaves it out is today, as the no-arg constructor sets it.
- SentencePractices.Save: a body whose id names no row is inserted under a generated id. That is what Hibernate's merge does, before version 6.6, for an entity without a version column. From Hibernate 6.6 on, such a merge throws an `OptimisticLockException` instead, a 500 that changes nothing; that behaviour is not modelled. The source files do not fix the Hibernate version.
- SentenceEndpoints.SentencePracticeController.DeleteSentence: an unknown word-sentence id answers 200 and changes nothing, as `deleteById` does from Spring Data JPA 3.0 on. Earlier versions throw `EmptyResultDataAccessException`, a 500, which is not modelled. The source files do not fix the version. The persistence context, flush and cascades are not modelled in general; the contract states their outcome for this one call.
- Chatbot scanners: only the three patterns of the chatbot controller are modelled, as hand-written scanners. No general regex engine is modelled.
- Matchmaking.RoomIdInjective and the consistency lemmas assume ids without '_'. The code does not check this, and `RoomIdCollision` shows what happens otherwise.
- The thin controllers (`WordController`, `WordReviewController`, `ApiController`), `SocketIOConfig`, `CalismaAppApplication` and the pure data holders (`UserSettings`, `UserAchievement`, `CreateWordRequest`, `PracticeSentence`) are not part of this model.
