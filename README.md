# VitaCoin rewards ledger and gamification rules

This project models the rewards engine of VitaCoin, a learning app in which users earn coins
by claiming a daily login bonus and by answering quizzes in four categories (math, aptitude,
grammar, programming). Users build login and per-category quiz streaks, lose coins when a
streak breaks, buy or earn badges, and see their rank move on a leaderboard. All of it lives
in `src/lib/firebase.ts`. Most services there (claim, quiz, coins after a quiz, badge award,
penalty, purchase) follow the same pattern: they read a user's account document, compute
new fields, and commit the account change together with a transaction (ledger entry),
notifications and quiz results as one write batch. Sign-up and the leaderboard check read
no account and write each document with its own single-document write.

Layout:

- `types.dfy` (module `Types`) holds the stored records: the account document with its
  per-category maps, ledger entries, notifications, quiz results, catalog badges,
  leaderboard rows and the errors the services throw.
- `rules.dfy` (module `Rules`) holds the pure rules:
  - the day difference `floor(Δms / 86 400 000)` and the streak rule shared by logins and
    quizzes;
  - the bonus and the penalty amounts;
  - grading: correct positions, the float score, and the "score is 100" test;
  - the badge-catalog read with its "Unnamed Badge" default;
  - the eligibility filter and the owned-badge array union;
  - the leaderboard's uid de-duplication.
- `services.dfy` (module `Services`) describes each service as a function from one store
  state (`Db`) to the next. A service that touches one user is first written on that
  user's documents (`Docs`: the account, its ledger, its notifications, its quiz results).
  It is then lifted with `Db.Put`, which leaves every other user, the catalog and the
  snapshot alone. Each service is written as the sequence of batches the code commits: a
  penalty batch, then the main batch, then the award batches. The lemmas state what each
  service promises and where the code breaks the ledger invariant
  `coins == sum of ledger amounts`.
- `store.dfy` (module `Backend`) holds the store as a class, with imperative methods:
  - The `Store` class has maps and sequences for the users collection and its
    sub-collections, the badge catalog, and the optional previous-leaderboard document.
  - Each service is a method that changes the fields step by step, batch by batch, and is
    proved to leave exactly the state the `Services` function describes.
  - The badge filter, the notification loop, the rank-change loop and the
    all-categories-perfect loop are `while` loops with invariants.

Time is an integer millisecond clock `now` passed to every service. It stands for both the
client's `new Date()` and the store's `serverTimestamp()`, which the model takes to be equal.

### Where the code departs from its evident intent

The model follows the code as written. In these places the code's own comments, types
or callers show a different intent.

- **Same-day quiz resubmission restarts the streak.** The quiz cards offer a category only
  once per calendar day (`src/components/QuizCategoryCards.tsx:67-73`). The service has no
  such check. It runs the streak rule with a day difference of 0, which sets the category
  streak to 1 without a penalty (`Services.SameDayQuizRestartsStreak`).
- **The perfect-day check ignores the current submission.** The comment at
  `src/lib/firebase.ts:393` and the `perfectDays` field comment at `src/lib/types.ts:30`
  describe a day on which all categories were completed with a perfect score. The check at
  `src/lib/firebase.ts:395` reads the stored results before the current submission is
  committed. So the fourth perfect category does not complete the day
  (`Services.LastCategoryDoesNotCompleteDay`). Every later perfect submission on that day
  counts one more (`Services.QuizPerfectDay` states the exact condition).
- **The balance drifts from the ledger after a penalty.** The penalty is debited and
  recorded in its own batch (`src/lib/firebase.ts:253`, `:380`). The main batch then writes
  a balance computed from the read made before the penalty (`:261`, `:387`). The debit stays
  in the ledger but disappears from the balance (`Services.ClaimBalanceDrift`,
  `Services.ClaimPenaltyUnbalances`, `Services.QuizBalanceDrift`). Every other service keeps
  the balance equal to the ledger sum.
- **Perfect-score badges are never awarded.** The quiz path asks for badges of kind
  `perfect_score` (`src/lib/firebase.ts:434`). The badge type allows only the kinds
  `streak`, `perfect` and `coins` (`src/lib/types.ts:54`) (`Services.PerfectScoreNeverAwarded`).
- **A second claim on the same day is not rejected by the service.** Only the dashboard
  rejects it (`src/components/Dashboard.tsx:68-73`). The service accepts it and pays a fresh
  100-coin day-1 bonus (`Services.SameDayClaimAccepted`).

## Model

| member | source | states |
|---|---|---|
| Rules.DaysDiff | src/lib/firebase.ts:248 | the day difference is the number of whole 24-hour periods elapsed, rounded down |
| Rules.NextStreak | src/lib/firebase.ts:245-256 | no previous date gives streak 1; a gap of 24 to 48 hours continues the streak; 48 hours or more restarts it at 1 with a penalty; under 24 hours restarts it at 1 without one |
| Rules.BonusAmount | src/lib/firebase.ts:258 | from day 1 of a streak the bonus is at least 100 and exceeds 100 by 5 for each further streak day |
| Rules.PenaltyDebit | src/lib/firebase.ts:607 | the debit is the requested amount capped at the balance |
| Rules.CountCorrect | src/lib/firebase.ts:320 | the count of correct answers never exceeds the number of answers |
| Rules.CountCorrectIsCorrectPositions | src/lib/firebase.ts:320 | the count equals the number of positions whose answer equals that question's correct answer |
| Rules.SkippedQuizCountsNothing | src/lib/firebase.ts:320 | a quiz whose answers are all the "unanswered" sentinel counts no correct answer |
| Rules.ScoreHundredIffAllCorrect | src/lib/firebase.ts:321 | the score is exactly 100 if and only if the quiz is non-empty and every question was answered correctly |
| Rules.Score | src/lib/firebase.ts:321 | the score is NaN (None) exactly for an empty quiz; otherwise it is the percentage: score times total equals 100 times correct |
| Rules.GradeQuiz | src/lib/firebase.ts:320-322 | grading fails exactly when there are more answers than questions; otherwise it counts the correct positions and pays 5 coins for each |
| Rules.Qualifies | src/lib/firebase.ts:546-559 | defined by its body, one conjunct per check of the filter; its properties are stated by Rules.EligibleMembers and Services.GrantedIdsExactly |
| Rules.Eligible | src/lib/firebase.ts:546-559 | the filter returns no more badges than the catalog holds; which badges it returns is stated by Rules.EligibleMembers and Rules.EligibleEmptyIff, their order by Rules.EligibleSnoc |
| Rules.ReadBadges | src/lib/firebase.ts:442-458 | the catalog read keeps every badge in order and unchanged, except that a missing name becomes "Unnamed Badge"; so every badge read has a name |
| Rules.EligibleMembers | src/lib/firebase.ts:546-559 | a badge is eligible exactly when it is in the catalog, has an id, is not owned, and its requirement has the asked kind, the asked category (when one is given) and a value at most the argument |
| Rules.EligibleEmptyIff | src/lib/firebase.ts:546-561 | nothing is granted exactly when no catalog badge qualifies |
| Rules.EligibleSnoc | src/lib/firebase.ts:546-559 | filtering one more catalog badge appends it exactly when it qualifies |
| Rules.Ids | src/lib/firebase.ts:563 | the id list has one entry per granted badge, at the same position; the empty-id filter drops nothing, because Rules.Qualifies already requires an id |
| Rules.ArrayUnion | src/lib/firebase.ts:503 | the array union keeps the old list as a prefix, contains exactly the old and the new ids, and adds no duplicate |
| Rules.FindIndex | src/lib/firebase.ts:221 | the index found is the first row with that uid, or -1 when there is none |
| Rules.KeepFirstFromComplete | src/lib/firebase.ts:220-222 | the de-duplication drops no first occurrence |
| Rules.GetLeaderboard | src/lib/firebase.ts:213-225 | the leaderboard has unique uids, holds only first occurrences, keeps their order and misses no uid of the query rows |
| Services.SignUpOnboards | src/lib/firebase.ts:59-102 | a new account has 500 coins, zero streaks, null dates, no badges and one welcome entry of 500 as its whole ledger; no other user changes; counts stay non-negative, and a store whose balances all equal their ledger sums stays so |
| Services.SignUp | src/lib/firebase.ts:59-102 | defined by its body; its properties are stated by Services.SignUpOnboards and the method Backend.Store.SignUp follows it |
| Services.Penalize | src/lib/firebase.ts:597-643 | a penalty with a non-positive amount changes nothing; otherwise it leaves the quiz results and every account field except the balance alone, and adds one capped penalty entry and one motivational notification |
| Services.PenaltyEffect | src/lib/firebase.ts:607-641 | on a non-negative balance the debit lies between 0 and the amount and is either the amount or the whole balance; the balance drops by exactly the debit and stays non-negative; one debit entry and one motivational notification are added |
| Services.PenaltyKeepsAgreement | src/lib/firebase.ts:607-621 | taken alone, a penalty keeps the balance equal to the ledger sum and keeps counts non-negative |
| Services.PenaltyOnNegativeBalance | src/lib/firebase.ts:607-641 | on a negative balance the "debit" entry has a positive amount, the balance becomes 0, and the motivational notification is still added |
| Services.ApplyPenaltyKeepsInvariants | src/lib/firebase.ts:597-644 | the penalty service keeps balances and streaks non-negative when they were, and keeps every balance equal to its ledger sum when it was; each half holds without the other |
| Services.ApplyPenalty | src/lib/firebase.ts:597-644 | a non-positive amount or an unknown user changes nothing; otherwise only that user's documents change, gaining one penalty entry of the capped debit and one motivational notification |
| Services.Award | src/lib/firebase.ts:546-588 | an award leaves the ledger, the results and every account field but the owned badges alone, and the owned badges only grow |
| Services.CheckAndAwardBadges | src/lib/firebase.ts:523-593 | an empty catalog or an unknown user changes nothing; otherwise only that user's owned badges (which only grow) and notifications change, and it never fails |
| Services.AwardKeepsInvariants | src/lib/firebase.ts:561-588 | the award service keeps balances and streaks non-negative, and keeps balances equal to ledger sums, each whenever it held before |
| Services.AwardGrants | src/lib/firebase.ts:561-584 | the owned badges become exactly the old ones plus the granted ids, with no duplicate added, and one notification is added per granted badge |
| Services.GrantedIdsExactly | src/lib/firebase.ts:546-567 | an id is granted exactly when some catalog badge with that id qualifies |
| Services.PerfectScoreNeverAwarded | src/lib/firebase.ts:433-434 | over a catalog that uses only the kinds streak, perfect and coins, the perfect-score award changes nothing |
| Services.ClaimDailyBonus | src/lib/firebase.ts:234-240 | a claim by an unknown user fails with "user not found" and writes nothing; a claim by a known user succeeds and touches no other user |
| Services.Claim | src/lib/firebase.ts:243-280 | defined by its body as penalty, main batch, award; its properties are stated by Services.ClaimEffect and Services.ClaimDrift |
| Services.ClaimBatch | src/lib/firebase.ts:258-275 | defined by its body; its effect is stated by Services.ClaimEffect |
| Services.ClaimSteps | src/lib/firebase.ts:247-280 | a claim is the penalty service when the streak broke, then the main batch built from the pre-penalty read, then the award service for login streak badges |
| Services.ClaimEffect | src/lib/firebase.ts:243-275 | the claim writes the new streak, the bonus 100 + 5 per extra streak day on top of the balance read before the penalty, both dates set to now, the penalty entry when the streak broke, then exactly one bonus entry; badges only grow |
| Services.ClaimDrift | src/lib/firebase.ts:253-261 | after a claim the gap between balance and ledger sum grows by exactly the penalty debit, and counts stay non-negative |
| Services.ClaimBalanceDrift | src/lib/firebase.ts:253-275 | store-wide, a claim keeps balances and streaks non-negative from any state where they are (whether or not balances agree with ledgers); from a store where every balance equals its ledger sum, it keeps that if and only if the penalty took no coins |
| Services.ClaimPenaltyUnbalances | src/lib/firebase.ts:251-261 | a claim after a gap of two or more days, by a user with a streak and coins, leaves that user's balance different from the ledger sum |
| Services.SameDayClaimAccepted | src/lib/firebase.ts:247-258 | a claim within 24 hours of the last one succeeds, resets the streak to 1, credits 100 and adds one day-1 bonus entry |
| Services.QuizAwards | src/lib/firebase.ts:431-435 | the award checks after a quiz change only the owned badges and the notifications, and the badges only grow |
| Services.SubmitQuizResult | src/lib/firebase.ts:319-334 | a submission fails, writing nothing, when there are more answers than questions, or when the user is unknown and nobody is signed in; otherwise it succeeds |
| Services.QuizSteps | src/lib/firebase.ts:366-435 | a submission is the penalty service when the category streak broke, the all-categories check on what that leaves, the main batch, then the streak award and, for a full score, the perfect-score award |
| Services.Quiz | src/lib/firebase.ts:366-435 | defined by its body as penalty, perfect-day check, main batch, awards; its properties are stated by Services.QuizEffect, Services.QuizRecords and Services.QuizDrift |
| Services.QuizBatch | src/lib/firebase.ts:386-427 | defined by its body; its effect is stated by Services.QuizEffect and Services.QuizRecords |
| Services.QuizAccount | src/lib/firebase.ts:366-399 | defined by its body; its properties are stated by Services.QuizPerfectDay, Services.QuizTouchesOneCategory and Services.SameDayQuizRestartsStreak |
| Services.QuizAwardServices | src/lib/firebase.ts:431-435 | the two award services after a submission are the quiz awards on the documents the main batch wrote |
| Services.QuizReportIsGrade | src/lib/firebase.ts:320-322 | the report counts the positions answered correctly, pays 5 coins for each and gives the score they make |
| Services.QuizEffect | src/lib/firebase.ts:386-401 | the account becomes the balance as read plus the quiz coins, with the category's streak by the streak rule, its date now, its lifetime count raised by the correct answers, and the perfect-day count by the perfect-day rule; badges only grow |
| Services.QuizRecords | src/lib/firebase.ts:403-427 | the ledger gains the penalty entry when the streak broke, the welcome entry for a just-created account, then one quiz entry; the results gain exactly the graded record |
| Services.QuizDrift | src/lib/firebase.ts:380-412 | from any documents with non-negative counts, a submission widens the gap between balance and ledger sum by exactly the penalty debit (less the 500 onboarding credit the welcome entry records for a just-created account); counts stay non-negative; documents that agreed before agree after if and only if no coins were debited |
| Services.QuizBalanceDrift | src/lib/firebase.ts:328-429 | store-wide, a submission keeps balances and streaks non-negative from any state where they are; from a store where every balance equals its ledger sum, it keeps that if and only if the penalty took no coins |
| Services.QuizBootstrap | src/lib/firebase.ts:330-364 | an unknown signed-in user gets the onboarding account with the session's uid and a "User" default name; the balance is 500 plus the quiz coins; the ledger is the welcome entry then the quiz entry and agrees with the balance |
| Services.QuizPerfectDay | src/lib/firebase.ts:393-399 | the perfect-day count rises by one if and only if every question of a non-empty quiz is right and every category already has a stored 100-score result since midnight; otherwise it is unchanged |
| Services.LastCategoryDoesNotCompleteDay | src/lib/firebase.ts:393-399 | a perfect score in a category with no stored perfect result today counts no perfect day |
| Services.SameDayQuizRestartsStreak | src/lib/firebase.ts:372-383 | a quiz within 24 hours of the category's last one restarts its streak at 1 without a penalty |
| Services.QuizTouchesOneCategory | src/lib/firebase.ts:386-391 | the other categories' streaks, dates and lifetime counts are unchanged; the submitted category's date is now and its count rises by the correct answers |
| Services.CheckAllCategoriesCompletedToday | src/lib/firebase.ts:700-730 | defined as "every category has a stored 100-score result since midnight"; the loop of Backend.Store.CheckAllCategoriesCompletedToday is proved equal to it |
| Services.UpdateUserCoinsAfterQuiz | src/lib/firebase.ts:283-307 | a non-positive amount does nothing; an unknown user is an error that writes nothing; otherwise the service succeeds, raises the balance by the amount, adds exactly one quiz-reward entry of that amount and touches nothing else |
| Services.UpdateCoinsKeepsInvariants | src/lib/firebase.ts:283-308 | the credit raises the balance by the amount; it keeps balances and streaks non-negative, and keeps balances equal to ledger sums, each whenever it held before |
| Services.FindBadge | src/lib/firebase.ts:469-474 | the badge lookup succeeds exactly when the catalog has a badge with that id, and returns one |
| Services.PurchaseBadge | src/lib/firebase.ts:465-475 | an unknown user, then an unknown badge, fail with their own error; no failed purchase writes anything |
| Services.Purchase | src/lib/firebase.ts:476-514 | defined by its body; its properties are stated by Services.PurchaseSucceedsIff, Services.PurchaseEffect and Services.PurchasePriceBoundary |
| Services.PurchaseSucceedsIff | src/lib/firebase.ts:481-499 | a purchase succeeds if and only if the balance is non-negative, the price is positive and covered, and the badge is not owned |
| Services.PurchaseEffect | src/lib/firebase.ts:501-514 | a purchase debits exactly the price, appends the badge id, adds one debit entry of minus the price, keeps the balance non-negative and keeps the balance equal to the ledger sum |
| Services.PurchaseKeepsInvariants | src/lib/firebase.ts:465-521 | the purchase service keeps balances and streaks non-negative, and keeps balances equal to ledger sums, each whenever it held before |
| Services.PurchasePriceBoundary | src/lib/firebase.ts:497-498 | for a badge priced 1000, 999 coins fail with insufficient coins and 1000 coins succeed and leave 0 |
| Services.FindRanked | src/lib/firebase.ts:671 | the snapshot lookup returns the first row with that uid, or none when no row has it |
| Services.RankAll | src/lib/firebase.ts:690-693 | the new snapshot gives the row at position i the rank i + 1 |
| Services.NotifyRanks | src/lib/firebase.ts:669-686 | the rank loop keeps the set of users; what each user receives is stated by Services.NotifyRanksSpec |
| Services.NotifyRanksSpec | src/lib/firebase.ts:669-686 | after the first n rows, a user has gained exactly its rank-move notification when its row is among them, and nothing otherwise |
| Services.CheckLeaderboardChanges | src/lib/firebase.ts:660-696 | defined by its body; its properties are stated by Services.LeaderboardNotifies and Services.LeaderboardKeepsInvariants |
| Services.LeaderboardNotifies | src/lib/firebase.ts:660-696 | each user gets one notification exactly when it is on the new board and in the snapshot with another rank; new entrants get none; nothing else changes and the snapshot becomes the ranked new board |
| Services.LeaderboardKeepsInvariants | src/lib/firebase.ts:660-696 | the leaderboard check keeps balances and streaks non-negative, and keeps balances equal to ledger sums, each whenever it held before |
| Backend.FilterEligible | src/lib/firebase.ts:546-559 | the filter loop returns exactly the eligible badges, in catalog order |
| Backend.NotifyBadges | src/lib/firebase.ts:571-584 | the notification loop appends one notification per granted badge with a name |
| Backend.Store.SignUp | src/lib/firebase.ts:59-102 | the store after sign-up is the sign-up function of the store before |
| Backend.Store.ApplyPenalty | src/lib/firebase.ts:597-644 | the store after the penalty batch is the penalty service's result |
| Backend.Store.CheckAndAwardBadges | src/lib/firebase.ts:523-593 | the store after the award batch is the award service's result |
| Backend.Store.ClaimDailyBonus | src/lib/firebase.ts:234-281 | the store and the outcome after the penalty, main and award batches are the claim service's result |
| Backend.Store.UpdateUserCoinsAfterQuiz | src/lib/firebase.ts:283-308 | the store and the outcome are the quiz-coins service's result |
| Backend.Store.CheckAllCategoriesCompletedToday | src/lib/firebase.ts:700-730 | the category loop with its early return answers whether every category has a stored 100-score result since midnight |
| Backend.Store.SubmitQuizResult | src/lib/firebase.ts:319-438 | the store and the report are the quiz service's result, including both error paths |
| Backend.Store.RecordQuiz | src/lib/firebase.ts:324-435 | the penalty, the perfect-day check, the main batch and the award batches leave the quiz service's store |
| Backend.Store.AwardAfterQuiz | src/lib/firebase.ts:431-435 | the store after the two award calls is the streak award followed, for a full score, by the perfect-score award |
| Backend.Store.PurchaseBadge | src/lib/firebase.ts:465-521 | the store and the outcome are the purchase service's result |
| Backend.Store.CheckLeaderboardChanges | src/lib/firebase.ts:660-696 | the rank loop and the snapshot write leave the leaderboard check's store |

## Left out

- Authentication and the SDK are not part of this model: app set-up, the auth calls of
  `signUp`, Google sign-in, sign-in, sign-out and session persistence. The signed-in user of
  the quiz path is a parameter (`Option<AuthUser>`).
- `serverTimestamp()` and `new Date()` are both the parameter `now`. The client's local
  midnight used by the all-categories check is the parameter `midnight`.
- The motivational message picked by `Math.random` is an index `pick < 5` chosen by the
  caller.
- Query mechanics are left out. The leaderboard's "order by coins, limit 10" query result is
  passed in as `rows`. The `limit(20)` on each category query of the all-categories check
  is not modelled: all stored results of the category are consulted.
- Concurrency is left out. Each service runs alone. The model does not capture the race
  between two claims that read the same account, nor a failure between the separate
  batches of one service.
- `Backend.Store.SignUp` and `Backend.Store.CheckLeaderboardChanges`: in the code these are
  separate single-document writes (the account and then the welcome entry,
  `src/lib/firebase.ts:91` and `:102`; each rank notice and then the snapshot, `:684` and
  `:695`). The model applies them in order with no failure in between, so it does not
  capture a sign-up that stops after the account write and leaves 500 coins with no welcome
  entry, nor a leaderboard check that stops after some notices without a new snapshot.
- Floating point is not modelled. The score is an exact `real`, and `None` stands for the
  NaN of an empty quiz. A float rounding that makes some non-integral ratio print as
  exactly 100 is not captured.
- Runtime type checks on stored data are not modelled: non-object documents, non-string
  badge ids in the owned list, non-numeric requirement values, and the purchase path's
  "Invalid badge ID" check on the badge document's own id field. The model's records are
  always well typed.
- A badge without a requirement, or without an id, is represented by `None` and `""`, and
  the filter rejects both, as the code does.
- Human-readable texts are left out. Ledger descriptions and notification titles and
  messages are abstract (`Memo`, `NoticeBody`). The welcome text differs between sign-up
  and the quiz path; both become `WelcomeBonus`.
- The dashboard's same-day claim gate (`src/components/Dashboard.tsx:68-73`) and the quiz
  cards' gate are callers' checks. They are not modelled. The services' behaviour without
  them is stated instead.
- `getDailyStats`, `getQuizQuestions`, `getTransactions`, `getNotifications`,
  `markNotificationAsRead` and the seeding script are reads or set-up outside the rewards
  rules, and are not modelled.
- Sub-collections of a uid without an account document are not modelled. Sign-up keeps
  whatever the store already holds for the uid. A rank notification to a uid on the board
  without an account document is dropped.
- Integer width is not modelled: JavaScript numbers are exact at the magnitudes coins reach,
  so balances are unbounded integers.
