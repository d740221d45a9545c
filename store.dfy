/** The store as the services see it: mutable collections updated one batch at a time.
    Every method is proved to leave the store exactly as the matching function of the
    Services module says, so the lemmas proved there hold of the store. */
module Backend {
  import opened Types
  import opened Rules
  import opened Services

  /** The award path's filter over the catalog as read, one badge at a time. */
  method FilterEligible(view: seq<Badge>, owned: seq<string>, kind: string, value: int, category: Option<string>)
    returns (granted: seq<Badge>)
    ensures granted == Eligible(view, owned, kind, value, category)
  {
    granted := [];
    var i := 0;
    while i < |view|
      invariant 0 <= i <= |view|
      invariant granted == Eligible(view[..i], owned, kind, value, category)
    {
      assert Eligible(view[..i + 1], owned, kind, value, category) == granted
          + (if Qualifies(view[i], owned, kind, value, category) then [view[i]] else []) by {
        EligibleSnoc(view[..i], view[i], owned, kind, value, category);
        assert view[..i + 1] == view[..i] + [view[i]];
      }
      if Qualifies(view[i], owned, kind, value, category) {
        granted := granted + [view[i]];
      }
      i := i + 1;
    }
    assert view[..i] == view;
  }

  /** The award path's notification loop: one notification per granted badge with a name. */
  method NotifyBadges(notices: seq<Notification>, granted: seq<Badge>, now: int) returns (r: seq<Notification>)
    ensures r == notices + BadgeNotices(granted, now)
  {
    r := notices;
    var j := 0;
    while j < |granted|
      invariant 0 <= j <= |granted|
      invariant r == notices + BadgeNotices(granted[..j], now)
    {
      assert granted[..j + 1][..j] == granted[..j];
      if granted[j].name != "" {
        r := r + [BadgeNotice(granted[j].name, now)];
      }
      j := j + 1;
    }
    assert granted[..j] == granted;
  }

  class Store {
    /** The users collection: account document and sub-collections per uid. */
    var users: map<Uid, Docs>
    /** The badges collection. */
    var catalog: seq<Badge>
    /** The system/previousLeaderboard document, absent until the first check. */
    var snapshot: Option<seq<Ranked>>

    function State(): Db
      reads this
    {
      Db(users, catalog, snapshot)
    }

    /** An empty users collection over a seeded badge catalog. */
    constructor(seeded: seq<Badge>)
      ensures State() == Db(map[], seeded, None)
    {
      users := map[];
      catalog := seeded;
      snapshot := None;
    }

    /** The account document and the welcome credit written at registration. */
    method SignUp(uid: Uid, email: string, displayName: string, now: int)
      modifies this
      ensures State() == Services.SignUp(old(State()), uid, email, displayName, now)
    {
      var ledger: seq<Entry> := [];
      var notices: seq<Notification> := [];
      var results: seq<QuizResult> := [];
      if uid in users {
        ledger, notices, results := users[uid].ledger, users[uid].notices, users[uid].results;
      }
      users := users[uid := Docs(InitialAccount(uid, email, displayName, now), ledger + [WelcomeEntry(now)], notices, results)];
    }

    /** The penalty batch: capped debit, floored balance, entry and motivational notice. */
    method ApplyPenalty(uid: Uid, kind: PenaltyKind, amount: int, pick: nat, now: int)
      requires pick < MotivationCount
      modifies this
      ensures State() == Services.ApplyPenalty(old(State()), uid, kind, amount, pick, now)
    {
      if amount <= 0 || uid !in users {
        return;
      }
      var d := users[uid];
      var debit := PenaltyDebit(amount, d.account.coins);
      users := users[uid := d.(account := d.account.(coins := Max(0, d.account.coins - debit)),
                               ledger := d.ledger + [PenaltyEntry(kind, debit, now)],
                               notices := d.notices + [MotivationNotice(pick, now)])];
    }

    /** The award check: the catalog is filtered badge by badge, then the owned list and
        one notification per named badge are written in one batch. */
    method CheckAndAwardBadges(uid: Uid, kind: string, value: int, category: Option<string>, now: int)
      modifies this
      ensures State() == Services.CheckAndAwardBadges(old(State()), uid, kind, value, category, now)
    {
      var view := ReadBadges(catalog);
      if |view| == 0 || uid !in users {
        return;
      }
      var d := users[uid];
      var granted := FilterEligible(view, d.account.badges, kind, value, category);
      if |granted| == 0 {
        assert Award(d, view, kind, value, category, now) == d;
        assert users[uid := d] == users;
        return;
      }
      var notices := NotifyBadges(d.notices, granted, now);
      users := users[uid := d.(account := d.account.(badges := ArrayUnion(d.account.badges, Ids(granted))),
                               notices := notices)];
    }

    /** The daily-bonus claim: the penalty batch when the streak broke, the main batch
        computed from the account as first read, then the award check. */
    method ClaimDailyBonus(uid: Uid, now: int, pick: nat) returns (outcome: Outcome)
      requires pick < MotivationCount
      modifies this
      ensures (State(), outcome) == Services.ClaimDailyBonus(old(State()), uid, now, pick)
    {
      if uid !in users {
        return Fail(UserNotFound);
      }
      ghost var before := State();
      var a := users[uid].account;
      var step := NextStreak(a.lastLoginDate, now, a.loginStreak);
      if step.penalize {
        ApplyPenalty(uid, MissedLogin, a.loginStreak * LoginPenaltyRate, pick, now);
      }
      ClaimSteps(before, uid, now, pick);
      var d1 := users[uid];
      users := users[uid := d1.(account := d1.account.(coins := a.coins + BonusAmount(step.newStreak), lastBonusClaimed := Some(now),
                                                       loginStreak := step.newStreak, lastLoginDate := Some(now)),
                                ledger := d1.ledger + [BonusEntry(step.newStreak, now)])];
      CheckAndAwardBadges(uid, "streak", step.newStreak, Some("login"), now);
      return Pass;
    }

    /** The separate quiz-coins credit. */
    method UpdateUserCoinsAfterQuiz(uid: Uid, coins: int, now: int) returns (outcome: Outcome)
      modifies this
      ensures (State(), outcome) == Services.UpdateUserCoinsAfterQuiz(old(State()), uid, coins, now)
    {
      if coins <= 0 {
        return Pass;
      }
      if uid !in users {
        return Fail(UserNotFound);
      }
      var d := users[uid];
      users := users[uid := d.(account := d.account.(coins := d.account.coins + coins),
                               ledger := d.ledger + [DailyQuizEntry(coins, now)])];
      return Pass;
    }

    /** The perfect-day test: for each category in turn, a scan of the stored results for
        a 100 score since midnight; the first category without one answers false. */
    method CheckAllCategoriesCompletedToday(uid: Uid, midnight: int) returns (done: bool)
      ensures done == Services.CheckAllCategoriesCompletedToday(State(), uid, midnight)
    {
      var rs := if uid in users then users[uid].results else [];
      assert rs == State().ResultsOf(uid);
      var k := 0;
      while k < |Categories|
        invariant 0 <= k <= |Categories|
        invariant forall j :: 0 <= j < k ==> HasPerfectSince(rs, Categories[j], midnight)
        invariant unchanged(this)
      {
        var c := Categories[k];
        var found := false;
        var i := 0;
        while i < |rs| && !found
          invariant 0 <= i <= |rs|
          invariant found ==> HasPerfectSince(rs, c, midnight)
          invariant !found ==> forall j :: 0 <= j < i ==> !PerfectSince(rs[j], c, midnight)
          invariant unchanged(this)
        {
          if PerfectSince(rs[i], c, midnight) {
            found := true;
          }
          i := i + 1;
        }
        if !found {
          assert !HasPerfectSince(rs, c, midnight) && c in Categories;
          return false;
        }
        k := k + 1;
      }
      return true;
    }

    /** A quiz submission: grading first, then the session check for an unknown user,
        then the writes. */
    method SubmitQuizResult(uid: Uid, category: Category, questions: seq<Question>, answers: seq<int>,
                            now: int, midnight: int, user: Option<AuthUser>, pick: nat) returns (out: Result<QuizReport>)
      requires pick < MotivationCount
      modifies this
      ensures (State(), out) == Services.SubmitQuizResult(old(State()), uid, category, questions, answers, now, midnight, user, pick)
    {
      if |answers| > |questions| {
        return Err(AnswerWithoutQuestion);
      }
      if uid !in users && user.None? {
        return Err(NotAuthenticated);
      }
      ghost var before := State();
      var correct := CountCorrect(questions, answers);
      RecordQuiz(uid, category, questions, answers, now, midnight, user, pick);
      SubmitIsQuiz(before, uid, category, questions, answers, now, midnight, user, pick);
      return Ok(QuizReport(Score(correct, |questions|), CoinsPerCorrect * correct, correct));
    }

    /** The writes of an accepted submission: the account fallback, the penalty batch,
        the perfect-day test, the main batch, then the award checks. */
    method RecordQuiz(uid: Uid, category: Category, questions: seq<Question>, answers: seq<int>,
                      now: int, midnight: int, user: Option<AuthUser>, pick: nat)
      requires pick < MotivationCount && |answers| <= |questions| && (uid in users || user.Some?)
      modifies this
      ensures State() == Services.SubmitQuizResult(old(State()), uid, category, questions, answers, now, midnight, user, pick).0
    {
      var correct := CountCorrect(questions, answers);
      var score := Score(correct, |questions|);
      var created := uid !in users;
      ghost var before := State();
      var d := if created then Docs(BootstrapAccount(user.value, now), [], [], []) else users[uid];
      var a := d.account;
      var step := NextStreak(a.lastQuizDates.Get(category), now, a.quizStreaks.Get(category));
      if step.penalize {
        ApplyPenalty(uid, MissedQuiz, a.quizStreaks.Get(category) * QuizPenaltyRate, pick, now);
      }
      var perfectDay := false;
      if score == Some(100.0) {
        perfectDay := CheckAllCategoriesCompletedToday(uid, midnight);
      }
      var base := if created then d else users[uid];
      users := users[uid := base.(account := QuizUpdate(base.account, a, category, step.newStreak, correct, now, perfectDay),
                                  ledger := base.ledger + (if created then [WelcomeEntry(now)] else [])
                                            + [QuizEntry(category, correct, |questions|, now)],
                                  results := base.results + [QuizRecord(uid, category, questions, answers, now)])];
      AwardAfterQuiz(uid, category, step.newStreak, score == Some(100.0), now);
      QuizSteps(before, uid, category, questions, answers, now, midnight, user, pick);
    }

    /** The award checks after a submission: the category's streak badges, then the
        "perfect_score" kind for a full score. */
    method AwardAfterQuiz(uid: Uid, category: Category, streak: int, full: bool, now: int)
      modifies this
      ensures var streakChecked := Services.CheckAndAwardBadges(old(State()), uid, "streak", streak, Some(CategoryName(category)), now);
        State() == if full then Services.CheckAndAwardBadges(streakChecked, uid, "perfect_score", 1, Some(CategoryName(category)), now)
                   else streakChecked
    {
      CheckAndAwardBadges(uid, "streak", streak, Some(CategoryName(category)), now);
      if full {
        CheckAndAwardBadges(uid, "perfect_score", 1, Some(CategoryName(category)), now);
      }
    }

    /** A badge purchase: the user, the badge, then the checks of the purchase rule; a
        failure writes nothing. */
    method PurchaseBadge(uid: Uid, badgeId: string, now: int) returns (outcome: Outcome)
      modifies this
      ensures (State(), outcome) == Services.PurchaseBadge(old(State()), uid, badgeId, now)
    {
      if uid !in users {
        return Fail(UserNotFound);
      }
      var found := FindBadge(catalog, badgeId);
      if found.None? {
        return Fail(BadgeNotFound);
      }
      var badge := found.value;
      var d := users[uid];
      var a := d.account;
      if a.coins < 0 {
        return Fail(InvalidCoinBalance);
      }
      if badge.price.None? || badge.price.value <= 0 {
        return Fail(NotPurchasable);
      }
      var price := badge.price.value;
      if a.coins < price {
        return Fail(InsufficientCoins);
      }
      if badgeId in a.badges {
        return Fail(AlreadyOwned);
      }
      users := users[uid := d.(account := a.(coins := a.coins - price, badges := ArrayUnion(a.badges, [badgeId])),
                               ledger := d.ledger + [BadgeEntry(price, badge.name, now)])];
      return Pass;
    }

    /** The leaderboard check: each current row is looked up in the stored snapshot and
        notified of a rank change, then the ranked rows replace the snapshot. */
    method CheckLeaderboardChanges(rows: seq<Account>, now: int)
      modifies this
      ensures State() == Services.CheckLeaderboardChanges(old(State()), rows, now)
    {
      var current := GetLeaderboard(rows);
      if snapshot.Some? {
        var prev := snapshot.value;
        var i := 0;
        while i < |current|
          invariant 0 <= i <= |current|
          invariant users == NotifyRanks(old(users), prev, current, i, now)
          invariant catalog == old(catalog) && snapshot == old(snapshot)
        {
          var u := current[i].uid;
          var p := FindRanked(prev, u);
          if p.Some? && p.value.rank != i + 1 && u in users {
            users := users[u := users[u].(notices := users[u].notices + [RankNotice(p.value.rank, i + 1, now)])];
          }
          i := i + 1;
        }
      }
      snapshot := Some(RankAll(current));
    }
  }
}
