/** The services of the rewards engine as functions from one store state to the next.
    Every service except the leaderboard check touches the documents of a single user:
    the account document and its transactions, notifications and quizResults
    sub-collections. Each such service is written once on those documents (`Docs`)
    and lifted to the whole store with `Db.Put`, which leaves every other user alone.
    The Backend module's Store class is proved to follow these functions. */
module Services {
  import opened Types
  import opened Rules

  /** The account document of one user and its three sub-collections, oldest first. */
  datatype Docs = Docs(account: Account, ledger: seq<Entry>, notices: seq<Notification>, results: seq<QuizResult>)

  /** The whole store: the users collection keyed by uid, the badge catalog and the
      stored previous leaderboard (None until the first leaderboard check). */
  datatype Db = Db(users: map<Uid, Docs>, catalog: seq<Badge>, snapshot: Option<seq<Ranked>>)
  {
    /** The documents a batch leaves for `uid`; nobody else's change. */
    function Put(uid: Uid, d: Docs): (r: Db)
      ensures OthersUnchanged(this, r, uid)
      ensures uid in r.users && r.users[uid] == d
    {
      var r := this.(users := users[uid := d]);
      assert r.users - {uid} == users - {uid};
      r
    }

    /** The stored quiz results of `uid`; none when there is no such user. */
    function ResultsOf(uid: Uid): seq<QuizResult>
    {
      if uid in users then users[uid].results else []
    }
  }

  /** Nothing outside user `uid`'s documents changed. */
  ghost predicate OthersUnchanged(db: Db, r: Db, uid: Uid)
  {
    && r.users - {uid} == db.users - {uid}
    && r.catalog == db.catalog
    && r.snapshot == db.snapshot
  }

  // ---------------------------------------------------------------- documents written

  function WelcomeEntry(now: int): Entry
  {
    Entry(OnboardingCredit, Credit, WelcomeTag, WelcomeBonus, now)
  }

  function BonusEntry(streak: int, now: int): Entry
  {
    Entry(BonusAmount(streak), Credit, BonusTag, DailyLoginBonus(streak), now)
  }

  function PenaltyEntry(kind: PenaltyKind, debit: int, now: int): Entry
  {
    Entry(-debit, Debit, PenaltyTag, if kind == MissedLogin then MissedLoginPenalty else MissedQuizPenalty, now)
  }

  function QuizEntry(category: Category, correct: nat, total: nat, now: int): Entry
  {
    Entry(CoinsPerCorrect * correct, Credit, QuizTag, QuizReward(category, correct, total), now)
  }

  function DailyQuizEntry(coins: int, now: int): Entry
  {
    Entry(coins, Credit, QuizTag, DailyQuizReward, now)
  }

  /** The purchase entry names the badge as stored, "Unknown Badge" when it has no name. */
  function BadgeEntry(price: int, name: string, now: int): Entry
  {
    Entry(-price, Debit, BadgeTag, PurchasedBadge(if name == "" then "Unknown Badge" else name), now)
  }

  function MotivationNotice(pick: nat, now: int): Notification
  {
    Notification(PenaltyNotice, Motivation(pick), false, now)
  }

  function BadgeNotice(name: string, now: int): Notification
  {
    Notification(AchievementNotice, BadgeEarned(name), false, now)
  }

  function RankNotice(from: int, to: int, now: int): Notification
  {
    Notification(LeaderboardNotice, RankMoved(from, to), false, now)
  }

  /** The account document written at sign-up and by the quiz path's fallback. */
  function InitialAccount(uid: Uid, email: string, displayName: string, now: int): Account
  {
    var zeros := PerCategory(0, 0, 0, 0);
    Account(uid, email, displayName, OnboardingCredit, None, 0, None, zeros,
            PerCategory(None, None, None, None), [], zeros, 0, 0, 0, now)
  }

  // ---------------------------------------------------------------- invariants

  /** Signed sum of a ledger. */
  function Sum(es: seq<Entry>): int
  {
    if es == [] then 0 else Sum(es[..|es| - 1]) + es[|es| - 1].amount
  }

  lemma SumAppend(es: seq<Entry>, e: Entry)
    ensures Sum(es + [e]) == Sum(es) + e.amount
  {
    assert (es + [e])[..|es|] == es;
  }

  /** The intended ledger invariant for one user: the balance is the sum of the ledger. */
  predicate Agrees(d: Docs)
  {
    d.account.coins == Sum(d.ledger)
  }

  /** Balances and streaks are never negative. */
  predicate Counts(a: Account)
  {
    && a.coins >= 0
    && a.loginStreak >= 0
    && a.quizStreaks.math >= 0 && a.quizStreaks.aptitude >= 0
    && a.quizStreaks.grammar >= 0 && a.quizStreaks.programming >= 0
  }

  /** Every user's balance equals the sum of its ledger. */
  ghost predicate Balanced(db: Db)
  {
    forall u :: u in db.users ==> Agrees(db.users[u])
  }

  ghost predicate NonNegative(db: Db)
  {
    forall u :: u in db.users ==> Counts(db.users[u].account)
  }

  /** After a batch on one user, each store-wide invariant that held before holds exactly
      when it holds for that user's new documents; the two are independent. */
  lemma PutInvariants(db: Db, uid: Uid, d: Docs)
    ensures Balanced(db) ==> (Balanced(db.Put(uid, d)) <==> Agrees(d))
    ensures NonNegative(db) ==> (NonNegative(db.Put(uid, d)) <==> Counts(d.account))
  {
    var r := db.Put(uid, d);
    forall u | u in r.users && u != uid
      ensures u in db.users && r.users[u] == db.users[u]
    {
      assert u in r.users - {uid};
      assert r.users[u] == (r.users - {uid})[u];
    }
  }

  // ---------------------------------------------------------------- sign-up

  /** The store part of sign-up: the initial account document, then the welcome credit.
      Sub-collections already under the uid are kept. */
  function SignUp(db: Db, uid: Uid, email: string, displayName: string, now: int): (r: Db)
  {
    var ledger := if uid in db.users then db.users[uid].ledger else [];
    var notices := if uid in db.users then db.users[uid].notices else [];
    db.Put(uid, Docs(InitialAccount(uid, email, displayName, now), ledger + [WelcomeEntry(now)], notices, db.ResultsOf(uid)))
  }

  /** A new user starts with 500 coins, no streaks, no badges and the welcome entry as the
      whole ledger; counts stay non-negative, and a balanced store stays balanced. */
  lemma SignUpOnboards(db: Db, uid: Uid, email: string, displayName: string, now: int)
    requires NonNegative(db) && uid !in db.users
    ensures var r := SignUp(db, uid, email, displayName, now);
      && OthersUnchanged(db, r, uid) && uid in r.users
      && r.users[uid].account.coins == OnboardingCredit
      && r.users[uid].account.loginStreak == 0 && r.users[uid].account.lastLoginDate.None?
      && r.users[uid].account.lastBonusClaimed.None? && r.users[uid].account.badges == []
      && (forall c :: r.users[uid].account.quizStreaks.Get(c) == 0 && r.users[uid].account.lastQuizDates.Get(c).None?)
      && r.users[uid].ledger == [WelcomeEntry(now)]
      && NonNegative(r) && (Balanced(db) ==> Balanced(r))
  {
    var d := Docs(InitialAccount(uid, email, displayName, now), [] + [WelcomeEntry(now)], [], []);
    assert [] + [WelcomeEntry(now)] == [WelcomeEntry(now)];
    SumAppend([], WelcomeEntry(now));
    PutInvariants(db, uid, d);
    forall c ensures d.account.quizStreaks.Get(c) == 0 && d.account.lastQuizDates.Get(c).None? {
      match c { case Math => case Aptitude => case Grammar => case Programming => }
    }
  }

  // ---------------------------------------------------------------- penalty

  /** The entries a penalty adds: none when it does not fire or the amount is not positive. */
  function PenaltyPart(fires: bool, kind: PenaltyKind, amount: int, coins: int, now: int): seq<Entry>
  {
    if fires && amount > 0 then [PenaltyEntry(kind, PenaltyDebit(amount, coins), now)] else []
  }

  /** The coins a penalty takes: none when it does not fire or the amount is not positive. */
  function PenaltyDebited(fires: bool, amount: int, coins: int): int
  {
    if fires && amount > 0 then PenaltyDebit(amount, coins) else 0
  }

  /** A streak-break penalty on one user's documents: the debit is capped at the balance,
      the balance is floored at zero, and one penalty entry and one motivational
      notification are added. A non-positive amount writes nothing. */
  function Penalize(d: Docs, kind: PenaltyKind, amount: int, pick: nat, now: int): (r: Docs)
    requires pick < MotivationCount
    ensures r.results == d.results
    ensures r.account == d.account.(coins := r.account.coins)
    ensures r.ledger == d.ledger + PenaltyPart(true, kind, amount, d.account.coins, now)
    ensures amount <= 0 ==> r == d
    ensures amount > 0 ==> r.notices == d.notices + [MotivationNotice(pick, now)]
  {
    if amount <= 0 then d
    else
      var debit := PenaltyDebit(amount, d.account.coins);
      d.(account := d.account.(coins := Max(0, d.account.coins - debit)),
         ledger := d.ledger + [PenaltyEntry(kind, debit, now)],
         notices := d.notices + [MotivationNotice(pick, now)])
  }

  /** The penalty service: a separate batch, skipped for an unknown user. */
  function ApplyPenalty(db: Db, uid: Uid, kind: PenaltyKind, amount: int, pick: nat, now: int): (r: Db)
    requires pick < MotivationCount
    ensures amount <= 0 || uid !in db.users ==> r == db
    ensures OthersUnchanged(db, r, uid) && r.users.Keys == db.users.Keys
    ensures amount > 0 && uid in db.users ==>
      && r.users[uid].ledger == db.users[uid].ledger + [PenaltyEntry(kind, PenaltyDebit(amount, db.users[uid].account.coins), now)]
      && r.users[uid].notices == db.users[uid].notices + [MotivationNotice(pick, now)]
  {
    if amount <= 0 || uid !in db.users then db
    else db.Put(uid, Penalize(db.users[uid], kind, amount, pick, now))
  }

  /** On a non-negative balance the debit is the amount or, when that is more, the whole
      balance; the balance drops by exactly the debit and stays non-negative; one entry
      and one notification are added. */
  lemma PenaltyEffect(d: Docs, kind: PenaltyKind, amount: int, pick: nat, now: int)
    requires pick < MotivationCount
    requires amount > 0 && d.account.coins >= 0
    ensures var r := Penalize(d, kind, amount, pick, now);
      var c := d.account.coins;
      var debit := PenaltyDebit(amount, c);
      && 0 <= debit <= amount
      && r.account == d.account.(coins := c - debit) && c - debit >= 0
      && (debit == amount || r.account.coins == 0)
      && r.ledger == d.ledger + [PenaltyEntry(kind, debit, now)]
      && r.notices == d.notices + [MotivationNotice(pick, now)]
  {
  }

  /** Taken alone, a penalty keeps the balance equal to the ledger sum and keeps counts
      non-negative, whatever the balance was. */
  lemma PenaltyKeepsAgreement(d: Docs, kind: PenaltyKind, amount: int, pick: nat, now: int)
    requires pick < MotivationCount
    ensures Agrees(d) ==> Agrees(Penalize(d, kind, amount, pick, now))
    ensures Counts(d.account) ==> Counts(Penalize(d, kind, amount, pick, now).account)
  {
    if amount > 0 {
      SumAppend(d.ledger, PenaltyEntry(kind, PenaltyDebit(amount, d.account.coins), now));
    }
  }

  /** On a negative balance the "debit" entry records a credit of the missing coins and the
      balance is reset to zero. */
  lemma PenaltyOnNegativeBalance(d: Docs, kind: PenaltyKind, amount: int, pick: nat, now: int)
    requires pick < MotivationCount
    requires amount > 0 && d.account.coins < 0
    ensures var r := Penalize(d, kind, amount, pick, now);
      && r.account.coins == 0
      && r.ledger == d.ledger + [PenaltyEntry(kind, d.account.coins, now)]
      && r.ledger[|r.ledger| - 1].amount == -d.account.coins > 0
      && r.notices == d.notices + [MotivationNotice(pick, now)]
  {
  }

  /** The penalty service keeps each of the store's invariants. */
  lemma ApplyPenaltyKeepsInvariants(db: Db, uid: Uid, kind: PenaltyKind, amount: int, pick: nat, now: int)
    requires pick < MotivationCount
    ensures NonNegative(db) ==> NonNegative(ApplyPenalty(db, uid, kind, amount, pick, now))
    ensures Balanced(db) ==> Balanced(ApplyPenalty(db, uid, kind, amount, pick, now))
  {
    if amount > 0 && uid in db.users {
      PenaltyKeepsAgreement(db.users[uid], kind, amount, pick, now);
      PutInvariants(db, uid, Penalize(db.users[uid], kind, amount, pick, now));
    }
  }

  // ---------------------------------------------------------------- badge award

  /** One achievement notification per granted badge that has a name. */
  function BadgeNotices(granted: seq<Badge>, now: int): seq<Notification>
  {
    if granted == [] then []
    else
      var b := granted[|granted| - 1];
      BadgeNotices(granted[..|granted| - 1], now) + (if b.name != "" then [BadgeNotice(b.name, now)] else [])
  }

  lemma {:induction false} BadgeNoticesCount(granted: seq<Badge>, now: int)
    requires forall b :: b in granted ==> b.name != ""
    ensures |BadgeNotices(granted, now)| == |granted|
  {
    if granted != [] {
      var k := |granted| - 1;
      assert granted[k] in granted;
      forall b | b in granted[..k] ensures b.name != "" { assert b in granted; }
      BadgeNoticesCount(granted[..k], now);
    }
  }

  /** The award on one user's documents, given the catalog as read: every qualifying
      badge is added to the owned list in one batch with one notification each. The
      ledger, the results and every other account field are untouched. */
  function Award(d: Docs, view: seq<Badge>, kind: string, value: int, category: Option<string>, now: int): (r: Docs)
    ensures r.account == d.account.(badges := r.account.badges)
    ensures r.ledger == d.ledger && r.results == d.results
    ensures d.account.badges <= r.account.badges
  {
    var granted := Eligible(view, d.account.badges, kind, value, category);
    if |granted| == 0 then d
    else
      d.(account := d.account.(badges := ArrayUnion(d.account.badges, Ids(granted))),
         notices := d.notices + BadgeNotices(granted, now))
  }

  /** The award service: nothing happens when the catalog reads empty or the user is
      unknown; it never fails. */
  function CheckAndAwardBadges(db: Db, uid: Uid, kind: string, value: int, category: Option<string>, now: int): (r: Db)
    ensures |db.catalog| == 0 || uid !in db.users ==> r == db
    ensures OthersUnchanged(db, r, uid) && r.users.Keys == db.users.Keys
    ensures uid in db.users ==>
      && r.users[uid].account == db.users[uid].account.(badges := r.users[uid].account.badges)
      && db.users[uid].account.badges <= r.users[uid].account.badges
      && r.users[uid].ledger == db.users[uid].ledger && r.users[uid].results == db.users[uid].results
  {
    var view := ReadBadges(db.catalog);
    if |view| == 0 || uid !in db.users then db
    else db.Put(uid, Award(db.users[uid], view, kind, value, category, now))
  }

  /** For a known user the award service is the award on that user's documents; an
      empty catalog grants nothing. */
  lemma AwardServiceIsAward(db: Db, uid: Uid, kind: string, value: int, category: Option<string>, now: int)
    requires uid in db.users
    ensures CheckAndAwardBadges(db, uid, kind, value, category, now)
         == db.Put(uid, Award(db.users[uid], ReadBadges(db.catalog), kind, value, category, now))
  {
    if |ReadBadges(db.catalog)| == 0 {
      assert db.users[uid := db.users[uid]] == db.users;
    }
  }

  lemma PutPut(db: Db, uid: Uid, x: Docs, y: Docs)
    ensures db.Put(uid, x).Put(uid, y) == db.Put(uid, y)
  {
    assert db.users[uid := x][uid := y] == db.users[uid := y];
  }

  /** For a known user the penalty service is the penalty on that user's documents. */
  lemma PenaltyServiceIsPenalize(db: Db, uid: Uid, kind: PenaltyKind, amount: int, pick: nat, now: int)
    requires pick < MotivationCount && uid in db.users
    ensures ApplyPenalty(db, uid, kind, amount, pick, now) == db.Put(uid, Penalize(db.users[uid], kind, amount, pick, now))
  {
    if amount <= 0 {
      assert db.users[uid := db.users[uid]] == db.users;
    }
  }

  /** The award service changes no balance, streak or ledger, so each of the store's
      invariants is kept. */
  lemma AwardKeepsInvariants(db: Db, uid: Uid, kind: string, value: int, category: Option<string>, now: int)
    ensures Balanced(db) ==> Balanced(CheckAndAwardBadges(db, uid, kind, value, category, now))
    ensures NonNegative(db) ==> NonNegative(CheckAndAwardBadges(db, uid, kind, value, category, now))
  {
    if uid in db.users {
      PutInvariants(db, uid, CheckAndAwardBadges(db, uid, kind, value, category, now).users[uid]);
      AwardServiceIsAward(db, uid, kind, value, category, now);
    }
  }

  /** The owned list gains exactly the ids of the qualifying badges, never gains a
      duplicate, and one notification is added per granted badge. */
  lemma AwardGrants(d: Docs, catalog: seq<Badge>, kind: string, value: int, category: Option<string>, now: int)
    ensures var view := ReadBadges(catalog);
      var g := Eligible(view, d.account.badges, kind, value, category);
      var r := Award(d, view, kind, value, category, now);
      && (forall id :: id in r.account.badges <==> id in d.account.badges || id in Ids(g))
      && (NoDuplicates(d.account.badges) ==> NoDuplicates(r.account.badges))
      && r.notices == d.notices + BadgeNotices(g, now)
      && |r.notices| == |d.notices| + |g|
  {
    var view := ReadBadges(catalog);
    var g := Eligible(view, d.account.badges, kind, value, category);
    EligibleMembers(view, d.account.badges, kind, value, category);
    forall b | b in g ensures b.name != "" {
      assert b in view;
      var i :| 0 <= i < |view| && view[i] == b;
    }
    BadgeNoticesCount(g, now);
    if |g| == 0 {
      assert g == [];
    }
  }

  /** A badge id is granted exactly when some catalog badge with that id qualifies. */
  lemma GrantedIdsExactly(catalog: seq<Badge>, owned: seq<string>, kind: string, value: int, category: Option<string>, id: string)
    ensures id in Ids(Eligible(ReadBadges(catalog), owned, kind, value, category)) <==>
      exists b :: b in catalog && b.id == id && Qualifies(b, owned, kind, value, category)
  {
    var view := ReadBadges(catalog);
    var g := Eligible(view, owned, kind, value, category);
    EligibleMembers(view, owned, kind, value, category);
    if id in Ids(g) {
      var i :| 0 <= i < |g| && Ids(g)[i] == id;
      assert g[i] in g;
      var j :| 0 <= j < |view| && view[j] == g[i];
      assert catalog[j] in catalog && catalog[j].id == id;
      assert Qualifies(catalog[j], owned, kind, value, category);
    }
    if exists b :: b in catalog && b.id == id && Qualifies(b, owned, kind, value, category) {
      var b :| b in catalog && b.id == id && Qualifies(b, owned, kind, value, category);
      var j :| 0 <= j < |catalog| && catalog[j] == b;
      assert view[j] in view && Qualifies(view[j], owned, kind, value, category);
      assert view[j] in g;
      var i :| 0 <= i < |g| && g[i] == view[j];
      assert Ids(g)[i] == id;
    }
  }

  /** The requirement kinds the catalog uses. */
  ghost predicate KnownKinds(catalog: seq<Badge>)
  {
    forall b :: b in catalog && b.requirement.Some? ==> b.requirement.value.kind in {"streak", "perfect", "coins"}
  }

  /** The quiz path asks for kind "perfect_score", which no catalog badge has: the call
      never grants anything and leaves the documents as they were. */
  lemma PerfectScoreNeverAwarded(d: Docs, catalog: seq<Badge>, value: int, category: Option<string>, now: int)
    requires KnownKinds(catalog)
    ensures Award(d, ReadBadges(catalog), "perfect_score", value, category, now) == d
  {
    var view := ReadBadges(catalog);
    forall i | 0 <= i < |view| ensures !Qualifies(view[i], d.account.badges, "perfect_score", value, category) {
      assert catalog[i] in catalog;
    }
    EligibleEmptyIff(view, d.account.badges, "perfect_score", value, category);
  }

  // ---------------------------------------------------------------- daily bonus

  /** The daily-bonus claim on one user's documents. A broken streak is penalised in a
      separate, earlier batch; the main batch then writes the balance computed from the
      account as read before the penalty; the award check follows. */
  function Claim(d: Docs, view: seq<Badge>, now: int, pick: nat): Docs
    requires pick < MotivationCount
  {
    var a := d.account;
    var step := NextStreak(a.lastLoginDate, now, a.loginStreak);
    var d1 := if step.penalize then Penalize(d, MissedLogin, a.loginStreak * LoginPenaltyRate, pick, now) else d;
    Award(ClaimBatch(d1, a, step.newStreak, now), view, "streak", step.newStreak, Some("login"), now)
  }

  /** The main batch of a claim, applied to the stored documents `d1` with the values
      computed from the account as read (`a`). */
  function ClaimBatch(d1: Docs, a: Account, streak: int, now: int): Docs
  {
    d1.(account := d1.account.(coins := a.coins + BonusAmount(streak), lastBonusClaimed := Some(now),
                               loginStreak := streak, lastLoginDate := Some(now)),
        ledger := d1.ledger + [BonusEntry(streak, now)])
  }

  /** The claim service; an unknown user is an error. */
  function ClaimDailyBonus(db: Db, uid: Uid, now: int, pick: nat): (r: (Db, Outcome))
    requires pick < MotivationCount
    ensures uid !in db.users ==> r == (db, Fail(UserNotFound))
    ensures uid in db.users ==> r.1 == Pass && OthersUnchanged(db, r.0, uid)
  {
    if uid !in db.users then (db, Fail(UserNotFound))
    else (db.Put(uid, Claim(db.users[uid], ReadBadges(db.catalog), now, pick)), Pass)
  }

  /** A claim is the penalty service when the streak broke, the main batch on the
      documents that leaves, then the award service. */
  lemma ClaimSteps(db: Db, uid: Uid, now: int, pick: nat)
    requires pick < MotivationCount && uid in db.users
    ensures var a := db.users[uid].account;
      var s := NextStreak(a.lastLoginDate, now, a.loginStreak);
      var db1 := if s.penalize then ApplyPenalty(db, uid, MissedLogin, a.loginStreak * LoginPenaltyRate, pick, now) else db;
      && uid in db1.users
      && ClaimDailyBonus(db, uid, now, pick).0 ==
           CheckAndAwardBadges(db1.Put(uid, ClaimBatch(db1.users[uid], a, s.newStreak, now)), uid, "streak", s.newStreak, Some("login"), now)
  {
    var d := db.users[uid];
    var a := d.account;
    var s := NextStreak(a.lastLoginDate, now, a.loginStreak);
    var amount := a.loginStreak * LoginPenaltyRate;
    var d1 := if s.penalize then Penalize(d, MissedLogin, amount, pick, now) else d;
    var db1 := if s.penalize then ApplyPenalty(db, uid, MissedLogin, amount, pick, now) else db;
    PenaltyServiceIsPenalize(db, uid, MissedLogin, amount, pick, now);
    assert db1.users[uid] == d1;
    var d2 := ClaimBatch(d1, a, s.newStreak, now);
    if s.penalize {
      PutPut(db, uid, d1, d2);
    }
    assert db1.Put(uid, d2) == db.Put(uid, d2);
    AwardServiceIsAward(db.Put(uid, d2), uid, "streak", s.newStreak, Some("login"), now);
    PutPut(db, uid, d2, Award(d2, ReadBadges(db.catalog), "streak", s.newStreak, Some("login"), now));
  }

  /** What a claim writes: the streak continues only after a gap of one day and otherwise
      restarts at 1; the bonus for the new streak is credited on top of the balance read
      before any penalty; the ledger gains the penalty entry (when the streak broke) and
      exactly one bonus entry; badges only grow. */
  lemma ClaimEffect(d: Docs, view: seq<Badge>, now: int, pick: nat)
    requires pick < MotivationCount
    ensures var a := d.account;
      var s := NextStreak(a.lastLoginDate, now, a.loginStreak);
      var r := Claim(d, view, now, pick);
      && r.account == a.(coins := a.coins + BonusAmount(s.newStreak), lastBonusClaimed := Some(now),
                         loginStreak := s.newStreak, lastLoginDate := Some(now), badges := r.account.badges)
      && a.badges <= r.account.badges
      && r.ledger == d.ledger + PenaltyPart(s.penalize, MissedLogin, a.loginStreak * LoginPenaltyRate, a.coins, now)
                     + [BonusEntry(s.newStreak, now)]
      && r.results == d.results
  {
  }

  /** After a claim the balance exceeds the ledger sum by exactly the penalty debit: the
      penalty is recorded in the ledger but overwritten in the balance. */
  lemma ClaimDrift(d: Docs, view: seq<Badge>, now: int, pick: nat)
    requires pick < MotivationCount
    requires Counts(d.account)
    ensures var a := d.account;
      var s := NextStreak(a.lastLoginDate, now, a.loginStreak);
      var r := Claim(d, view, now, pick);
      var debit := PenaltyDebited(s.penalize, a.loginStreak * LoginPenaltyRate, a.coins);
      && Counts(r.account)
      && r.account.coins - Sum(r.ledger) == a.coins - Sum(d.ledger) + debit
  {
    var a := d.account;
    var s := NextStreak(a.lastLoginDate, now, a.loginStreak);
    var amount := a.loginStreak * LoginPenaltyRate;
    ClaimEffect(d, view, now, pick);
    var pre := d.ledger + PenaltyPart(s.penalize, MissedLogin, amount, a.coins, now);
    SumAppend(pre, BonusEntry(s.newStreak, now));
    if s.penalize && amount > 0 {
      SumAppend(d.ledger, PenaltyEntry(MissedLogin, PenaltyDebit(amount, a.coins), now));
    } else {
      assert pre == d.ledger;
    }
  }

  /** Store-wide: a claim keeps balances and streaks non-negative, and keeps every
      balance equal to its ledger sum exactly when no penalty coins were taken. */
  lemma ClaimBalanceDrift(db: Db, uid: Uid, now: int, pick: nat)
    requires pick < MotivationCount
    requires NonNegative(db) && uid in db.users
    ensures var a := db.users[uid].account;
      var s := NextStreak(a.lastLoginDate, now, a.loginStreak);
      var r := ClaimDailyBonus(db, uid, now, pick).0;
      && NonNegative(r)
      && (Balanced(db) ==> (Balanced(r) <==> PenaltyDebited(s.penalize, a.loginStreak * LoginPenaltyRate, a.coins) == 0))
  {
    var d := db.users[uid];
    assert Counts(d.account);
    ClaimDrift(d, ReadBadges(db.catalog), now, pick);
    PutInvariants(db, uid, Claim(d, ReadBadges(db.catalog), now, pick));
  }

  /** A claim whose streak broke, by an account that had a streak and coins to lose,
      leaves the account's balance different from the sum of its ledger. */
  lemma ClaimPenaltyUnbalances(db: Db, uid: Uid, now: int, pick: nat)
    requires pick < MotivationCount
    requires Balanced(db) && NonNegative(db) && uid in db.users
    requires db.users[uid].account.lastLoginDate.Some?
    requires now - db.users[uid].account.lastLoginDate.value >= 2 * MillisPerDay
    requires db.users[uid].account.loginStreak > 0 && db.users[uid].account.coins > 0
    ensures !Balanced(ClaimDailyBonus(db, uid, now, pick).0)
  {
    ClaimBalanceDrift(db, uid, now, pick);
  }

  /** The service itself does not reject a second claim on the same day: a claim within
      24 hours of the last one succeeds, restarts the streak at 1 and credits 100 more. */
  lemma SameDayClaimAccepted(db: Db, uid: Uid, now: int, pick: nat)
    requires pick < MotivationCount
    requires uid in db.users && db.users[uid].account.lastLoginDate.Some?
    requires db.users[uid].account.lastLoginDate.value <= now < db.users[uid].account.lastLoginDate.value + MillisPerDay
    ensures var r := ClaimDailyBonus(db, uid, now, pick);
      && r.1 == Pass
      && r.0.users[uid].account.loginStreak == 1
      && r.0.users[uid].account.coins == db.users[uid].account.coins + BaseBonus
      && r.0.users[uid].ledger == db.users[uid].ledger + [BonusEntry(1, now)]
  {
    ClaimEffect(db.users[uid], ReadBadges(db.catalog), now, pick);
  }

  // ---------------------------------------------------------------- quiz

  /** The values a quiz submission returns: the float score, the coins and the count. */
  datatype QuizReport = QuizReport(score: Option<real>, coinsEarned: int, correctAnswers: nat)

  /** The account the quiz path creates when no account document exists. */
  function BootstrapAccount(user: AuthUser, now: int): Account
  {
    InitialAccount(user.uid, user.email, if user.displayName == "" then "User" else user.displayName, now)
  }

  /** A result counts towards a perfect day when it is in the category, was stored at or
      after today's midnight, and scored exactly 100. */
  predicate PerfectSince(q: QuizResult, c: Category, midnight: int)
  {
    q.category == c && q.timestamp >= midnight && q.score == Some(100.0)
  }

  predicate HasPerfectSince(rs: seq<QuizResult>, c: Category, midnight: int)
  {
    exists i :: 0 <= i < |rs| && PerfectSince(rs[i], c, midnight)
  }

  /** The perfect-day test: every one of the four categories already has a stored
      100-score result since midnight. */
  predicate AllCategoriesPerfectSince(rs: seq<QuizResult>, midnight: int)
  {
    forall c :: c in Categories ==> HasPerfectSince(rs, c, midnight)
  }

  /** The all-categories check as a service: it reads the user's stored quiz results. */
  function CheckAllCategoriesCompletedToday(db: Db, uid: Uid, midnight: int): bool
  {
    AllCategoriesPerfectSince(db.ResultsOf(uid), midnight)
  }

  /** The account update of a quiz submission, applied to the stored document `base`:
      the balance and counters come from the account as read (`a`). Only the submitted
      category's streak, last date and lifetime count change. */
  function QuizUpdate(base: Account, a: Account, category: Category, newStreak: int, correct: nat,
                      now: int, perfectDay: bool): Account
  {
    base.(coins := a.coins + CoinsPerCorrect * correct,
          quizStreaks := base.quizStreaks.Set(category, newStreak),
          lastQuizDates := base.lastQuizDates.Set(category, Some(now)),
          totalQuizCorrect := base.totalQuizCorrect.Set(category, a.totalQuizCorrect.Get(category) + correct),
          perfectDays := if perfectDay then a.perfectDays + 1 else base.perfectDays)
  }

  /** The account a quiz submission writes, from the account as read and the results
      stored before the submission. */
  function QuizAccount(a: Account, category: Category, questions: seq<Question>, answers: seq<int>,
                       now: int, midnight: int, prior: seq<QuizResult>): Account
    requires |answers| <= |questions|
  {
    var correct := CountCorrect(questions, answers);
    var s := NextStreak(a.lastQuizDates.Get(category), now, a.quizStreaks.Get(category));
    QuizUpdate(a, a, category, s.newStreak, correct, now,
               Score(correct, |questions|) == Some(100.0) && AllCategoriesPerfectSince(prior, midnight))
  }

  /** The stored record of a graded submission. */
  function QuizRecord(uid: Uid, category: Category, questions: seq<Question>, answers: seq<int>, now: int): QuizResult
    requires |answers| <= |questions|
  {
    var correct := CountCorrect(questions, answers);
    QuizResult(uid, category, Score(correct, |questions|), |questions|, correct, CoinsPerCorrect * correct, now, questions, answers)
  }

  /** A graded submission on one user's documents; `created` marks documents the quiz path
      has just created, whose welcome entry goes into the same batch. A broken category
      streak is penalised in a separate earlier batch; the perfect-day test reads the
      results stored before this submission; the account update, the ledger entries and
      the result are committed together; the award checks follow. */
  function Quiz(d: Docs, uid: Uid, created: bool, category: Category, questions: seq<Question>, answers: seq<int>,
                now: int, midnight: int, pick: nat, view: seq<Badge>): Docs
    requires pick < MotivationCount && |answers| <= |questions|
  {
    var a := d.account;
    var correct := CountCorrect(questions, answers);
    var score := Score(correct, |questions|);
    var step := NextStreak(a.lastQuizDates.Get(category), now, a.quizStreaks.Get(category));
    var d1 := if step.penalize then Penalize(d, MissedQuiz, a.quizStreaks.Get(category) * QuizPenaltyRate, pick, now) else d;
    var perfectDay := score == Some(100.0) && AllCategoriesPerfectSince(d1.results, midnight);
    var d2 := QuizBatch(d1, a, uid, created, category, questions, answers, now, perfectDay);
    QuizAwards(d2, view, category, step.newStreak, score == Some(100.0), now)
  }

  /** The award checks after a submission: the category's streak badges, then, for a full
      score, the "perfect_score" kind. Only the badges and the notifications change. */
  function QuizAwards(d: Docs, view: seq<Badge>, category: Category, streak: int, full: bool, now: int): (r: Docs)
    ensures r.account == d.account.(badges := r.account.badges)
    ensures r.ledger == d.ledger && r.results == d.results
    ensures d.account.badges <= r.account.badges
  {
    var d3 := Award(d, view, "streak", streak, Some(CategoryName(category)), now);
    if full then Award(d3, view, "perfect_score", 1, Some(CategoryName(category)), now) else d3
  }

  /** The main batch of a submission, applied to the stored documents `d1` with the
      values computed from the account as read (`a`). */
  function QuizBatch(d1: Docs, a: Account, uid: Uid, created: bool, category: Category, questions: seq<Question>,
                     answers: seq<int>, now: int, perfectDay: bool): Docs
    requires |answers| <= |questions|
  {
    var correct := CountCorrect(questions, answers);
    var step := NextStreak(a.lastQuizDates.Get(category), now, a.quizStreaks.Get(category));
    d1.(account := QuizUpdate(d1.account, a, category, step.newStreak, correct, now, perfectDay),
        ledger := d1.ledger + (if created then [WelcomeEntry(now)] else []) + [QuizEntry(category, correct, |questions|, now)],
        results := d1.results + [QuizRecord(uid, category, questions, answers, now)])
  }

  /** The quiz service. Grading comes first and fails, writing nothing, when there are
      more answers than questions; an unknown user without a signed-in session is an
      error; an unknown user with one gets a new account document holding the onboarding
      credit. */
  function SubmitQuizResult(db: Db, uid: Uid, category: Category, questions: seq<Question>, answers: seq<int>,
                            now: int, midnight: int, user: Option<AuthUser>, pick: nat): (r: (Db, Result<QuizReport>))
    requires pick < MotivationCount
    ensures |answers| > |questions| ==> r == (db, Err(AnswerWithoutQuestion))
    ensures |answers| <= |questions| && uid !in db.users && user.None? ==> r == (db, Err(NotAuthenticated))
    ensures (|answers| <= |questions| && (uid in db.users || user.Some?)) == r.1.Ok?
  {
    var grade := GradeQuiz(questions, answers);
    if grade.Err? then (db, Err(grade.error))
    else if uid !in db.users && user.None? then (db, Err(NotAuthenticated))
    else
      var created := uid !in db.users;
      var d := if created then Docs(BootstrapAccount(user.value, now), [], [], []) else db.users[uid];
      var correct := grade.value.correctAnswers;
      (db.Put(uid, Quiz(d, uid, created, category, questions, answers, now, midnight, pick, ReadBadges(db.catalog))),
       Ok(QuizReport(Score(correct, |questions|), grade.value.coinsEarned, correct)))
  }

  /** A successful submission is the penalty service when the category streak broke,
      the perfect-day test on what that leaves, the main batch, then the award services. */
  lemma QuizSteps(db: Db, uid: Uid, category: Category, questions: seq<Question>, answers: seq<int>,
                  now: int, midnight: int, user: Option<AuthUser>, pick: nat)
    requires pick < MotivationCount && |answers| <= |questions| && (uid in db.users || user.Some?)
    ensures var created := uid !in db.users;
      var d := if created then Docs(BootstrapAccount(user.value, now), [], [], []) else db.users[uid];
      var a := d.account;
      var s := NextStreak(a.lastQuizDates.Get(category), now, a.quizStreaks.Get(category));
      var full := Score(CountCorrect(questions, answers), |questions|) == Some(100.0);
      var db1 := if s.penalize then ApplyPenalty(db, uid, MissedQuiz, a.quizStreaks.Get(category) * QuizPenaltyRate, pick, now) else db;
      && (created || uid in db1.users)
      && var perfectDay := full && CheckAllCategoriesCompletedToday(db1, uid, midnight);
      var db2 := db1.Put(uid, QuizBatch(if created then d else db1.users[uid], a, uid, created, category, questions, answers, now, perfectDay));
      var db3 := CheckAndAwardBadges(db2, uid, "streak", s.newStreak, Some(CategoryName(category)), now);
      SubmitQuizResult(db, uid, category, questions, answers, now, midnight, user, pick).0
        == if full then CheckAndAwardBadges(db3, uid, "perfect_score", 1, Some(CategoryName(category)), now) else db3
  {
    var created := uid !in db.users;
    var d := if created then Docs(BootstrapAccount(user.value, now), [], [], []) else db.users[uid];
    var a := d.account;
    var s := NextStreak(a.lastQuizDates.Get(category), now, a.quizStreaks.Get(category));
    var full := Score(CountCorrect(questions, answers), |questions|) == Some(100.0);
    var amount := a.quizStreaks.Get(category) * QuizPenaltyRate;
    var d1 := if s.penalize then Penalize(d, MissedQuiz, amount, pick, now) else d;
    var db1 := if s.penalize then ApplyPenalty(db, uid, MissedQuiz, amount, pick, now) else db;
    if !created {
      PenaltyServiceIsPenalize(db, uid, MissedQuiz, amount, pick, now);
      assert db1.users[uid] == d1;
    }
    assert db1.ResultsOf(uid) == d1.results;
    var perfectDay := full && CheckAllCategoriesCompletedToday(db1, uid, midnight);
    assert perfectDay == (full && AllCategoriesPerfectSince(d1.results, midnight));
    var view := ReadBadges(db.catalog);
    var d2 := QuizBatch(d1, a, uid, created, category, questions, answers, now, perfectDay);
    if s.penalize && !created {
      PutPut(db, uid, d1, d2);
    }
    var db2 := db.Put(uid, d2);
    assert db1.Put(uid, d2) == db2;
    QuizAwardServices(db, uid, d2, category, s.newStreak, full, now);
    QuizStaged(d, uid, created, category, questions, answers, now, midnight, pick, view);
    SubmitIsQuiz(db, uid, category, questions, answers, now, midnight, user, pick);
  }

  /** A successful submission writes the user's documents, and only them. */
  lemma SubmitIsQuiz(db: Db, uid: Uid, category: Category, questions: seq<Question>, answers: seq<int>,
                     now: int, midnight: int, user: Option<AuthUser>, pick: nat)
    requires pick < MotivationCount && |answers| <= |questions| && (uid in db.users || user.Some?)
    ensures var created := uid !in db.users;
      var d := if created then Docs(BootstrapAccount(user.value, now), [], [], []) else db.users[uid];
      var correct := CountCorrect(questions, answers);
      && SubmitQuizResult(db, uid, category, questions, answers, now, midnight, user, pick).0
           == db.Put(uid, Quiz(d, uid, created, category, questions, answers, now, midnight, pick, ReadBadges(db.catalog)))
      && SubmitQuizResult(db, uid, category, questions, answers, now, midnight, user, pick).1
           == Ok(QuizReport(Score(correct, |questions|), CoinsPerCorrect * correct, correct))
  {
  }

  /** A submission on one user's documents is the main batch on what the penalty left,
      followed by the quiz awards. */
  lemma QuizStaged(d: Docs, uid: Uid, created: bool, category: Category, questions: seq<Question>, answers: seq<int>,
                   now: int, midnight: int, pick: nat, view: seq<Badge>)
    requires pick < MotivationCount && |answers| <= |questions|
    ensures var a := d.account;
      var s := NextStreak(a.lastQuizDates.Get(category), now, a.quizStreaks.Get(category));
      var full := Score(CountCorrect(questions, answers), |questions|) == Some(100.0);
      var d1 := if s.penalize then Penalize(d, MissedQuiz, a.quizStreaks.Get(category) * QuizPenaltyRate, pick, now) else d;
      var d2 := QuizBatch(d1, a, uid, created, category, questions, answers, now, full && AllCategoriesPerfectSince(d1.results, midnight));
      Quiz(d, uid, created, category, questions, answers, now, midnight, pick, view) == QuizAwards(d2, view, category, s.newStreak, full, now)
  {
  }

  /** The award services after a submission are the quiz awards on the documents the
      main batch wrote. */
  lemma QuizAwardServices(db: Db, uid: Uid, d: Docs, category: Category, streak: int, full: bool, now: int)
    ensures var db2 := db.Put(uid, d);
      var db3 := CheckAndAwardBadges(db2, uid, "streak", streak, Some(CategoryName(category)), now);
      (if full then CheckAndAwardBadges(db3, uid, "perfect_score", 1, Some(CategoryName(category)), now) else db3)
        == db.Put(uid, QuizAwards(d, ReadBadges(db.catalog), category, streak, full, now))
  {
    var view := ReadBadges(db.catalog);
    AwardServiceIsAward(db.Put(uid, d), uid, "streak", streak, Some(CategoryName(category)), now);
    var d3 := Award(d, view, "streak", streak, Some(CategoryName(category)), now);
    PutPut(db, uid, d, d3);
    if full {
      AwardServiceIsAward(db.Put(uid, d3), uid, "perfect_score", 1, Some(CategoryName(category)), now);
      PutPut(db, uid, d3, Award(d3, view, "perfect_score", 1, Some(CategoryName(category)), now));
    }
  }

  /** The report of a successful submission: the number of positions answered correctly,
      five coins for each, and the score they give. */
  lemma QuizReportIsGrade(db: Db, uid: Uid, category: Category, questions: seq<Question>, answers: seq<int>,
                          now: int, midnight: int, user: Option<AuthUser>, pick: nat)
    requires pick < MotivationCount && |answers| <= |questions|
    ensures var out := SubmitQuizResult(db, uid, category, questions, answers, now, midnight, user, pick).1;
      var c := |CorrectPositions(questions, answers)|;
      out.Ok? ==> out.value == QuizReport(Score(c, |questions|), CoinsPerCorrect * c, c)
  {
    CountCorrectIsCorrectPositions(questions, answers);
  }

  /** What a submission writes to the account document: the account above, badges
      aside, which only grow. */
  lemma QuizEffect(d: Docs, uid: Uid, created: bool, category: Category, questions: seq<Question>, answers: seq<int>,
                   now: int, midnight: int, pick: nat, view: seq<Badge>)
    requires pick < MotivationCount && |answers| <= |questions|
    ensures var r := Quiz(d, uid, created, category, questions, answers, now, midnight, pick, view);
      && r.account == QuizAccount(d.account, category, questions, answers, now, midnight, d.results).(badges := r.account.badges)
      && d.account.badges <= r.account.badges
  {
    var a := d.account;
    var s := NextStreak(a.lastQuizDates.Get(category), now, a.quizStreaks.Get(category));
    var d1 := if s.penalize then Penalize(d, MissedQuiz, a.quizStreaks.Get(category) * QuizPenaltyRate, pick, now) else d;
    assert d1.account == a.(coins := d1.account.coins) && d1.results == d.results;
  }

  /** What a submission adds to the sub-collections: the penalty entry when the category
      streak broke, the welcome entry for documents the quiz path created, one quiz
      entry, and one stored result. */
  lemma QuizRecords(d: Docs, uid: Uid, created: bool, category: Category, questions: seq<Question>, answers: seq<int>,
                    now: int, midnight: int, pick: nat, view: seq<Badge>)
    requires pick < MotivationCount && |answers| <= |questions|
    ensures var a := d.account;
      var s := NextStreak(a.lastQuizDates.Get(category), now, a.quizStreaks.Get(category));
      var r := Quiz(d, uid, created, category, questions, answers, now, midnight, pick, view);
      && r.ledger == d.ledger + PenaltyPart(s.penalize, MissedQuiz, a.quizStreaks.Get(category) * QuizPenaltyRate, a.coins, now)
                     + (if created then [WelcomeEntry(now)] else [])
                     + [QuizEntry(category, CountCorrect(questions, answers), |questions|, now)]
      && r.results == d.results + [QuizRecord(uid, category, questions, answers, now)]
  {
  }

  /** A submission widens the gap between balance and ledger sum by exactly the penalty
      debit, whatever the gap was before; for documents the quiz path just created the
      welcome entry records the onboarding credit the account starts from, closing that
      much of the gap. So documents that agreed before agree after exactly when no coins
      were debited. */
  lemma QuizDrift(d: Docs, uid: Uid, created: bool, category: Category, questions: seq<Question>, answers: seq<int>,
                  now: int, midnight: int, pick: nat, view: seq<Badge>)
    requires pick < MotivationCount && |answers| <= |questions|
    requires Counts(d.account)
    ensures var a := d.account;
      var s := NextStreak(a.lastQuizDates.Get(category), now, a.quizStreaks.Get(category));
      var r := Quiz(d, uid, created, category, questions, answers, now, midnight, pick, view);
      var debit := PenaltyDebited(s.penalize, a.quizStreaks.Get(category) * QuizPenaltyRate, a.coins);
      && Counts(r.account)
      && r.account.coins - Sum(r.ledger) == a.coins - Sum(d.ledger) + debit - (if created then OnboardingCredit else 0)
      && (a.coins == Sum(d.ledger) + (if created then OnboardingCredit else 0) ==> (Agrees(r) <==> debit == 0))
  {
    var a := d.account;
    var s := NextStreak(a.lastQuizDates.Get(category), now, a.quizStreaks.Get(category));
    var amount := a.quizStreaks.Get(category) * QuizPenaltyRate;
    QuizEffect(d, uid, created, category, questions, answers, now, midnight, pick, view);
    QuizRecords(d, uid, created, category, questions, answers, now, midnight, pick, view);
    var pre1 := d.ledger + PenaltyPart(s.penalize, MissedQuiz, amount, a.coins, now);
    var pre2 := pre1 + (if created then [WelcomeEntry(now)] else []);
    SumAppend(pre2, QuizEntry(category, CountCorrect(questions, answers), |questions|, now));
    if created {
      SumAppend(pre1, WelcomeEntry(now));
    } else {
      assert pre2 == pre1;
    }
    if s.penalize && amount > 0 {
      SumAppend(d.ledger, PenaltyEntry(MissedQuiz, PenaltyDebit(amount, a.coins), now));
    } else {
      assert pre1 == d.ledger;
    }
  }

  /** Store-wide: a submission keeps balances and streaks non-negative, and keeps every
      balance equal to its ledger sum exactly when no penalty coins were taken. */
  lemma QuizBalanceDrift(db: Db, uid: Uid, category: Category, questions: seq<Question>, answers: seq<int>,
                         now: int, midnight: int, user: Option<AuthUser>, pick: nat)
    requires pick < MotivationCount && |answers| <= |questions|
    requires NonNegative(db) && (uid in db.users || user.Some?)
    ensures var a := if uid in db.users then db.users[uid].account else BootstrapAccount(user.value, now);
      var s := NextStreak(a.lastQuizDates.Get(category), now, a.quizStreaks.Get(category));
      var r := SubmitQuizResult(db, uid, category, questions, answers, now, midnight, user, pick).0;
      && NonNegative(r)
      && (Balanced(db) ==> (Balanced(r) <==> PenaltyDebited(s.penalize, a.quizStreaks.Get(category) * QuizPenaltyRate, a.coins) == 0))
  {
    var created := uid !in db.users;
    var d := if created then Docs(BootstrapAccount(user.value, now), [], [], []) else db.users[uid];
    assert Counts(d.account);
    if Balanced(db) {
      assert Sum(d.ledger) + (if created then OnboardingCredit else 0) == d.account.coins;
    }
    QuizDrift(d, uid, created, category, questions, answers, now, midnight, pick, ReadBadges(db.catalog));
    PutInvariants(db, uid, Quiz(d, uid, created, category, questions, answers, now, midnight, pick, ReadBadges(db.catalog)));
  }

  /** The quiz path's account fallback: an unknown user with a signed-in session gets the
      onboarding account, with the session's uid and a display name defaulting to "User",
      and the welcome credit in the same batch as the quiz; the new balance is 500 plus
      the quiz coins, it equals the ledger, and nothing is penalised. */
  lemma QuizBootstrap(db: Db, uid: Uid, category: Category, questions: seq<Question>, answers: seq<int>,
                      now: int, midnight: int, user: AuthUser, pick: nat)
    requires pick < MotivationCount
    requires |answers| <= |questions| && uid !in db.users
    ensures var correct := CountCorrect(questions, answers);
      var r := SubmitQuizResult(db, uid, category, questions, answers, now, midnight, Some(user), pick).0;
      && uid in r.users
      && r.users[uid].account.uid == user.uid
      && r.users[uid].account.displayName == (if user.displayName == "" then "User" else user.displayName)
      && r.users[uid].account.coins == OnboardingCredit + CoinsPerCorrect * correct
      && r.users[uid].account.quizStreaks.Get(category) == 1
      && r.users[uid].ledger == [WelcomeEntry(now), QuizEntry(category, correct, |questions|, now)]
      && Agrees(r.users[uid])
  {
    var d := Docs(BootstrapAccount(user, now), [], [], []);
    QuizEffect(d, uid, true, category, questions, answers, now, midnight, pick, ReadBadges(db.catalog));
    QuizRecords(d, uid, true, category, questions, answers, now, midnight, pick, ReadBadges(db.catalog));
    QuizDrift(d, uid, true, category, questions, answers, now, midnight, pick, ReadBadges(db.catalog));
  }

  /** A perfect day is counted exactly when the submission answers every question of a
      non-empty quiz correctly and every category already had a 100-score result stored
      since midnight; the submission itself is not among the results consulted. */
  lemma QuizPerfectDay(a: Account, category: Category, questions: seq<Question>, answers: seq<int>,
                       now: int, midnight: int, prior: seq<QuizResult>)
    requires |answers| <= |questions|
    ensures var r := QuizAccount(a, category, questions, answers, now, midnight, prior);
      && (r.perfectDays == a.perfectDays + 1 <==>
            (|questions| > 0 && |CorrectPositions(questions, answers)| == |questions| && AllCategoriesPerfectSince(prior, midnight)))
      && (r.perfectDays == a.perfectDays || r.perfectDays == a.perfectDays + 1)
  {
    CountCorrectIsCorrectPositions(questions, answers);
    ScoreHundredIffAllCorrect(CountCorrect(questions, answers), |questions|);
  }

  /** A perfect score in the last category still missing today does not count a perfect
      day, because the test reads the results stored before the submission. */
  lemma LastCategoryDoesNotCompleteDay(a: Account, category: Category, questions: seq<Question>, answers: seq<int>,
                                       now: int, midnight: int, prior: seq<QuizResult>)
    requires |answers| <= |questions|
    requires !HasPerfectSince(prior, category, midnight)
    ensures QuizAccount(a, category, questions, answers, now, midnight, prior).perfectDays == a.perfectDays
  {
    assert category in Categories by { match category { case Math => case Aptitude => case Grammar => case Programming => } }
  }

  /** A second quiz in a category within 24 hours of the last one is accepted and restarts
      that category's streak at 1 without a penalty. */
  lemma SameDayQuizRestartsStreak(a: Account, category: Category, questions: seq<Question>, answers: seq<int>,
                                  now: int, midnight: int, prior: seq<QuizResult>)
    requires |answers| <= |questions|
    requires a.lastQuizDates.Get(category).Some?
    requires a.lastQuizDates.Get(category).value <= now < a.lastQuizDates.Get(category).value + MillisPerDay
    ensures !NextStreak(a.lastQuizDates.Get(category), now, a.quizStreaks.Get(category)).penalize
    ensures QuizAccount(a, category, questions, answers, now, midnight, prior).quizStreaks.Get(category) == 1
  {
  }

  /** Only the submitted category's streak, last date and lifetime count move. */
  lemma QuizTouchesOneCategory(a: Account, category: Category, other: Category, questions: seq<Question>, answers: seq<int>,
                               now: int, midnight: int, prior: seq<QuizResult>)
    requires |answers| <= |questions| && other != category
    ensures var r := QuizAccount(a, category, questions, answers, now, midnight, prior);
      && r.quizStreaks.Get(other) == a.quizStreaks.Get(other)
      && r.lastQuizDates.Get(other) == a.lastQuizDates.Get(other)
      && r.totalQuizCorrect.Get(other) == a.totalQuizCorrect.Get(other)
      && r.lastQuizDates.Get(category) == Some(now)
      && r.totalQuizCorrect.Get(category) == a.totalQuizCorrect.Get(category) + |CorrectPositions(questions, answers)|
  {
    CountCorrectIsCorrectPositions(questions, answers);
  }

  // ---------------------------------------------------------------- daily quiz coins

  /** The separate quiz-coins credit: nothing for a non-positive amount, an error for an
      unknown user, otherwise the balance as read plus the amount and one ledger entry. */
  function UpdateUserCoinsAfterQuiz(db: Db, uid: Uid, coins: int, now: int): (r: (Db, Outcome))
    ensures coins <= 0 ==> r == (db, Pass)
    ensures coins > 0 && uid !in db.users ==> r == (db, Fail(UserNotFound))
    ensures coins > 0 && uid in db.users ==>
      && r.1 == Pass && OthersUnchanged(db, r.0, uid) && uid in r.0.users
      && r.0.users[uid].account == db.users[uid].account.(coins := db.users[uid].account.coins + coins)
      && r.0.users[uid].ledger == db.users[uid].ledger + [DailyQuizEntry(coins, now)]
      && r.0.users[uid].notices == db.users[uid].notices && r.0.users[uid].results == db.users[uid].results
  {
    if coins <= 0 then (db, Pass)
    else if uid !in db.users then (db, Fail(UserNotFound))
    else
      var d := db.users[uid];
      (db.Put(uid, d.(account := d.account.(coins := d.account.coins + coins),
                      ledger := d.ledger + [DailyQuizEntry(coins, now)])), Pass)
  }

  /** A credit moves the balance and the ledger sum by the same amount, so each of the
      store's invariants is kept. */
  lemma UpdateCoinsKeepsInvariants(db: Db, uid: Uid, coins: int, now: int)
    ensures var r := UpdateUserCoinsAfterQuiz(db, uid, coins, now).0;
      && (Balanced(db) ==> Balanced(r))
      && (NonNegative(db) ==> NonNegative(r))
      && (coins > 0 && uid in db.users ==> r.users[uid].account.coins == db.users[uid].account.coins + coins)
  {
    if coins > 0 && uid in db.users {
      var d := db.users[uid];
      SumAppend(d.ledger, DailyQuizEntry(coins, now));
      PutInvariants(db, uid, d.(account := d.account.(coins := d.account.coins + coins),
                                ledger := d.ledger + [DailyQuizEntry(coins, now)]));
    }
  }

  // ---------------------------------------------------------------- purchase

  /** The catalog document with this id, the first one when ids repeat. */
  function FindBadge(catalog: seq<Badge>, id: string): (r: Option<Badge>)
    ensures r.Some? <==> exists b :: b in catalog && b.id == id
    ensures r.Some? ==> r.value in catalog && r.value.id == id
  {
    if catalog == [] then None
    else if catalog[0].id == id then Some(catalog[0])
    else FindBadge(catalog[1..], id)
  }

  /** A purchase on one user's documents, with the checks in the order the service makes
      them: a negative balance, a badge without a positive price, too few coins, a badge
      already owned. */
  function Purchase(d: Docs, badge: Badge, badgeId: string, now: int): Result<Docs>
  {
    var a := d.account;
    if a.coins < 0 then Err(InvalidCoinBalance)
    else if badge.price.None? || badge.price.value <= 0 then Err(NotPurchasable)
    else if a.coins < badge.price.value then Err(InsufficientCoins)
    else if badgeId in a.badges then Err(AlreadyOwned)
    else
      var price := badge.price.value;
      Ok(d.(account := a.(coins := a.coins - price, badges := ArrayUnion(a.badges, [badgeId])),
            ledger := d.ledger + [BadgeEntry(price, badge.name, now)]))
  }

  /** The purchase service: an unknown user, then an unknown badge, are errors; a failed
      purchase writes nothing. */
  function PurchaseBadge(db: Db, uid: Uid, badgeId: string, now: int): (r: (Db, Outcome))
    ensures uid !in db.users ==> r == (db, Fail(UserNotFound))
    ensures uid in db.users && FindBadge(db.catalog, badgeId).None? ==> r == (db, Fail(BadgeNotFound))
    ensures r.1.Fail? ==> r.0 == db
  {
    if uid !in db.users then (db, Fail(UserNotFound))
    else
      match FindBadge(db.catalog, badgeId)
      case None => (db, Fail(BadgeNotFound))
      case Some(badge) =>
        match Purchase(db.users[uid], badge, badgeId, now)
        case Err(e) => (db, Fail(e))
        case Ok(d) => (db.Put(uid, d), Pass)
  }

  /** A purchase succeeds exactly when the balance is not negative, the badge has a
      positive price the balance covers, and the badge is not yet owned. */
  lemma PurchaseSucceedsIff(d: Docs, badge: Badge, badgeId: string, now: int)
    ensures Purchase(d, badge, badgeId, now).Ok? <==>
      && d.account.coins >= 0
      && badge.price.Some? && badge.price.value > 0
      && d.account.coins >= badge.price.value
      && badgeId !in d.account.badges
  {
  }

  /** A successful purchase debits exactly the price, appends the badge id to the owned
      list, records one debit entry, and keeps balance, counts and ledger in agreement. */
  lemma PurchaseEffect(d: Docs, badge: Badge, badgeId: string, now: int)
    requires Purchase(d, badge, badgeId, now).Ok?
    ensures var r := Purchase(d, badge, badgeId, now).value;
      var price := badge.price.value;
      && r.account == d.account.(coins := d.account.coins - price, badges := d.account.badges + [badgeId])
      && r.account.coins >= 0
      && r.ledger == d.ledger + [BadgeEntry(price, badge.name, now)]
      && r.notices == d.notices && r.results == d.results
      && (Agrees(d) ==> Agrees(r))
      && (Counts(d.account) ==> Counts(r.account))
  {
    var a := d.account;
    assert ArrayUnion(a.badges, [badgeId]) == ArrayUnion(a.badges + [badgeId], []);
    SumAppend(d.ledger, BadgeEntry(badge.price.value, badge.name, now));
  }

  /** The purchase service keeps each of the store's invariants. */
  lemma PurchaseKeepsInvariants(db: Db, uid: Uid, badgeId: string, now: int)
    ensures Balanced(db) ==> Balanced(PurchaseBadge(db, uid, badgeId, now).0)
    ensures NonNegative(db) ==> NonNegative(PurchaseBadge(db, uid, badgeId, now).0)
  {
    if uid in db.users && FindBadge(db.catalog, badgeId).Some? {
      var badge := FindBadge(db.catalog, badgeId).value;
      var p := Purchase(db.users[uid], badge, badgeId, now);
      if p.Ok? {
        PurchaseEffect(db.users[uid], badge, badgeId, now);
        PutInvariants(db, uid, p.value);
      }
    }
  }

  /** The price boundary: a balance one coin short fails with insufficient coins, the
      exact price succeeds and leaves a zero balance. */
  lemma PurchasePriceBoundary(d: Docs, badge: Badge, badgeId: string, now: int)
    requires badge.price == Some(1000) && badgeId !in d.account.badges
    ensures d.account.coins == 999 ==> Purchase(d, badge, badgeId, now) == Err(InsufficientCoins)
    ensures d.account.coins == 1000 ==> Purchase(d, badge, badgeId, now).Ok?
                                        && Purchase(d, badge, badgeId, now).value.account.coins == 0
  {
  }

  // ---------------------------------------------------------------- leaderboard

  /** The first row of the stored snapshot with this uid. */
  function FindRanked(prev: seq<Ranked>, uid: Uid): (r: Option<Ranked>)
    ensures r.Some? ==> r.value in prev && r.value.user.uid == uid
    ensures r.Some? ==> exists k :: 0 <= k < |prev| && prev[k] == r.value && forall j :: 0 <= j < k ==> prev[j].user.uid != uid
    ensures r.None? ==> forall i :: 0 <= i < |prev| ==> prev[i].user.uid != uid
  {
    if prev == [] then None
    else if prev[0].user.uid == uid then Some(prev[0])
    else FindRanked(prev[1..], uid)
  }

  /** The rows as stored: position i carries rank i + 1. */
  function RankAll(current: seq<Account>): (r: seq<Ranked>)
    ensures |r| == |current|
    ensures forall i :: 0 <= i < |r| ==> r[i] == Ranked(current[i], i + 1)
  {
    if current == [] then []
    else RankAll(current[..|current| - 1]) + [Ranked(current[|current| - 1], |current|)]
  }

  /** The rank notifications for the first `n` rows of the current leaderboard, in row
      order: one for every row whose user appears in the snapshot with another rank. */
  function NotifyRanks(users: map<Uid, Docs>, prev: seq<Ranked>, current: seq<Account>, n: nat, now: int): (r: map<Uid, Docs>)
    requires n <= |current|
    ensures r.Keys == users.Keys
  {
    if n == 0 then users
    else
      var m := NotifyRanks(users, prev, current, n - 1, now);
      var u := current[n - 1].uid;
      var p := FindRanked(prev, u);
      if p.Some? && p.value.rank != n && u in m then
        m[u := m[u].(notices := m[u].notices + [RankNotice(p.value.rank, n, now)])]
      else m
  }

  /** The leaderboard check: the deduplicated current rows are compared with the stored
      snapshot, if any, and then stored as the new snapshot. */
  function CheckLeaderboardChanges(db: Db, rows: seq<Account>, now: int): Db
  {
    var current := GetLeaderboard(rows);
    var users := if db.snapshot.Some? then NotifyRanks(db.users, db.snapshot.value, current, |current|, now) else db.users;
    db.(users := users, snapshot := Some(RankAll(current)))
  }

  /** The notification a user gets from the leaderboard check: one, when the user is on
      the current board at position i and in the snapshot with a rank other than i + 1. */
  function RankMove(prev: seq<Ranked>, current: seq<Account>, uid: Uid, now: int): seq<Notification>
  {
    var i := FindIndex(current, uid);
    var p := FindRanked(prev, uid);
    if i >= 0 && p.Some? && p.value.rank != i + 1 then [RankNotice(p.value.rank, i + 1, now)] else []
  }

  lemma {:induction false} NotifyRanksSpec(users: map<Uid, Docs>, prev: seq<Ranked>, current: seq<Account>, n: nat, now: int, uid: Uid)
    requires n <= |current| && UniqueUids(current) && uid in users
    ensures var k := FindIndex(current, uid);
      NotifyRanks(users, prev, current, n, now)[uid] ==
        users[uid].(notices := users[uid].notices + (if k < n then RankMove(prev, current, uid, now) else []))
  {
    var k := FindIndex(current, uid);
    if n > 0 {
      NotifyRanksSpec(users, prev, current, n - 1, now, uid);
      if current[n - 1].uid == uid {
        assert k == n - 1;
      } else {
        assert k != n - 1;
      }
    }
  }

  /** Each user on the board receives exactly its rank-move notification; everything
      else is unchanged, and the new snapshot ranks the current rows 1, 2, 3, ... */
  lemma LeaderboardNotifies(db: Db, rows: seq<Account>, now: int, uid: Uid)
    requires uid in db.users
    ensures var r := CheckLeaderboardChanges(db, rows, now);
      var moves := if db.snapshot.Some? then RankMove(db.snapshot.value, GetLeaderboard(rows), uid, now) else [];
      && r.users.Keys == db.users.Keys
      && r.users[uid] == db.users[uid].(notices := db.users[uid].notices + moves)
      && r.catalog == db.catalog
      && r.snapshot == Some(RankAll(GetLeaderboard(rows)))
  {
    var current := GetLeaderboard(rows);
    if db.snapshot.Some? {
      NotifyRanksSpec(db.users, db.snapshot.value, current, |current|, now, uid);
    }
  }

  /** The leaderboard check touches only notifications and the snapshot, so each of the
      store's invariants is kept. */
  lemma LeaderboardKeepsInvariants(db: Db, rows: seq<Account>, now: int)
    ensures Balanced(db) ==> Balanced(CheckLeaderboardChanges(db, rows, now))
    ensures NonNegative(db) ==> NonNegative(CheckLeaderboardChanges(db, rows, now))
  {
    var r := CheckLeaderboardChanges(db, rows, now);
    forall u | u in r.users ensures r.users[u].account == db.users[u].account && r.users[u].ledger == db.users[u].ledger {
      LeaderboardNotifies(db, rows, now, u);
    }
  }
}
