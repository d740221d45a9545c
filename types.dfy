/** The records the rewards engine stores: accounts, ledger entries,
    notifications, quiz results, catalog badges and leaderboard rows. */
module Types {

  type Uid = string

  datatype Option<T> = None | Some(value: T)

  /** The four quiz categories. */
  datatype Category = Math | Aptitude | Grammar | Programming

  const Categories: seq<Category> := [Math, Aptitude, Grammar, Programming]

  /** The key under which a category is stored and matched against badge requirements. */
  function CategoryName(c: Category): string
  {
    match c
    case Math => "math"
    case Aptitude => "aptitude"
    case Grammar => "grammar"
    case Programming => "programming"
  }

  /** An object with one field per quiz category (quizStreaks, lastQuizDates, totalQuizCorrect). */
  datatype PerCategory<T> = PerCategory(math: T, aptitude: T, grammar: T, programming: T)
  {
    function Get(c: Category): T
    {
      match c
      case Math => math
      case Aptitude => aptitude
      case Grammar => grammar
      case Programming => programming
    }

    /** Update of the single field `<map>.<category>`; the other three keep their values. */
    function Set(c: Category, v: T): (r: PerCategory<T>)
      ensures r.Get(c) == v
      ensures forall d :: d != c ==> r.Get(d) == Get(d)
    {
      match c
      case Math => this.(math := v)
      case Aptitude => this.(aptitude := v)
      case Grammar => this.(grammar := v)
      case Programming => this.(programming := v)
    }
  }

  /** The per-user account document. Times are milliseconds on one clock. */
  datatype Account = Account(
    uid: Uid,
    email: string,
    displayName: string,
    coins: int,
    lastBonusClaimed: Option<int>,
    loginStreak: int,
    lastLoginDate: Option<int>,
    quizStreaks: PerCategory<int>,
    lastQuizDates: PerCategory<Option<int>>,
    badges: seq<string>,
    totalQuizCorrect: PerCategory<int>,
    perfectDays: int,
    perfectWeeks: int,
    perfectMonths: int,
    createdAt: int)

  datatype Direction = Credit | Debit

  datatype EntryTag = BonusTag | QuizTag | PenaltyTag | BadgeTag | WelcomeTag

  /** What a ledger entry's description says, without its rendering as text. */
  datatype Memo =
    | WelcomeBonus
    | DailyLoginBonus(streak: int)
    | QuizReward(category: Category, correct: nat, total: nat)
    | DailyQuizReward
    | MissedLoginPenalty
    | MissedQuizPenalty
    | PurchasedBadge(badgeName: string)

  /** One immutable transaction; positive amounts are credits, negative ones debits. */
  datatype Entry = Entry(amount: int, direction: Direction, tag: EntryTag, memo: Memo, timestamp: int)

  datatype NoticeKind = LeaderboardNotice | PenaltyNotice | AchievementNotice | ReminderNotice

  /** What a notification's message says: a motivational line chosen from a fixed pool,
      a badge name, or the old and new leaderboard rank. */
  datatype NoticeBody = Motivation(message: nat) | BadgeEarned(badgeName: string) | RankMoved(from: int, to: int)

  datatype Notification = Notification(kind: NoticeKind, body: NoticeBody, read: bool, timestamp: int)

  datatype Question = Question(id: string, correctAnswer: int)

  /** A stored quiz attempt. `score` is None where the source's float score is NaN. */
  datatype QuizResult = QuizResult(
    userId: Uid,
    category: Category,
    score: Option<real>,
    totalQuestions: nat,
    correctAnswers: nat,
    coinsEarned: int,
    timestamp: int,
    questions: seq<Question>,
    userAnswers: seq<int>)

  /** An earning requirement; `kind` and `category` are free strings as in the store. */
  datatype Requirement = Requirement(kind: string, category: Option<string>, value: int)

  datatype Badge = Badge(id: string, name: string, price: Option<int>, requirement: Option<Requirement>)

  /** One row of the stored leaderboard snapshot. */
  datatype Ranked = Ranked(user: Account, rank: int)

  datatype PenaltyKind = MissedLogin | MissedQuiz

  /** The signed-in user the quiz path falls back on when no account document exists. */
  datatype AuthUser = AuthUser(uid: Uid, email: string, displayName: string)

  datatype Error =
    | UserNotFound
    | BadgeNotFound
    | InvalidCoinBalance
    | NotPurchasable
    | InsufficientCoins
    | AlreadyOwned
    | NotAuthenticated
    | AnswerWithoutQuestion

  datatype Outcome = Pass | Fail(error: Error)

  datatype Result<T> = Ok(value: T) | Err(error: Error)
}
