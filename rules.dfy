/** The pure rules of the rewards engine: day difference and streaks, bonus and
    penalty amounts, quiz grading, badge eligibility, the owned-badge union and
    the leaderboard de-duplication. */
module Rules {
  import opened Types

  const MillisPerDay: int := 86400000
  const OnboardingCredit: int := 500
  const BaseBonus: int := 100
  const BonusPerStreakDay: int := 5
  const CoinsPerCorrect: int := 5
  const LoginPenaltyRate: int := 5
  const QuizPenaltyRate: int := 2
  /** Size of the pool of motivational messages a penalty notification picks from. */
  const MotivationCount: nat := 5

  // ---------------------------------------------------------------- days and streaks

  /** Whole 24-hour periods elapsed, rounded down (negative when `last` is in the future). */
  function DaysDiff(now: int, last: int): (d: int)
    ensures d * MillisPerDay <= now - last < (d + 1) * MillisPerDay
  {
    (now - last) / MillisPerDay
  }

  datatype StreakStep = StreakStep(newStreak: int, penalize: bool)

  /** The streak rule shared by login and quiz streaks. It continues only when the last
      activity lies between 24 and 48 hours back; 48 hours or more resets it with a
      penalty; anything less than 24 hours (the same day, or a clock running back)
      resets it silently. */
  function NextStreak(last: Option<int>, now: int, streak: int): (s: StreakStep)
    ensures last.None? ==> s == StreakStep(1, false)
    ensures last.Some? && MillisPerDay <= now - last.value < 2 * MillisPerDay ==> s == StreakStep(streak + 1, false)
    ensures last.Some? && 2 * MillisPerDay <= now - last.value ==> s == StreakStep(1, true)
    ensures last.Some? && now - last.value < MillisPerDay ==> s == StreakStep(1, false)
  {
    if last.None? then StreakStep(1, false)
    else
      var d := DaysDiff(now, last.value);
      if d == 1 then StreakStep(streak + 1, false)
      else if d > 1 then StreakStep(1, true)
      else StreakStep(1, false)
  }

  /** Day 1 of a streak pays 100, each further day 5 more. */
  function BonusAmount(streak: int): (r: int)
    ensures streak >= 1 ==> r >= BaseBonus
    ensures streak >= 1 ==> r - BaseBonus == (streak - 1) * BonusPerStreakDay
  {
    BaseBonus + (streak - 1) * BonusPerStreakDay
  }

  /** The penalty debit: the requested amount, capped at the balance. */
  function PenaltyDebit(amount: int, coins: int): (d: int)
    ensures d <= amount && d <= coins
    ensures d == amount || d == coins
  {
    if amount < coins then amount else coins
  }

  function Max(a: int, b: int): int { if a < b then b else a }

  // ---------------------------------------------------------------- quiz grading

  /** Number of answers equal to the correct answer of the question at the same index. */
  function CountCorrect(questions: seq<Question>, answers: seq<int>): (n: nat)
    requires |answers| <= |questions|
    ensures n <= |answers|
  {
    if answers == [] then 0
    else
      var k := |answers| - 1;
      CountCorrect(questions, answers[..k]) + (if answers[k] == questions[k].correctAnswer then 1 else 0)
  }

  /** Reference definition: the positions answered correctly. */
  ghost function CorrectPositions(questions: seq<Question>, answers: seq<int>): set<nat>
    requires |answers| <= |questions|
  {
    set i: nat | i < |answers| && answers[i] == questions[i].correctAnswer
  }

  lemma {:induction false} CountCorrectIsCorrectPositions(questions: seq<Question>, answers: seq<int>)
    requires |answers| <= |questions|
    ensures CountCorrect(questions, answers) == |CorrectPositions(questions, answers)|
  {
    if answers != [] {
      var k := |answers| - 1;
      CountCorrectIsCorrectPositions(questions, answers[..k]);
      var before := CorrectPositions(questions, answers[..k]);
      var now := CorrectPositions(questions, answers);
      if answers[k] == questions[k].correctAnswer {
        assert now == before + {k};
        assert k !in before;
      } else {
        assert now == before;
      }
    }
  }

  /** The "unanswered" sentinel the quiz screen sends for a skipped question. */
  const Unanswered: int := -1

  /** A quiz left entirely unanswered counts no correct answer. */
  lemma {:induction false} SkippedQuizCountsNothing(questions: seq<Question>, answers: seq<int>)
    requires |answers| <= |questions|
    requires forall i :: 0 <= i < |answers| ==> answers[i] == Unanswered && questions[i].correctAnswer >= 0
    ensures CountCorrect(questions, answers) == 0
  {
    if answers != [] {
      SkippedQuizCountsNothing(questions, answers[..|answers| - 1]);
    }
  }

  /** The float score `(correct / total) * 100`; None stands for the NaN of an empty quiz. */
  function Score(correct: nat, total: nat): (r: Option<real>)
    ensures r.None? <==> total == 0
    ensures r.Some? ==> r.value * total as real == correct as real * 100.0
  {
    if total == 0 then None else Some((correct as real / total as real) * 100.0)
  }

  /** `score === 100` holds exactly when every question of a non-empty quiz was answered correctly. */
  lemma {:induction false} ScoreHundredIffAllCorrect(correct: nat, total: nat)
    requires correct <= total
    ensures Score(correct, total) == Some(100.0) <==> total > 0 && correct == total
  {
    if total > 0 {
      var q := correct as real / total as real;
      assert q * total as real == correct as real;
      if q * 100.0 == 100.0 {
        assert q == 1.0;
      }
    }
  }

  datatype Grade = Grade(correctAnswers: nat, totalQuestions: nat, coinsEarned: int)

  /** Grading as the source does it: an answer list longer than the question list makes
      the lookup of a missing question fail before anything is written. */
  function GradeQuiz(questions: seq<Question>, answers: seq<int>): (r: Result<Grade>)
    ensures r.Err? <==> |answers| > |questions|
    ensures r.Err? ==> r.error == AnswerWithoutQuestion
    ensures r.Ok? ==> (&& r.value.totalQuestions == |questions|
                       && r.value.correctAnswers == |CorrectPositions(questions, answers)|
                       && r.value.coinsEarned == CoinsPerCorrect * r.value.correctAnswers)
  {
    if |answers| > |questions| then Err(AnswerWithoutQuestion)
    else
      CountCorrectIsCorrectPositions(questions, answers);
      var c := CountCorrect(questions, answers);
      Ok(Grade(c, |questions|, CoinsPerCorrect * c))
  }

  // ---------------------------------------------------------------- badges

  /** The catalog as the badge list read returns it: a missing name becomes "Unnamed Badge". */
  function ReadBadges(catalog: seq<Badge>): (r: seq<Badge>)
    ensures |r| == |catalog|
    ensures forall i :: 0 <= i < |r| ==>
      r[i] == catalog[i].(name := if catalog[i].name == "" then "Unnamed Badge" else catalog[i].name)
    ensures forall i :: 0 <= i < |r| ==> r[i].name != ""
  {
    if catalog == [] then []
    else
      var b := catalog[0];
      var rest := ReadBadges(catalog[1..]);
      assert forall i :: 1 <= i < |catalog| ==> catalog[i] == catalog[1..][i - 1];
      [b.(name := if b.name == "" then "Unnamed Badge" else b.name)] + rest
  }

  /** An absent or empty category argument is not compared. */
  predicate Given(category: Option<string>)
  {
    category.Some? && category.value != ""
  }

  /** The eligibility test of the award path for one catalog badge. */
  predicate Qualifies(b: Badge, owned: seq<string>, kind: string, value: int, category: Option<string>)
  {
    && b.id != ""
    && b.id !in owned
    && b.requirement.Some?
    && b.requirement.value.kind != ""
    && b.requirement.value.kind == kind
    && (Given(category) ==> b.requirement.value.category == category)
    && value >= b.requirement.value.value
  }

  /** The catalog filtered to the badges that qualify, in catalog order. */
  function Eligible(catalog: seq<Badge>, owned: seq<string>, kind: string, value: int, category: Option<string>): (r: seq<Badge>)
    ensures |r| <= |catalog|
  {
    if catalog == [] then []
    else
      var rest := Eligible(catalog[1..], owned, kind, value, category);
      if Qualifies(catalog[0], owned, kind, value, category) then [catalog[0]] + rest else rest
  }

  /** A badge is eligible exactly when it is in the catalog and qualifies. */
  lemma {:induction false} EligibleMembers(catalog: seq<Badge>, owned: seq<string>, kind: string, value: int, category: Option<string>)
    ensures forall b :: b in Eligible(catalog, owned, kind, value, category) <==> b in catalog && Qualifies(b, owned, kind, value, category)
  {
    if catalog != [] {
      EligibleMembers(catalog[1..], owned, kind, value, category);
      assert forall b :: b in catalog <==> b == catalog[0] || b in catalog[1..];
    }
  }

  /** Nothing is eligible exactly when no catalog badge qualifies. */
  lemma {:induction false} EligibleEmptyIff(catalog: seq<Badge>, owned: seq<string>, kind: string, value: int, category: Option<string>)
    ensures Eligible(catalog, owned, kind, value, category) == [] <==>
      forall i :: 0 <= i < |catalog| ==> !Qualifies(catalog[i], owned, kind, value, category)
  {
    if catalog != [] {
      EligibleEmptyIff(catalog[1..], owned, kind, value, category);
      assert forall i :: 1 <= i < |catalog| ==> catalog[i] == catalog[1..][i - 1];
    }
  }

  /** Filtering one more badge appends it when it qualifies. */
  lemma {:induction false} EligibleSnoc(catalog: seq<Badge>, b: Badge, owned: seq<string>, kind: string, value: int, category: Option<string>)
    ensures Eligible(catalog + [b], owned, kind, value, category) ==
      Eligible(catalog, owned, kind, value, category) + (if Qualifies(b, owned, kind, value, category) then [b] else [])
  {
    if catalog != [] {
      assert (catalog + [b])[1..] == catalog[1..] + [b];
      EligibleSnoc(catalog[1..], b, owned, kind, value, category);
    }
  }

  function Ids(bs: seq<Badge>): (r: seq<string>)
    ensures |r| == |bs|
    ensures forall i :: 0 <= i < |bs| ==> r[i] == bs[i].id
  {
    if bs == [] then [] else [bs[0].id] + Ids(bs[1..])
  }

  predicate NoDuplicates<T(==)>(s: seq<T>)
  {
    forall i, j :: 0 <= i < j < |s| ==> s[i] != s[j]
  }

  /** The store's array-union update: each element not yet present is appended, in order. */
  function ArrayUnion(a: seq<string>, xs: seq<string>): (r: seq<string>)
    ensures a <= r
    ensures forall x :: x in r <==> x in a || x in xs
    ensures NoDuplicates(a) ==> NoDuplicates(r)
    decreases |xs|
  {
    if xs == [] then a
    else ArrayUnion(if xs[0] in a then a else a + [xs[0]], xs[1..])
  }

  // ---------------------------------------------------------------- leaderboard

  /** Index of the first row with this uid, or -1. */
  function FindIndex(s: seq<Account>, uid: Uid): (k: int)
    ensures -1 <= k < |s|
    ensures k >= 0 ==> s[k].uid == uid && forall j :: 0 <= j < k ==> s[j].uid != uid
    ensures k == -1 ==> forall j :: 0 <= j < |s| ==> s[j].uid != uid
  {
    if s == [] then -1
    else if s[0].uid == uid then 0
    else
      var k := FindIndex(s[1..], uid);
      if k == -1 then -1 else k + 1
  }

  /** The rows from index `i` on that are the first occurrence of their uid. */
  function KeepFirstFrom(s: seq<Account>, i: nat): seq<Account>
    requires i <= |s|
    decreases |s| - i
  {
    if i == |s| then []
    else (if FindIndex(s, s[i].uid) == i then [s[i]] else []) + KeepFirstFrom(s, i + 1)
  }

  /** Every row the filter keeps is the first occurrence of its uid at or after `i`. */
  lemma {:induction false} KeepFirstFromKeepsFirsts(s: seq<Account>, i: nat)
    requires i <= |s|
    ensures forall k :: 0 <= k < |KeepFirstFrom(s, i)| ==>
      i <= FindIndex(s, KeepFirstFrom(s, i)[k].uid) && KeepFirstFrom(s, i)[k] == s[FindIndex(s, KeepFirstFrom(s, i)[k].uid)]
    decreases |s| - i
  {
    if i < |s| {
      KeepFirstFromKeepsFirsts(s, i + 1);
      var rest := KeepFirstFrom(s, i + 1);
      var r := KeepFirstFrom(s, i);
      if FindIndex(s, s[i].uid) == i {
        assert r == [s[i]] + rest;
        forall k | 0 <= k < |r|
          ensures i <= FindIndex(s, r[k].uid) && r[k] == s[FindIndex(s, r[k].uid)]
        {
          if k > 0 {
            assert r[k] == rest[k - 1];
            assert i + 1 <= FindIndex(s, rest[k - 1].uid) && rest[k - 1] == s[FindIndex(s, rest[k - 1].uid)];
          } else {
            assert r[k] == s[i];
          }
        }
      } else {
        assert r == rest;
      }
    }
  }

  /** The kept rows appear in the order of their first occurrences. */
  lemma {:induction false} KeepFirstFromOrdered(s: seq<Account>, i: nat)
    requires i <= |s|
    ensures forall k1, k2 :: 0 <= k1 < k2 < |KeepFirstFrom(s, i)| ==>
      FindIndex(s, KeepFirstFrom(s, i)[k1].uid) < FindIndex(s, KeepFirstFrom(s, i)[k2].uid)
    decreases |s| - i
  {
    if i < |s| {
      KeepFirstFromOrdered(s, i + 1);
      KeepFirstFromKeepsFirsts(s, i + 1);
      var rest := KeepFirstFrom(s, i + 1);
      var r := KeepFirstFrom(s, i);
      if FindIndex(s, s[i].uid) == i {
        assert r == [s[i]] + rest;
        forall k1, k2 | 0 <= k1 < k2 < |r|
          ensures FindIndex(s, r[k1].uid) < FindIndex(s, r[k2].uid)
        {
          assert r[k2] == rest[k2 - 1];
          assert i + 1 <= FindIndex(s, rest[k2 - 1].uid);
          if k1 > 0 {
            assert r[k1] == rest[k1 - 1];
            assert FindIndex(s, rest[k1 - 1].uid) < FindIndex(s, rest[k2 - 1].uid);
          } else {
            assert r[k1] == s[i];
          }
        }
      } else {
        assert r == rest;
      }
    }
  }

  /** No first occurrence at or after `i` is dropped. */
  lemma {:induction false} KeepFirstFromComplete(s: seq<Account>, i: nat)
    requires i <= |s|
    ensures forall j :: i <= j < |s| && FindIndex(s, s[j].uid) == j ==> s[j] in KeepFirstFrom(s, i)
    decreases |s| - i
  {
    if i < |s| {
      KeepFirstFromComplete(s, i + 1);
      var rest := KeepFirstFrom(s, i + 1);
      var r := KeepFirstFrom(s, i);
      if FindIndex(s, s[i].uid) == i {
        assert r == [s[i]] + rest;
      } else {
        assert r == rest;
      }
    }
  }

  predicate UniqueUids(s: seq<Account>)
  {
    forall i, j :: 0 <= i < j < |s| ==> s[i].uid != s[j].uid
  }

  /** The leaderboard read: the query rows with repeated uids dropped, first occurrence kept,
      order preserved. */
  function GetLeaderboard(rows: seq<Account>): (r: seq<Account>)
    ensures UniqueUids(r)
    ensures forall k :: 0 <= k < |r| ==> 0 <= FindIndex(rows, r[k].uid) && r[k] == rows[FindIndex(rows, r[k].uid)]
    ensures forall k1, k2 :: 0 <= k1 < k2 < |r| ==> FindIndex(rows, r[k1].uid) < FindIndex(rows, r[k2].uid)
    ensures forall j :: 0 <= j < |rows| ==> rows[FindIndex(rows, rows[j].uid)] in r
  {
    var r := KeepFirstFrom(rows, 0);
    KeepFirstFromKeepsFirsts(rows, 0);
    KeepFirstFromOrdered(rows, 0);
    KeepFirstFromComplete(rows, 0);
    forall j | 0 <= j < |rows|
      ensures rows[FindIndex(rows, rows[j].uid)] in r
    {
      var f := FindIndex(rows, rows[j].uid);
      assert FindIndex(rows, rows[f].uid) == f;
    }
    r
  }
}
