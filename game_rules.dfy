/** The pure rules of the game controller: the stats a new game starts from,
    the update applied to the stats on each answer, the end-of-game test and
    the number of life indicators shown in the header. */
module GameRules {
  import opened Types
  import opened Constants

  /** Bonus points per level of the streak held before a correct answer. */
  const STREAK_BONUS: int := 10

  /** Stats of a game that has just been started or retried: reachable stats
      (the invariant holds) in which the game is not over. */
  function FreshStats(): (s: GameStats)
    ensures StatsInvariant(s) && !GameIsOver(s)
  {
    GameStats(0, INITIAL_LIVES, 0)
  }

  /** Points earned by `k` correct answers in a row, the first one answered
      while the streak is `t`. */
  function RunPoints(t: int, k: nat): int
  {
    if k == 0 then 0 else RunPoints(t, k - 1) + POINTS_PER_QUESTION + (t + k - 1) * STREAK_BONUS
  }

  /** What holds of every stats value reachable from `FreshStats` by answering:
      the streak is not negative, the score holds at least the points earned by
      the current streak (so is not negative either), and lives never exceed
      the initial number. */
  predicate StatsInvariant(s: GameStats)
  {
    0 <= s.streak && 0 <= s.score && RunPoints(0, s.streak) <= s.score && s.lives <= INITIAL_LIVES
  }

  /** The stats after one answer, `correct` telling whether it was right. */
  function Answered(s: GameStats, correct: bool): (r: GameStats)
    ensures correct ==> r.lives == s.lives && r.streak == s.streak + 1
    ensures correct && 0 <= s.streak ==> r.score - s.score == RunPoints(0, r.streak) - RunPoints(0, s.streak)
    ensures !correct ==> r.lives == s.lives - 1 && r.streak == 0 && r.score == s.score
    ensures StatsInvariant(s) ==> StatsInvariant(r) && s.score <= r.score
  {
    if correct then
      s.(score := s.score + POINTS_PER_QUESTION + s.streak * STREAK_BONUS, streak := s.streak + 1)
    else
      s.(lives := s.lives - 1, streak := 0)
  }

  /** The condition under which "next" ends the game: it holds exactly when
      the header draws no life indicator. */
  predicate GameIsOver(s: GameStats)
    ensures GameIsOver(s) <==> LifeIndicators(s) == 0
  {
    s.lives <= 0
  }

  /** Number of life indicators drawn in the header. */
  function LifeIndicators(s: GameStats): (n: nat)
    ensures 0 <= s.lives ==> n == s.lives
    ensures n == 0 <==> s.lives <= 0
    ensures StatsInvariant(s) ==> n <= INITIAL_LIVES
  {
    if s.lives < 0 then 0 else s.lives
  }

  /** The stats after a sequence of answers, oldest first. */
  function Play(s: GameStats, answers: seq<bool>): GameStats
    decreases |answers|
  {
    if answers == [] then s
    else Answered(Play(s, answers[..|answers| - 1]), answers[|answers| - 1])
  }

  /** Number of wrong answers. */
  function Misses(answers: seq<bool>): nat
    decreases |answers|
  {
    if answers == [] then 0
    else Misses(answers[..|answers| - 1]) + if answers[|answers| - 1] then 0 else 1
  }

  /** Number of correct answers at the end of the sequence, after its last wrong one. */
  function TrailingHits(answers: seq<bool>): nat
    decreases |answers|
  {
    if answers == [] || !answers[|answers| - 1] then 0
    else TrailingHits(answers[..|answers| - 1]) + 1
  }

  /** `k` correct answers. */
  function Hits(k: nat): (h: seq<bool>)
  {
    if k == 0 then [] else Hits(k - 1) + [true]
  }

  lemma {:induction false} HitsAllCorrect(k: nat)
    ensures |Hits(k)| == k && Misses(Hits(k)) == 0
  {
    if k > 0 {
      HitsAllCorrect(k - 1);
      assert Hits(k)[..k - 1] == Hits(k - 1);
    }
  }

  /** A new game starts from zero score and streak and the configured lives. */
  lemma FreshStatsValid()
    ensures FreshStats() == GameStats(0, 3, 0)
    ensures StatsInvariant(FreshStats()) && !GameIsOver(FreshStats())
  {
  }

  /** The two scoring examples: no bonus at streak 0, a bonus of 20 at streak 2. */
  lemma StreakBonusExamples(score: int, lives: int)
    ensures Answered(GameStats(score, lives, 0), true).score == score + 100
    ensures Answered(GameStats(score, lives, 2), true) == GameStats(score + 120, lives, 3)
    ensures Answered(GameStats(score, 1, 5), false) == GameStats(score, 0, 0)
    ensures GameIsOver(Answered(GameStats(score, 1, 5), false))
  {
  }

  /** Each correct answer is worth at least the base points, whatever the run. */
  lemma {:induction false} RunPointsAtLeastBase(t: int, k: nat)
    requires 0 <= t
    ensures RunPoints(t, k) >= POINTS_PER_QUESTION * k
  {
    if k > 0 {
      RunPointsAtLeastBase(t, k - 1);
    }
  }

  /** Consequences of the invariant: score and streak are never negative, and
      the score covers at least the base points of the current streak. */
  lemma InvariantBounds(s: GameStats)
    requires StatsInvariant(s)
    ensures 0 <= s.streak && POINTS_PER_QUESTION * s.streak <= s.score && 0 <= s.score
  {
    RunPointsAtLeastBase(0, s.streak);
  }

  /** Answering any sequence keeps the invariant and never lowers the score. */
  lemma {:induction false} PlayKeepsInvariant(s: GameStats, answers: seq<bool>)
    requires StatsInvariant(s)
    ensures StatsInvariant(Play(s, answers)) && s.score <= Play(s, answers).score
    decreases |answers|
  {
    if answers != [] {
      PlayKeepsInvariant(s, answers[..|answers| - 1]);
    }
  }

  /** Lives drop by exactly the number of wrong answers. */
  lemma {:induction false} LivesCountMisses(s: GameStats, answers: seq<bool>)
    ensures Play(s, answers).lives == s.lives - Misses(answers)
    decreases |answers|
  {
    if answers != [] {
      LivesCountMisses(s, answers[..|answers| - 1]);
    }
  }

  /** The streak is the run of correct answers since the last wrong one, carried
      over from the starting streak when there was no wrong answer. */
  lemma {:induction false} StreakCountsTrailingHits(s: GameStats, answers: seq<bool>)
    ensures Play(s, answers).streak ==
      if Misses(answers) == 0 then s.streak + |answers| else TrailingHits(answers)
    decreases |answers|
  {
    if answers != [] {
      StreakCountsTrailingHits(s, answers[..|answers| - 1]);
    }
  }

  /** `k` correct answers in a row add `RunPoints(streak, k)` to the score, add
      `k` to the streak and leave the lives alone. */
  lemma {:induction false} ScoreOfRun(s: GameStats, k: nat)
    ensures Play(s, Hits(k)) == GameStats(s.score + RunPoints(s.streak, k), s.lives, s.streak + k)
  {
    if k > 0 {
      HitsAllCorrect(k);
      assert Hits(k)[..k - 1] == Hits(k - 1);
      ScoreOfRun(s, k - 1);
    }
  }

  /** Three correct answers in a fresh game: 100 + 110 + 120 points. */
  lemma ThreeCorrectFromFresh()
    ensures Play(FreshStats(), Hits(3)) == GameStats(330, INITIAL_LIVES, 3)
  {
    ScoreOfRun(FreshStats(), 3);
  }

  /** A fresh game is over exactly when as many wrong answers as initial lives
      have been given. */
  lemma GameOverAfterInitialLivesMisses(answers: seq<bool>)
    ensures GameIsOver(Play(FreshStats(), answers)) <==> Misses(answers) >= INITIAL_LIVES
  {
    LivesCountMisses(FreshStats(), answers);
  }
}
