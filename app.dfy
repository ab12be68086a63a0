/** The game controller: the mutable state of the top-level component and
    its four transition handlers. */
module Game {
  import opened Types
  import opened Constants
  import opened GameRules
  import opened OptionsPanel

  /** How a request for a new case settled: with a case, or with a failure.
      The request itself (a call to a text-generation service) happens
      outside the model; its outcome is passed to the handlers that load. */
  datatype Fetch = Fetched(tcmCase: TcmCase) | FetchFailed

  /** Whether `answer` is the right diagnosis of the case on screen; with no
      case on screen no answer is right. */
  function IsCorrect(currentCase: Option<TcmCase>, answer: string): (correct: bool)
    ensures currentCase == None ==> !correct
    ensures currentCase.Some? ==> (correct <==> answer == currentCase.value.correctDiagnosis)
  {
    currentCase.Some? && answer == currentCase.value.correctDiagnosis
  }

  /** On the panel of a well-formed case, whatever the order of its options,
      exactly one button submits an answer that scores as correct. */
  lemma ExactlyOneOptionScores(c: TcmCase, options: seq<string>)
    requires WellFormedCase(c)
    requires multiset(options) == multiset(AllOptions(c))
    ensures exists i :: 0 <= i < |options| && IsCorrect(Some(c), options[i])
    ensures forall i, j ::
      (0 <= i < |options| && 0 <= j < |options| &&
       IsCorrect(Some(c), options[i]) && IsCorrect(Some(c), options[j])) ==> i == j
  {
    WellFormedOptionsDistinct(c, options);
    assert c.correctDiagnosis in multiset(options);
    var k :| 0 <= k < |options| && options[k] == c.correctDiagnosis;
    assert IsCorrect(Some(c), options[k]);
  }

  class App {
    var gameState: GameState
    var currentCase: Option<TcmCase>
    var stats: GameStats
    var selectedOption: Option<string>
    var loading: bool

    /** The controller invariant: stats are reachable ones, a case is on
        screen while playing with nothing selected yet, an answer is recorded
        during feedback, and a load in progress has cleared the selection. */
    predicate Valid()
      reads this
    {
      StatsInvariant(stats) &&
      (gameState == Playing ==> currentCase.Some? && selectedOption == None) &&
      (gameState == Feedback ==> selectedOption.Some?) &&
      (gameState == Loading ==> loading && selectedOption == None)
    }

    /** The component as first rendered: the menu, fresh stats, no case. */
    constructor ()
      ensures Valid()
      ensures gameState == Menu && stats == FreshStats()
      ensures currentCase == None && selectedOption == None && !loading
    {
      gameState := Menu;
      currentCase := None;
      stats := FreshStats();
      selectedOption := None;
      loading := false;
    }

    /** First half of loading a case, up to the request: show the loading
        screen and clear the previous answer. */
    method BeginLoad()
      requires Valid()
      modifies this
      ensures Valid()
      ensures gameState == Loading && loading && selectedOption == None
      ensures stats == old(stats) && currentCase == old(currentCase)
    {
      loading := true;
      gameState := Loading;
      selectedOption := None;
    }

    /** Second half of loading a case, once the request has settled: adopt
        the case and play it, or return to the menu keeping the old case. */
    method SettleLoad(fetch: Fetch)
      requires Valid() && gameState == Loading
      modifies this
      ensures Valid() && !loading
      ensures stats == old(stats) && selectedOption == old(selectedOption)
      ensures fetch.Fetched? ==> gameState == Playing && currentCase == Some(fetch.tcmCase)
      ensures fetch.FetchFailed? ==> gameState == Menu && currentCase == old(currentCase)
    {
      match fetch {
        case Fetched(c) =>
          currentCase := Some(c);
          gameState := Playing;
        case FetchFailed =>
          gameState := Menu;
      }
      loading := false;
    }

    /** Load a new case: both halves, with `fetch` the outcome of the request. */
    method LoadNewCase(fetch: Fetch)
      requires Valid()
      modifies this
      ensures Valid() && !loading && selectedOption == None
      ensures stats == old(stats)
      ensures fetch.Fetched? ==> gameState == Playing && currentCase == Some(fetch.tcmCase)
      ensures fetch.FetchFailed? ==> gameState == Menu && currentCase == old(currentCase)
    {
      BeginLoad();
      SettleLoad(fetch);
    }

    /** Start or retry: fresh stats whatever came before, then load a case. */
    method HandleStartGame(fetch: Fetch)
      requires Valid()
      modifies this
      ensures Valid() && !loading && selectedOption == None
      ensures stats == FreshStats()
      ensures fetch.Fetched? ==> gameState == Playing && currentCase == Some(fetch.tcmCase)
      ensures fetch.FetchFailed? ==> gameState == Menu && currentCase == old(currentCase)
    {
      stats := FreshStats();
      LoadNewCase(fetch);
    }

    /** Record the chosen answer, show the feedback screen and score it. */
    method HandleAnswer(answer: string)
      requires Valid()
      modifies this
      ensures Valid()
      ensures selectedOption == Some(answer) && gameState == Feedback
      ensures stats == Answered(old(stats), IsCorrect(old(currentCase), answer))
      ensures currentCase == old(currentCase) && loading == old(loading)
    {
      selectedOption := Some(answer);
      gameState := Feedback;
      var isCorrect := IsCorrect(currentCase, answer);
      stats := Answered(stats, isCorrect);
    }

    /** After feedback: end the game when no lives are left, otherwise load
        the next case. */
    method HandleNext(fetch: Fetch)
      requires Valid()
      modifies this
      ensures Valid() && stats == old(stats)
      ensures gameState == GameOver <==> GameIsOver(old(stats))
      ensures GameIsOver(old(stats)) ==>
        currentCase == old(currentCase) && selectedOption == old(selectedOption) && loading == old(loading)
      ensures !GameIsOver(old(stats)) ==> !loading && selectedOption == None
      ensures !GameIsOver(old(stats)) && fetch.Fetched? ==>
        gameState == Playing && currentCase == Some(fetch.tcmCase)
      ensures !GameIsOver(old(stats)) && fetch.FetchFailed? ==>
        gameState == Menu && currentCase == old(currentCase)
    {
      if stats.lives <= 0 {
        gameState := GameOver;
      } else {
        LoadNewCase(fetch);
      }
    }
  }

  /** A session on the fallback case: start, then for each entry of `answers`
      a right (true) or wrong (false) answer followed by "next", stopping at
      the game-over screen. The controller's stats are at every point the fold
      `Play` of the answers given so far, so the lemmas about `Play` speak of
      the controller itself. */
  method PlaySession(answers: seq<bool>) returns (played: nat, final: GameStats, state: GameState)
    ensures played <= |answers|
    ensures final == Play(FreshStats(), answers[..played])
    ensures final.lives == INITIAL_LIVES - Misses(answers[..played])
    ensures state == GameOver <==> Misses(answers[..played]) >= INITIAL_LIVES
    ensures state != GameOver ==> state == Playing && played == |answers|
    ensures state == GameOver ==>
      Misses(answers[..played]) == INITIAL_LIVES && final.lives == 0 && !answers[played - 1]
  {
    var app := new App();
    var c := MOCK_FALLBACK_CASE;
    FallbackWellFormed();
    assert c.wrongOptions[0] != c.correctDiagnosis;
    app.HandleStartGame(Fetched(c));
    played := 0;
    while played < |answers| && app.gameState != GameOver
      invariant 0 <= played <= |answers|
      invariant app.Valid() && app.currentCase == Some(c)
      invariant app.stats == Play(FreshStats(), answers[..played])
      invariant app.gameState == GameOver <==> GameIsOver(app.stats)
      invariant app.gameState != GameOver ==> app.gameState == Playing
      invariant app.stats.lives == INITIAL_LIVES - Misses(answers[..played])
      invariant app.gameState == GameOver ==>
        Misses(answers[..played]) == INITIAL_LIVES && played > 0 && !answers[played - 1]
    {
      LivesCountMisses(FreshStats(), answers[..played]);
      var answer := if answers[played] then c.correctDiagnosis else c.wrongOptions[0];
      app.HandleAnswer(answer);
      app.HandleNext(Fetched(c));
      assert answers[..played + 1][..played] == answers[..played];
      LivesCountMisses(FreshStats(), answers[..played + 1]);
      played := played + 1;
    }
    final, state := app.stats, app.gameState;
    LivesCountMisses(FreshStats(), answers[..played]);
    GameOverAfterInitialLivesMisses(answers[..played]);
  }

  /** A session on the fallback case: start, then three right answers each
      followed by "next". The final stats are 330 points, all lives, streak 3. */
  method PlayThreeCorrectRounds() returns (final: GameStats, state: GameState)
    ensures final == GameStats(330, INITIAL_LIVES, 3)
    ensures state == Playing
  {
    var app := new App();
    var c := MOCK_FALLBACK_CASE;
    app.HandleStartGame(Fetched(c));
    app.HandleAnswer(c.correctDiagnosis);
    app.HandleNext(Fetched(c));
    app.HandleAnswer(c.correctDiagnosis);
    app.HandleNext(Fetched(c));
    app.HandleAnswer(c.correctDiagnosis);
    app.HandleNext(Fetched(c));
    final, state := app.stats, app.gameState;
  }

  /** A session on the fallback case answered wrongly each time: after as many
      wrong answers as initial lives, "next" shows the game-over screen with
      score 0, and a retry starts again from fresh stats. */
  method PlayUntilGameOver() returns (atEnd: GameStats, endState: GameState, retried: GameStats)
    ensures atEnd == GameStats(0, 0, 0) && endState == GameOver
    ensures retried == FreshStats()
  {
    var app := new App();
    var c := MOCK_FALLBACK_CASE;
    var wrong := c.wrongOptions[0];
    FallbackWellFormed();
    app.HandleStartGame(Fetched(c));
    app.HandleAnswer(wrong);
    app.HandleNext(Fetched(c));
    app.HandleAnswer(wrong);
    app.HandleNext(Fetched(c));
    app.HandleAnswer(wrong);
    app.HandleNext(Fetched(c));
    atEnd, endState := app.stats, app.gameState;
    app.HandleStartGame(FetchFailed);
    retried := app.stats;
  }
}
