/** The global progress store: app settings, one high score per game and a log
    of the ten most recent results. Every action is a pure update returning a
    new record; persistence to local storage is not modelled. */
module Store {
  import opened Common

  datatype Difficulty = Easy | Normal | Hard

  datatype Settings = Settings(soundEnabled: bool, difficulty: Difficulty)

  /** A partial settings record: absent fields are `None`. */
  datatype SettingsPatch = SettingsPatch(soundEnabled: Option<bool>, difficulty: Option<Difficulty>)

  datatype GameId = MathGame | MissingGame | ComboGame | MazeGame | FruitGame

  /** `playedAt` is the ISO timestamp string the caller supplies. */
  datatype GameResult = GameResult(gameId: GameId, score: int, playedAt: string)

  /** The `Record<GameId, number>` of best scores: one entry per game. */
  datatype HighScores = HighScores(math: int, missing: int, combo: int, maze: int, fruit: int)
  {
    function Get(g: GameId): int
    {
      match g
      case MathGame => math
      case MissingGame => missing
      case ComboGame => combo
      case MazeGame => maze
      case FruitGame => fruit
    }

    /** `{ ...highScores, [g]: v }` */
    function Set(g: GameId, v: int): (r: HighScores)
      ensures r.Get(g) == v
      ensures forall h :: h != g ==> r.Get(h) == Get(h)
    {
      match g
      case MathGame => this.(math := v)
      case MissingGame => this.(missing := v)
      case ComboGame => this.(combo := v)
      case MazeGame => this.(maze := v)
      case FruitGame => this.(fruit := v)
    }
  }

  datatype State = State(settings: Settings, highScores: HighScores, recentGames: seq<GameResult>)

  /** The log keeps at most this many results. */
  const MaxRecent: nat := 10

  /** The store as created before anything is persisted. */
  function Initial(): (s: State)
    ensures s.settings == Settings(true, Normal)
    ensures forall g :: s.highScores.Get(g) == 0
    ensures s.recentGames == []
  {
    State(
      Settings(true, Normal),
      HighScores(0, 0, 0, 0, 0),
      [])
  }

  /** Object-spread merge of a partial settings record over the current one. */
  function UpdateSettings(s: State, patch: SettingsPatch): (r: State)
    ensures r.settings.soundEnabled
            == (if patch.soundEnabled.Some? then patch.soundEnabled.value else s.settings.soundEnabled)
    ensures r.settings.difficulty
            == (if patch.difficulty.Some? then patch.difficulty.value else s.settings.difficulty)
    ensures r.highScores == s.highScores && r.recentGames == s.recentGames
  {
    var sound := match patch.soundEnabled
      case Some(v) => v
      case None => s.settings.soundEnabled;
    var difficulty := match patch.difficulty
      case Some(d) => d
      case None => s.settings.difficulty;
    s.(settings := Settings(sound, difficulty))
  }

  /** Raises the high score of `g` when `score` beats it; otherwise the state is returned unchanged. */
  function UpdateHighScore(s: State, g: GameId, score: int): (r: State)
    ensures r.highScores.Get(g) == Max(s.highScores.Get(g), score)
    ensures forall h :: h != g ==> r.highScores.Get(h) == s.highScores.Get(h)
    ensures r.settings == s.settings && r.recentGames == s.recentGames
    ensures score <= s.highScores.Get(g) ==> r == s
  {
    if score > s.highScores.Get(g) then s.(highScores := s.highScores.Set(g, score)) else s
  }

  function Max(a: int, b: int): int
  {
    if a < b then b else a
  }

  /** Prepends a result and keeps the first ten entries. */
  function AddGameResult(s: State, result: GameResult): (r: State)
    ensures |r.recentGames| == Min(|s.recentGames| + 1, MaxRecent) && |r.recentGames| > 0
    ensures r.recentGames[0] == result
    ensures forall i :: 1 <= i < |r.recentGames| ==> r.recentGames[i] == s.recentGames[i - 1]
    ensures r.settings == s.settings && r.highScores == s.highScores
  {
    var log := [result] + s.recentGames;
    s.(recentGames := if |log| <= MaxRecent then log else log[..MaxRecent])
  }

  function Min(a: int, b: int): int
  {
    if a < b then a else b
  }

  /** What every game does when a session finishes: offer the final score as a
      high score, then log it. */
  function RecordSession(s: State, g: GameId, score: int, now: string): (r: State)
    ensures r.highScores.Get(g) == Max(s.highScores.Get(g), score)
    ensures forall h :: h != g ==> r.highScores.Get(h) == s.highScores.Get(h)
    ensures |r.recentGames| == Min(|s.recentGames| + 1, MaxRecent)
    ensures r.recentGames[0] == GameResult(g, score, now)
    ensures forall i :: 1 <= i < |r.recentGames| ==> r.recentGames[i] == s.recentGames[i - 1]
    ensures r.settings == s.settings
  {
    AddGameResult(UpdateHighScore(s, g, score), GameResult(g, score, now))
  }

  /** The log never holds more than ten results, however many are added. */
  lemma {:induction false} RecentGamesBounded(s: State, results: seq<GameResult>)
    requires |s.recentGames| <= MaxRecent
    ensures |AddAll(s, results).recentGames| <= MaxRecent
    ensures |results| > 0 ==> AddAll(s, results).recentGames[0] == results[|results| - 1]
  {
    if |results| > 0 {
      RecentGamesBounded(s, results[..|results| - 1]);
    }
  }

  /** Adds the results one after the other, oldest first. */
  function AddAll(s: State, results: seq<GameResult>): State
  {
    if results == [] then s else AddGameResult(AddAll(s, results[..|results| - 1]), results[|results| - 1])
  }

  /** When the log is full, adding a result drops exactly the oldest (last) entry. */
  lemma FullLogDropsOldest(s: State, result: GameResult)
    requires |s.recentGames| == MaxRecent
    ensures AddGameResult(s, result).recentGames == [result] + s.recentGames[..MaxRecent - 1]
  {
  }

  /** A run of `UpdateHighScore` calls, one per (game, score) pair. */
  function UpdateAll(s: State, updates: seq<(GameId, int)>): State
    decreases updates
  {
    if updates == [] then s
    else UpdateAll(UpdateHighScore(s, updates[0].0, updates[0].1), updates[1..])
  }

  /** Over any sequence of updates no game's high score ever goes down, and the
      final one is at least every score offered for that game. */
  lemma {:induction false} HighScoresMonotone(s: State, updates: seq<(GameId, int)>, g: GameId)
    decreases updates
    ensures UpdateAll(s, updates).highScores.Get(g) >= s.highScores.Get(g)
    ensures forall i :: 0 <= i < |updates| && updates[i].0 == g ==>
              UpdateAll(s, updates).highScores.Get(g) >= updates[i].1
  {
    if updates != [] {
      var s' := UpdateHighScore(s, updates[0].0, updates[0].1);
      HighScoresMonotone(s', updates[1..], g);
      forall i | 0 <= i < |updates| && updates[i].0 == g
        ensures UpdateAll(s, updates).highScores.Get(g) >= updates[i].1
      {
        if i > 0 {
          assert updates[1..][i - 1] == updates[i];
        }
      }
    }
  }

  /** Offering the same score twice changes nothing the second time. */
  lemma UpdateHighScoreIdempotent(s: State, g: GameId, score: int)
    ensures UpdateHighScore(UpdateHighScore(s, g, score), g, score) == UpdateHighScore(s, g, score)
  {
  }
}
