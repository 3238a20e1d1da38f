/** The game session as a value, and one function per state change of the
    game: the level-up check, the spawn rule, the reset after game over, the
    whole update of one tick, the frame loop's pause gate, and the key
    handler. The class in module Engine performs the same changes in place
    and is proved against these functions. */
module Game {
  import opened Geometry
  import opened Obstacles
  import opened Movement

  const LEVEL_UP_SCORE: int := 1000
  const INITIAL_LIVES: int := 3
  const BASE_ROCKET_SPEED: real := 5.0
  const BASE_OBSTACLE_SPEED: real := 2.0
  /** The base spawn interval, in frames. */
  const BASE_OBSTACLE_FREQUENCY: real := 100.0
  const MIN_SPAWN_INTERVAL: int := 20
  const ROCKET_SIZE: real := 50.0
  /** Height of the gap between the rocket and the bottom edge. */
  const ROCKET_MARGIN: real := 10.0
  /** Factor applied to both speeds on each level-up. */
  const SPEED_UP: real := 1.1
  /** Factor applied to the base spawn interval on each level-up. */
  const INTERVAL_DOWN: real := 0.9

  /** The player's rocket. */
  datatype Craft = Craft(x: real, y: real, width: real, height: real, speed: real)
  {
    function Bounds(): Box {
      Box(x, y, width, height)
    }
  }

  /** Everything the simulation keeps between frames. */
  datatype State = State(
    rocket: Craft,
    obstacles: seq<Obstacle>,
    obstacleSpeed: real,
    obstacleFrequency: real,
    gameRunning: bool,
    score: int,
    lives: int,
    level: nat,
    isPaused: bool,
    frames: nat)

  /** A key press as delivered by the host: the key value and the key code. */
  datatype KeyEvent = KeyEvent(key: string, code: string)

  function Pow(b: real, n: nat): real {
    if n == 0 then 1.0 else b * Pow(b, n - 1)
  }

  /** The state at start-up on a playfield of the given size: the rocket is
      centred horizontally, ten units above the bottom edge. */
  function Initial(width: real, height: real): State {
    State(Craft(width / 2.0 - ROCKET_SIZE / 2.0, height - ROCKET_SIZE - ROCKET_MARGIN, ROCKET_SIZE, ROCKET_SIZE, BASE_ROCKET_SPEED),
          [], BASE_OBSTACLE_SPEED, BASE_OBSTACLE_FREQUENCY, true, 0, INITIAL_LIVES, 1, false, 0)
  }

  /** What every reachable state satisfies: the level is at least 1 and has
      been earned by the score, lives are between 1 and 3, both speeds and the
      base spawn interval are the base values scaled once per level gained,
      and no live obstacle carries a negative value. */
  predicate Inv(s: State) {
    s.level >= 1 &&
    1 <= s.lives <= INITIAL_LIVES &&
    (s.level - 1) * LEVEL_UP_SCORE <= s.score &&
    s.rocket.speed == BASE_ROCKET_SPEED * Pow(SPEED_UP, s.level - 1) &&
    s.obstacleSpeed == BASE_OBSTACLE_SPEED * Pow(SPEED_UP, s.level - 1) &&
    s.obstacleFrequency == BASE_OBSTACLE_FREQUENCY * Pow(INTERVAL_DOWN, s.level - 1) &&
    forall o :: o in s.obstacles ==> o.scoreValue >= 0
  }

  /** The level-up check at the start of a tick: at most one level per tick. */
  function LevelUp(s: State): State {
    if s.score >= s.level * LEVEL_UP_SCORE then
      s.(level := s.level + 1,
         rocket := s.rocket.(speed := s.rocket.speed * SPEED_UP),
         obstacleSpeed := s.obstacleSpeed * SPEED_UP,
         obstacleFrequency := s.obstacleFrequency * INTERVAL_DOWN)
    else s
  }

  /** The spawn interval in force: the base interval shortened by the level,
      rounded down, and never below 20 frames. */
  function SpawnInterval(frequency: real, level: nat): (r: int)
    ensures r >= MIN_SPAWN_INTERVAL
    ensures frequency / (1.0 + level as real * 0.2) < r as real + 1.0
    ensures r == MIN_SPAWN_INTERVAL || r as real <= frequency / (1.0 + level as real * 0.2)
  {
    var f := (frequency / (1.0 + level as real * 0.2)).Floor;
    if MIN_SPAWN_INTERVAL < f then f else MIN_SPAWN_INTERVAL
  }

  /** The spawn rule: one new obstacle is appended exactly on the frames that
      are a multiple of the spawn interval; nothing else changes. */
  function Spawn(s: State, width: real, d: Draws): (r: State)
    requires d.Valid()
    ensures r == s.(obstacles := r.obstacles)
    ensures |r.obstacles| == |s.obstacles| + 1 <==> s.frames % SpawnInterval(s.obstacleFrequency, s.level) == 0
    ensures |r.obstacles| == |s.obstacles| || |r.obstacles| == |s.obstacles| + 1
    ensures r.obstacles[..|s.obstacles|] == s.obstacles
    ensures |r.obstacles| > |s.obstacles| ==> r.obstacles[|s.obstacles|] == NewObstacle(width, d)
  {
    if s.frames % SpawnInterval(s.obstacleFrequency, s.level) == 0 then
      s.(obstacles := s.obstacles + [NewObstacle(width, d)])
    else s
  }

  /** The reset after game over: a fresh session, except that the frame
      counter, the pause flag and the rocket's position and size are kept. */
  function Reset(s: State): State {
    s.(score := 0,
       lives := INITIAL_LIVES,
       level := 1,
       obstacleFrequency := BASE_OBSTACLE_FREQUENCY,
       rocket := s.rocket.(speed := BASE_ROCKET_SPEED),
       obstacleSpeed := BASE_OBSTACLE_SPEED,
       obstacles := [],
       gameRunning := true)
  }

  /** The state a tick's movement pass starts from. */
  function Prepared(s: State, width: real, d: Draws): State
    requires d.Valid()
  {
    Spawn(LevelUp(s), width, d)
  }

  function SettingOf(s: State, height: real): Setting {
    Setting(s.rocket.Bounds(), s.obstacleSpeed, height)
  }

  /** The movement pass over the obstacles of s. */
  function Sweep(s: State, height: real): Tally {
    Run(Tally([], s.score, s.lives, false, []), s.obstacles, SettingOf(s, height))
  }

  /** One tick of the simulation proper, with the cues it emits. */
  function Update(s: State, width: real, height: real, d: Draws): (State, seq<Cue>)
    requires d.Valid()
  {
    var p := Prepared(s, width, d);
    var r := Sweep(p, height);
    if r.over then (Reset(p), r.cues)
    else (p.(obstacles := r.kept, score := r.score, lives := r.lives), r.cues)
  }

  /** The tick of s ends in game over. */
  predicate EndsGame(s: State, width: real, height: real, d: Draws)
    requires d.Valid()
  {
    Sweep(Prepared(s, width, d), height).over
  }

  /** How many obstacles strike the rocket in the tick of s, counted as if
      the pass did not stop at game over. */
  function StrikeCount(s: State, width: real, height: real, d: Draws): nat
    requires d.Valid()
  {
    var p := Prepared(s, width, d);
    HitCount(Fallen(p.obstacles, p.obstacleSpeed), SettingOf(p, height))
  }

  /** One frame: nothing at all once the game has stopped; otherwise the
      simulation tick unless paused, and the frame counter advances either way. */
  function Tick(s: State, width: real, height: real, d: Draws): (State, seq<Cue>)
    requires d.Valid()
  {
    if !s.gameRunning then (s, [])
    else
      var u := if s.isPaused then (s, []) else Update(s, width, height, d);
      (u.0.(frames := u.0.frames + 1), u.1)
  }

  /** The key handler: Space toggles the pause flag (and the music); the left
      and right arrows move the rocket by its speed when it is not already at
      or past the edge it moves towards. */
  function Control(s: State, width: real, e: KeyEvent): (State, seq<Cue>) {
    if e.key == "Space" || e.code == "Space" then
      var paused := !s.isPaused;
      (s.(isPaused := paused), if paused then [PauseMusic] else [PlayMusic])
    else if e.key == "ArrowLeft" && s.rocket.x > 0.0 then
      (s.(rocket := s.rocket.(x := s.rocket.x - s.rocket.speed)), [])
    else if e.key == "ArrowRight" && s.rocket.x < width - s.rocket.width then
      (s.(rocket := s.rocket.(x := s.rocket.x + s.rocket.speed)), [])
    else (s, [])
  }

  // Properties of the session.

  /** The start-up state satisfies the invariant. */
  lemma InitialInv(width: real, height: real)
    ensures Inv(Initial(width, height))
  {
  }

  /** The reset state satisfies the invariant. */
  lemma ResetInv(s: State)
    ensures Inv(Reset(s))
  {
  }

  /** The level-up check keeps the invariant: a new level is earned by the
      score, and the speeds and interval are scaled once more. */
  lemma LevelUpKeepsInv(s: State)
    requires Inv(s)
    ensures Inv(LevelUp(s))
  {
    if s.score >= s.level * LEVEL_UP_SCORE {
      assert Pow(SPEED_UP, s.level) == SPEED_UP * Pow(SPEED_UP, s.level - 1);
      assert Pow(INTERVAL_DOWN, s.level) == INTERVAL_DOWN * Pow(INTERVAL_DOWN, s.level - 1);
    }
  }

  /** A tick ends the game exactly when at least as many obstacles strike the
      rocket as there are lives. */
  lemma EndsGameIffStrikes(s: State, width: real, height: real, d: Draws)
    requires Inv(s) && d.Valid()
    ensures EndsGame(s, width, height, d) <==> s.lives <= StrikeCount(s, width, height, d)
  {
    var p := Prepared(s, width, d);
    var t := Tally([], p.score, p.lives, false, []);
    if s.lives <= StrikeCount(s, width, height, d) {
      RunReachesGameOver(t, p.obstacles, SettingOf(p, height));
    } else {
      RunWithoutGameOver(t, p.obstacles, SettingOf(p, height));
    }
  }

  /** One tick keeps the invariant. */
  lemma UpdateKeepsInv(s: State, width: real, height: real, d: Draws)
    requires Inv(s) && d.Valid()
    ensures Inv(Update(s, width, height, d).0)
  {
    LevelUpKeepsInv(s);
    var p := Prepared(s, width, d);
    assert Inv(p);
    var t := Tally([], p.score, p.lives, false, []);
    var st := SettingOf(p, height);
    if !Sweep(p, height).over {
      EndsGameIffStrikes(s, width, height, d);
      RunWithoutGameOver(t, p.obstacles, st);
      RunMonotone(t, p.obstacles, st);
    }
  }

  /** The level rises by at most one per tick, and only when the score at
      the start of the tick had reached the next threshold; when it rises,
      both speeds grow by a tenth and the base interval shrinks by a tenth.
      Unless the tick ends the game, it rises exactly when the threshold had
      been reached. */
  lemma UpdateLevelRule(s: State, width: real, height: real, d: Draws)
    requires Inv(s) && d.Valid()
    ensures var s' := Update(s, width, height, d).0;
            s'.level <= s.level + 1 &&
            (s'.level == s.level + 1 ==>
               s.score >= s.level * LEVEL_UP_SCORE &&
               s'.rocket.speed == s.rocket.speed * SPEED_UP &&
               s'.obstacleSpeed == s.obstacleSpeed * SPEED_UP &&
               s'.obstacleFrequency == s.obstacleFrequency * INTERVAL_DOWN) &&
            (!EndsGame(s, width, height, d) ==> (s'.level == s.level + 1 <==> s.score >= s.level * LEVEL_UP_SCORE))
  {
  }

  /** The accounting of a tick that does not end the game: the obstacles left
      are the survivors of the fall in their original order, the score grows
      by the value of the passed obstacles and so never falls, one life is
      lost per strike, and one sound is emitted per removed obstacle. */
  lemma UpdateAccounting(s: State, width: real, height: real, d: Draws)
    requires Inv(s) && d.Valid() && !EndsGame(s, width, height, d)
    ensures var p := Prepared(s, width, d);
            var st := SettingOf(p, height);
            var ms := Fallen(p.obstacles, p.obstacleSpeed);
            var u := Update(s, width, height, d);
            u.0.obstacles == Survivors(ms, st) &&
            u.0.score == s.score + PassedValue(ms, st) >= s.score &&
            u.0.lives == s.lives - HitCount(ms, st) >= 1 &&
            u.1 == CueTrail(ms, st)
  {
    var p := Prepared(s, width, d);
    var t := Tally([], p.score, p.lives, false, []);
    LevelUpKeepsInv(s);
    EndsGameIffStrikes(s, width, height, d);
    RunWithoutGameOver(t, p.obstacles, SettingOf(p, height));
    RunMonotone(t, p.obstacles, SettingOf(p, height));
  }

  /** A tick that ends the game shows, last, the game-over dialog with the
      score the pass reached, and leaves a
      fresh session: score 0, three lives, level 1, no obstacles, base speeds
      and interval, running again; the frame counter, the pause flag and the
      rocket's position are untouched. */
  lemma UpdateGameOver(s: State, width: real, height: real, d: Draws)
    requires Inv(s) && d.Valid() && EndsGame(s, width, height, d)
    ensures var u := Update(s, width, height, d);
            var s' := u.0;
            s'.score == 0 && s'.lives == INITIAL_LIVES && s'.level == 1 && s'.obstacles == [] &&
            s'.gameRunning && s'.rocket.speed == BASE_ROCKET_SPEED &&
            s'.obstacleSpeed == BASE_OBSTACLE_SPEED && s'.obstacleFrequency == BASE_OBSTACLE_FREQUENCY &&
            s'.frames == s.frames && s'.isPaused == s.isPaused &&
            s'.rocket.x == s.rocket.x && s'.rocket.y == s.rocket.y &&
            |u.1| > 0 && u.1[|u.1| - 1] == GameOverAlert(Sweep(Prepared(s, width, d), height).score)
  {
    var p := Prepared(s, width, d);
    EndsGameIffStrikes(s, width, height, d);
    RunReachesGameOver(Tally([], p.score, p.lives, false, []), p.obstacles, SettingOf(p, height));
  }

  /** The level can trail the score: from a state satisfying the invariant,
      whose one obstacle sits on the bottom edge as a previous tick can leave
      it, this tick lifts the score past the next threshold while the level
      does not move, so the level is not always the score divided by 1000,
      plus one. */
  lemma LevelLagsScore()
    ensures var s := State(Craft(0.0, 540.0, ROCKET_SIZE, ROCKET_SIZE, BASE_ROCKET_SPEED),
                           [Obstacle(0.0, 600.0, 20.0, 20.0, 400, 0)],
                           BASE_OBSTACLE_SPEED, BASE_OBSTACLE_FREQUENCY, true, 999, 3, 1, false, 310);
            var s' := Update(s, 800.0, 600.0, Draws(0.0, 0.0, 0.0)).0;
            Inv(s) && s'.score == 1399 && s'.level == 1
  {
    assert SpawnInterval(BASE_OBSTACLE_FREQUENCY, 1) == 83;
  }

  /** A frame of a stopped game changes nothing. */
  lemma TickStopped(s: State, width: real, height: real, d: Draws)
    requires d.Valid() && !s.gameRunning
    ensures Tick(s, width, height, d) == (s, [])
  {
  }

  /** A paused frame only advances the frame counter. */
  lemma TickPaused(s: State, width: real, height: real, d: Draws)
    requires d.Valid() && s.gameRunning && s.isPaused
    ensures Tick(s, width, height, d) == (s.(frames := s.frames + 1), [])
  {
  }

  /** A running frame is one simulation tick followed by one frame count. */
  lemma TickRunning(s: State, width: real, height: real, d: Draws)
    requires d.Valid() && s.gameRunning && !s.isPaused
    ensures var u := Update(s, width, height, d);
            Tick(s, width, height, d) == (u.0.(frames := s.frames + 1), u.1)
  {
    var p := Prepared(s, width, d);
    assert p.frames == s.frames;
  }

  /** Frames keep the invariant. */
  lemma TickKeepsInv(s: State, width: real, height: real, d: Draws)
    requires Inv(s) && d.Valid()
    ensures Inv(Tick(s, width, height, d).0)
  {
    if s.gameRunning && !s.isPaused {
      UpdateKeepsInv(s, width, height, d);
    }
  }

  /** Space, by key value or key code, toggles the pause flag and nothing
      else, pausing or resuming the music. */
  lemma ControlSpace(s: State, width: real, e: KeyEvent)
    requires e.key == "Space" || e.code == "Space"
    ensures Control(s, width, e) == (s.(isPaused := !s.isPaused), if s.isPaused then [PlayMusic] else [PauseMusic])
  {
  }

  /** The left arrow moves the rocket left by exactly its speed when it is
      right of 0, and otherwise does nothing. */
  lemma ControlLeft(s: State, width: real, e: KeyEvent)
    requires e.key == "ArrowLeft" && e.code != "Space"
    ensures var s' := Control(s, width, e).0;
            s' == s.(rocket := s'.rocket) && s'.rocket == s.rocket.(x := s'.rocket.x) &&
            s'.rocket.x == if s.rocket.x > 0.0 then s.rocket.x - s.rocket.speed else s.rocket.x
  {
  }

  /** The right arrow moves the rocket right by exactly its speed when its
      right edge is left of the playfield's, and otherwise does nothing. */
  lemma ControlRight(s: State, width: real, e: KeyEvent)
    requires e.key == "ArrowRight" && e.code != "Space"
    ensures var s' := Control(s, width, e).0;
            s' == s.(rocket := s'.rocket) && s'.rocket == s.rocket.(x := s'.rocket.x) &&
            s'.rocket.x == if s.rocket.x < width - s.rocket.width then s.rocket.x + s.rocket.speed else s.rocket.x
  {
  }

  /** The guards do not keep the rocket on the playfield: a rocket just right
      of 0 ends up left of it. */
  lemma ControlMayLeaveField()
    ensures var s := Initial(800.0, 600.0).(rocket := Craft(1.0, 540.0, ROCKET_SIZE, ROCKET_SIZE, BASE_ROCKET_SPEED));
            Control(s, 800.0, KeyEvent("ArrowLeft", "ArrowLeft")).0.rocket.x < 0.0
  {
  }

  /** Key presses keep the invariant. */
  lemma ControlKeepsInv(s: State, width: real, e: KeyEvent)
    requires Inv(s)
    ensures Inv(Control(s, width, e).0)
  {
  }
}
