/** The game session as the program keeps it: mutable fields updated in
    place by the frame loop, the tick, obstacle creation, the reset and the
    key handler. Each method is proved to perform exactly the state change
    its counterpart in module Game describes. */
module Engine {
  import opened Geometry
  import opened Obstacles
  import opened Movement
  import opened Game

  class Session {
    /** The playfield's size, fixed by the host at start-up. */
    const width: real
    const height: real

    var rocket: Craft
    var obstacles: seq<Obstacle>
    var obstacleSpeed: real
    var obstacleFrequency: real
    var gameRunning: bool
    var score: int
    var lives: int
    var level: nat
    var isPaused: bool
    var frames: nat

    /** The session's fields as one value. */
    function Snapshot(): State
      reads this
    {
      State(rocket, obstacles, obstacleSpeed, obstacleFrequency, gameRunning, score, lives, level, isPaused, frames)
    }

    /** The start-up values, with the rocket placed as start-up places it. */
    constructor (width: real, height: real)
      ensures this.width == width && this.height == height
      ensures Snapshot() == Initial(width, height)
      ensures Inv(Snapshot())
    {
      this.width, this.height := width, height;
      rocket := Craft(width / 2.0 - ROCKET_SIZE / 2.0, height - ROCKET_SIZE - ROCKET_MARGIN,
                      ROCKET_SIZE, ROCKET_SIZE, BASE_ROCKET_SPEED);
      obstacles := [];
      obstacleSpeed, obstacleFrequency := BASE_OBSTACLE_SPEED, BASE_OBSTACLE_FREQUENCY;
      gameRunning := true;
      score, lives, level := 0, INITIAL_LIVES, 1;
      isPaused := false;
      frames := 0;
      InitialInv(width, height);
    }

    /** One frame: nothing once stopped; the tick unless paused; then the
        frame counter advances. */
    method GameLoop(d: Draws) returns (cues: seq<Cue>)
      requires d.Valid()
      modifies this
      ensures (Snapshot(), cues) == Tick(old(Snapshot()), width, height, d)
      ensures old(Inv(Snapshot())) ==> Inv(Snapshot())
    {
      ghost var s := Snapshot();
      cues := [];
      if !gameRunning {
        return;
      }
      if !isPaused {
        cues := UpdateGame(d);
        TickRunning(s, width, height, d);
      }
      frames := frames + 1;
      if Inv(s) {
        TickKeepsInv(s, width, height, d);
      }
    }

    /** The key handler. */
    method ControlRocket(e: KeyEvent) returns (cues: seq<Cue>)
      modifies this
      ensures (Snapshot(), cues) == Control(old(Snapshot()), width, e)
    {
      cues := [];
      if e.key == "Space" || e.code == "Space" {
        isPaused := !isPaused;
        if isPaused {
          cues := [PauseMusic];
        } else {
          cues := [PlayMusic];
        }
        return;
      }
      if e.key == "ArrowLeft" && rocket.x > 0.0 {
        rocket := rocket.(x := rocket.x - rocket.speed);
      } else if e.key == "ArrowRight" && rocket.x < width - rocket.width {
        rocket := rocket.(x := rocket.x + rocket.speed);
      }
    }

    /** The level-up check at the start of a tick. */
    method CheckLevelUp()
      modifies this
      ensures Snapshot() == LevelUp(old(Snapshot()))
    {
      if score >= level * LEVEL_UP_SCORE {
        level := level + 1;
        rocket := rocket.(speed := rocket.speed * SPEED_UP);
        obstacleSpeed := obstacleSpeed * SPEED_UP;
        obstacleFrequency := obstacleFrequency * INTERVAL_DOWN;
      }
    }

    /** Appends one obstacle built from the draws d; the obstacles already
        there and every other field are unchanged. */
    method CreateObstacle(d: Draws)
      requires d.Valid()
      modifies this
      ensures obstacles == old(obstacles) + [NewObstacle(width, d)]
      ensures Snapshot() == old(Snapshot()).(obstacles := obstacles)
    {
      var size := d.size * (MAX_SIZE - MIN_SIZE) + MIN_SIZE;
      var position := Scale(d.position, width - size);
      var imageIndex := (d.image * IMAGE_COUNT as real).Floor;
      var obstacleScoreValue := ScoreValue(size);
      obstacles := obstacles + [Obstacle(position, -size, size, size, obstacleScoreValue, imageIndex)];
    }

    /** The reset after game over. */
    method ResetGame()
      modifies this
      ensures Snapshot() == Reset(old(Snapshot()))
    {
      score := 0;
      lives := INITIAL_LIVES;
      level := 1;
      obstacleFrequency := BASE_OBSTACLE_FREQUENCY;
      rocket := rocket.(speed := BASE_ROCKET_SPEED);
      obstacleSpeed := BASE_OBSTACLE_SPEED;
      obstacles := [];
      gameRunning := true;
    }

    /** One tick: level-up check, spawn rule, then the movement pass; when
        the pass reports the strike that took the last life, the game stops,
        the session is reset at once and the tick ends. */
    method UpdateGame(d: Draws) returns (cues: seq<Cue>)
      requires d.Valid()
      modifies this
      ensures (Snapshot(), cues) == Update(old(Snapshot()), width, height, d)
    {
      CheckLevelUp();
      var newFrequency := SpawnInterval(obstacleFrequency, level);
      if frames % newFrequency == 0 {
        CreateObstacle(d);
      }
      ghost var p := Snapshot();
      var ended;
      cues, ended := MoveObstacles();
      if ended {
        gameRunning := false;
        ResetGame();
        assert Snapshot() == Reset(p);
        return;
      }
    }

    /** Moves the obstacle at index i down by the fall speed, in place. */
    method Descend(i: nat)
      requires i < |obstacles|
      modifies this`obstacles
      ensures |obstacles| == |old(obstacles)| && obstacles[i] == Fall(old(obstacles[i]), obstacleSpeed)
      ensures obstacles[..i] == old(obstacles[..i]) && obstacles[..i + 1] == old(obstacles[..i]) + [obstacles[i]]
      ensures obstacles[i + 1..] == old(obstacles[i + 1..])
    {
      obstacles := obstacles[i := obstacles[i].(y := obstacles[i].y + obstacleSpeed)];
    }

    /** Removes the obstacle at index i, closing the gap. */
    method Splice(i: nat)
      requires i < |obstacles|
      modifies this`obstacles
      ensures |obstacles| == |old(obstacles)| - 1
      ensures obstacles[..i] == old(obstacles[..i]) && obstacles[i..] == old(obstacles[i + 1..])
    {
      obstacles := obstacles[..i] + obstacles[i + 1..];
    }

    /** One pass over the obstacles, in index order, that moves each one down
        and removes it in place when it passes the bottom edge (adding its
        value to the score) or else strikes the rocket (costing a life). The
        index steps back after each removal, so every obstacle present at the
        start is visited exactly once. The pass stops at once, with ended set,
        on the strike that brings lives to 0. */
    method MoveObstacles() returns (cues: seq<Cue>, ended: bool)
      modifies this`obstacles, this`score, this`lives
      ensures var r := Sweep(old(Snapshot()), height);
              cues == r.cues && ended == r.over && score == r.score && lives == r.lives &&
              (!ended ==> obstacles == r.kept)
    {
      ghost var p := Snapshot();
      ghost var st := SettingOf(p, height);
      cues, ended := [], false;
      var i := 0;
      while i < |obstacles|
        invariant 0 <= i <= |obstacles|
        invariant Run(Tally(obstacles[..i], score, lives, false, cues), obstacles[i..], st) == Sweep(p, height)
        decreases |obstacles| - i
      {
        ghost var before := Tally(obstacles[..i], score, lives, false, cues);
        ghost var o, rest := obstacles[i], obstacles[i + 1..];
        assert Run(Visit(before, o, st), rest, st) == Sweep(p, height) by {
          assert obstacles[i..][0] == o && obstacles[i..][1..] == rest;
          RunStep(before, obstacles[i..], st);
        }
        Descend(i);
        if obstacles[i].y > height {
          VisitPassing(before, o, st);
          score := score + obstacles[i].scoreValue;
          Splice(i);
          i := i - 1;
          cues := cues + [PassEffect];
        } else if CheckCollision(Some(rocket.Bounds()), Some(obstacles[i].Bounds())) {
          VisitStriking(before, o, st);
          lives := lives - 1;
          Splice(i);
          i := i - 1;
          if lives == 0 {
            cues := cues + [GameOverAlert(score)];
            ended := true;
            return;
          } else {
            cues := cues + [Crash];
          }
        } else {
          VisitKeeping(before, o, st);
        }
        i := i + 1;
      }
      assert obstacles[..i] == obstacles;
    }
  }
}
