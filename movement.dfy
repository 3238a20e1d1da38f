/** The movement pass of one tick: every obstacle falls by the shared fall
    speed, then either passes the bottom edge (scores), strikes the rocket
    (costs a life) or stays. The pass is specified as a left fold, Run, of one
    obstacle step, Visit, and is characterised against independent reference
    definitions: a filter (Survivors), a sum (PassedValue) and a count
    (HitCount). */
module Movement {
  import opened Geometry
  import opened Obstacles

  /** A one-shot event for the presentation side: the pass sound, the crash
      sound, the game-over dialog with the final score, and the background
      music being paused or resumed. */
  datatype Cue = PassEffect | Crash | GameOverAlert(finalScore: int) | PauseMusic | PlayMusic

  /** What stays fixed during one movement pass. */
  datatype Setting = Setting(rocket: Box, fallSpeed: real, height: real)

  /** The running account of a pass: obstacles kept so far, score, lives,
      whether the game has ended, and the cues emitted so far. */
  datatype Tally = Tally(kept: seq<Obstacle>, score: int, lives: int, over: bool, cues: seq<Cue>)

  /** The obstacle o after one tick of falling. */
  function Fall(o: Obstacle, speed: real): Obstacle {
    o.(y := o.y + speed)
  }

  /** Every obstacle after one tick of falling, in order. */
  function Fallen(obs: seq<Obstacle>, speed: real): (r: seq<Obstacle>)
    ensures |r| == |obs|
    ensures forall i :: 0 <= i < |obs| ==> r[i].y == obs[i].y + speed && r[i] == obs[i].(y := r[i].y)
  {
    if obs == [] then [] else [Fall(obs[0], speed)] + Fallen(obs[1..], speed)
  }

  /** A fallen obstacle that is below the bottom edge. */
  predicate PassesBottom(m: Obstacle, st: Setting) {
    m.y > st.height
  }

  /** A fallen obstacle that is still on the playfield and overlaps the rocket. */
  predicate StrikesRocket(m: Obstacle, st: Setting) {
    !PassesBottom(m, st) && CheckCollision(Some(st.rocket), Some(m.Bounds()))
  }

  /** One step of the pass on obstacle o (as stored before it falls). The pass
      check comes first, so an obstacle below the edge is never tested for a
      collision. The strike that brings lives to exactly 0 ends the game. */
  function Visit(t: Tally, o: Obstacle, st: Setting): Tally {
    var m := Fall(o, st.fallSpeed);
    if PassesBottom(m, st) then
      t.(score := t.score + m.scoreValue, cues := t.cues + [PassEffect])
    else if CheckCollision(Some(st.rocket), Some(m.Bounds())) then
      if t.lives - 1 == 0 then
        t.(lives := 0, over := true, cues := t.cues + [GameOverAlert(t.score)])
      else
        t.(lives := t.lives - 1, cues := t.cues + [Crash])
    else
      t.(kept := t.kept + [m])
  }

  /** The pass over obs, one obstacle at a time in order, stopping at game over. */
  function Run(t: Tally, obs: seq<Obstacle>, st: Setting): Tally
    decreases |obs|
  {
    if obs == [] || t.over then t else Run(Visit(t, obs[0], st), obs[1..], st)
  }

  /** Run takes the first obstacle first. */
  lemma RunStep(t: Tally, obs: seq<Obstacle>, st: Setting)
    requires obs != [] && !t.over
    ensures Run(t, obs, st) == Run(Visit(t, obs[0], st), obs[1..], st)
  {
  }

  /** Visit on an obstacle that falls past the bottom edge: it scores and is
      dropped, and lives are untouched even when it also overlaps the rocket,
      since the pass check comes first. */
  lemma VisitPassing(t: Tally, o: Obstacle, st: Setting)
    requires PassesBottom(Fall(o, st.fallSpeed), st)
    ensures Visit(t, o, st) == t.(score := t.score + o.scoreValue, cues := t.cues + [PassEffect])
  {
  }

  /** Visit on an obstacle that falls onto the rocket: it is dropped, the
      score is untouched, and it either takes the last life and ends the game
      or costs one life. */
  lemma VisitStriking(t: Tally, o: Obstacle, st: Setting)
    requires StrikesRocket(Fall(o, st.fallSpeed), st)
    ensures Visit(t, o, st) == if t.lives - 1 == 0 then t.(lives := 0, over := true, cues := t.cues + [GameOverAlert(t.score)])
                               else t.(lives := t.lives - 1, cues := t.cues + [Crash])
  {
  }

  /** Visit on an obstacle that stays on the playfield clear of the rocket. */
  lemma VisitKeeping(t: Tally, o: Obstacle, st: Setting)
    requires !PassesBottom(Fall(o, st.fallSpeed), st) && !StrikesRocket(Fall(o, st.fallSpeed), st)
    ensures Visit(t, o, st) == t.(kept := t.kept + [Fall(o, st.fallSpeed)])
  {
  }

  // Reference definitions over the fallen obstacles ms.

  /** The obstacles that neither pass nor strike, in their original order. */
  function Survivors(ms: seq<Obstacle>, st: Setting): seq<Obstacle> {
    if ms == [] then []
    else (if PassesBottom(ms[0], st) || StrikesRocket(ms[0], st) then [] else [ms[0]]) + Survivors(ms[1..], st)
  }

  /** The total score value of the obstacles that pass the bottom edge. */
  function PassedValue(ms: seq<Obstacle>, st: Setting): int {
    if ms == [] then 0
    else (if PassesBottom(ms[0], st) then ms[0].scoreValue else 0) + PassedValue(ms[1..], st)
  }

  /** The number of obstacles that strike the rocket. */
  function HitCount(ms: seq<Obstacle>, st: Setting): nat {
    if ms == [] then 0
    else (if StrikesRocket(ms[0], st) then 1 else 0) + HitCount(ms[1..], st)
  }

  /** The sounds of a pass that does not end the game, one per removed obstacle. */
  function CueTrail(ms: seq<Obstacle>, st: Setting): seq<Cue> {
    if ms == [] then []
    else (if PassesBottom(ms[0], st) then [PassEffect] else if StrikesRocket(ms[0], st) then [Crash] else [])
         + CueTrail(ms[1..], st)
  }

  /** A pass that strikes the rocket fewer times than there are lives: the
      kept obstacles are the survivors in order, the score grows by the value
      of the passed obstacles, one life is lost per strike, and one sound is
      emitted per removed obstacle. */
  lemma {:induction false} RunWithoutGameOver(t: Tally, obs: seq<Obstacle>, st: Setting)
    requires !t.over && HitCount(Fallen(obs, st.fallSpeed), st) < t.lives
    ensures var ms := Fallen(obs, st.fallSpeed);
            Run(t, obs, st) == Tally(t.kept + Survivors(ms, st), t.score + PassedValue(ms, st),
                                     t.lives - HitCount(ms, st), false, t.cues + CueTrail(ms, st))
    decreases |obs|
  {
    var ms := Fallen(obs, st.fallSpeed);
    if obs == [] {
      assert t.kept + [] == t.kept && t.cues + [] == t.cues;
    } else {
      assert ms[0] == Fall(obs[0], st.fallSpeed) && ms[1..] == Fallen(obs[1..], st.fallSpeed);
      var t' := Visit(t, obs[0], st);
      RunWithoutGameOver(t', obs[1..], st);
      assert t'.kept + Survivors(ms[1..], st) == t.kept + Survivors(ms, st);
      assert t'.cues + CueTrail(ms[1..], st) == t.cues + CueTrail(ms, st);
    }
  }

  /** A pass that strikes the rocket at least as often as there are lives
      (and there is at least one) ends the game with no lives left, and its
      last cue is the game-over dialog showing the score reached. */
  lemma {:induction false} RunReachesGameOver(t: Tally, obs: seq<Obstacle>, st: Setting)
    requires !t.over && 1 <= t.lives <= HitCount(Fallen(obs, st.fallSpeed), st)
    ensures var r := Run(t, obs, st);
            r.over && r.lives == 0 && |r.cues| > 0 && r.cues[|r.cues| - 1] == GameOverAlert(r.score)
    decreases |obs|
  {
    var ms := Fallen(obs, st.fallSpeed);
    assert ms[0] == Fall(obs[0], st.fallSpeed) && ms[1..] == Fallen(obs[1..], st.fallSpeed);
    var t' := Visit(t, obs[0], st);
    if !t'.over {
      RunReachesGameOver(t', obs[1..], st);
    }
  }

  /** When no obstacle carries a negative value, a pass never lowers the
      score, never adds a life, and keeps only obstacles of non-negative value. */
  lemma {:induction false} RunMonotone(t: Tally, obs: seq<Obstacle>, st: Setting)
    requires forall o :: o in obs ==> o.scoreValue >= 0
    requires forall o :: o in t.kept ==> o.scoreValue >= 0
    ensures var r := Run(t, obs, st);
            r.score >= t.score && r.lives <= t.lives && forall o :: o in r.kept ==> o.scoreValue >= 0
    decreases |obs|
  {
    if obs != [] && !t.over {
      assert obs[0] in obs;
      var t' := Visit(t, obs[0], st);
      assert forall o :: o in obs[1..] ==> o in obs;
      RunMonotone(t', obs[1..], st);
    }
  }

  /** An obstacle is kept exactly when it is one of the fallen obstacles and
      neither passes the bottom edge nor strikes the rocket. */
  lemma {:induction false} SurvivorsMembership(ms: seq<Obstacle>, st: Setting, o: Obstacle)
    ensures o in Survivors(ms, st) <==> o in ms && !PassesBottom(o, st) && !StrikesRocket(o, st)
    decreases |ms|
  {
    if ms != [] {
      SurvivorsMembership(ms[1..], st, o);
      assert ms == [ms[0]] + ms[1..];
    }
  }

  /** An obstacle just below the bottom edge, worth 150, taken from a score
      of 500: the score becomes 650, the obstacle is gone, no life is lost. */
  lemma PassScenario()
    ensures var st := Setting(Box(100.0, 100.0, 50.0, 50.0), 2.0, 600.0);
            Run(Tally([], 500, 3, false, []), [Obstacle(100.0, 601.0, 30.0, 30.0, 150, 0)], st)
              == Tally([], 650, 3, false, [PassEffect])
  {
  }

  /** A rocket at (100, 100) of size 50 and an obstacle that falls to (110, 110)
      of size 30, with three lives: two lives remain, the obstacle is gone,
      the score is unchanged. */
  lemma StrikeScenario()
    ensures var st := Setting(Box(100.0, 100.0, 50.0, 50.0), 2.0, 600.0);
            Run(Tally([], 500, 3, false, []), [Obstacle(110.0, 108.0, 30.0, 30.0, 300, 0)], st)
              == Tally([], 500, 2, false, [Crash])
  {
  }
}
