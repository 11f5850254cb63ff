/**
 * `GameOverSystem` (src/server/systems.py): a latch that announces the
 * first `GameOver` record once, then waits for the reset delay and rebuilds
 * the game.  The clock is abstracted: each tick says whether the delay has
 * elapsed since the announcement.
 */
module GameOverRules {
  import opened Components
  import opened Ecs
  import opened MulliganRules
  import opened SetupRules

  /** The latch's two fields: the game is over, and the reset timer is running. */
  datatype Latch = Latch(gameIsOver: bool, timerRunning: bool)

  /** The latch of a freshly built system. */
  const Idle: Latch := Latch(false, false)

  /** The first other entity of the player query, as the loser of a two-player game. */
  function Loser(s: State, winner: Entity): (r: Option<Entity>)
    ensures r.Some? ==> r.value in s.players && r.value != winner
    ensures r.None? <==> forall e :: e in s.players ==> e == winner
  {
    FirstOther(PlayerList(s), winner)
  }

  /**
   * One tick of the latch: a running timer either resets the game (the
   * event queue survives the reset) or waits; a latched game does nothing;
   * otherwise the first `GameOver` record, if any, is announced and latched.
   */
  function LatchStep(l: Latch, s: State, delayElapsed: bool, shuffle: Shuffler): (Latch, Outcome) {
    if l.gameIsOver && l.timerRunning then
      if delayElapsed then (Idle, NewGame(s.events, shuffle)) else (l, Running(s))
    else if l.gameIsOver then (l, Running(s))
    else if s.gameOvers == map[] then (l, Running(s))
    else
      var winner := s.gameOvers[Least(s.gameOvers.Keys)];
      (Latch(true, true), Running(Emit(s, GameOverEvent(winner, Loser(s, winner)))))
  }

  class GameOverSystem {
    var gameIsOver: bool
    var timerRunning: bool

    constructor ()
      ensures Latch(gameIsOver, timerRunning) == Idle
    {
      gameIsOver := false;
      timerRunning := false;
    }

    /** `GameOverSystem.process`, on the world `s`. */
    method Process(s: State, delayElapsed: bool, shuffle: Shuffler) returns (r: Outcome)
      modifies this
      ensures (Latch(gameIsOver, timerRunning), r)
           == LatchStep(Latch(old(gameIsOver), old(timerRunning)), s, delayElapsed, shuffle)
    {
      if gameIsOver && timerRunning {
        if delayElapsed {
          r := NewGame(s.events, shuffle);
          gameIsOver := false;
          timerRunning := false;
        } else {
          r := Running(s);
        }
        return;
      }
      if gameIsOver {
        return Running(s);
      }
      if s.gameOvers == map[] {
        return Running(s);
      }
      var g := Least(s.gameOvers.Keys);
      gameIsOver := true;
      timerRunning := true;
      var winner := s.gameOvers[g];
      var loser := FirstOther(PlayerList(s), winner);
      r := Running(Emit(s, GameOverEvent(winner, loser)));
    }
  }

  // ----- properties -----

  /**
   * With the latch idle and a `GameOver` record present, the step latches
   * and appends exactly one GAME_OVER naming the winner of the first record
   * and another player as loser (none when every player is the winner);
   * nothing else in the world changes.
   */
  lemma LatchFires(s: State, delayElapsed: bool, shuffle: Shuffler)
    requires s.gameOvers != map[]
    ensures var (l, r) := LatchStep(Idle, s, delayElapsed, shuffle);
      var g := Least(s.gameOvers.Keys);
      && l == Latch(true, true) && r.Running?
      && r.s == s.(events := s.events + [GameOverEvent(s.gameOvers[g], Loser(s, s.gameOvers[g]))])
      && forall e :: e in s.gameOvers ==> g <= e
  {
  }

  /** With the latch idle and no `GameOver` record the step changes nothing. */
  lemma LatchIdle(s: State, delayElapsed: bool, shuffle: Shuffler)
    requires s.gameOvers == map[]
    ensures LatchStep(Idle, s, delayElapsed, shuffle) == (Idle, Running(s))
  {
  }

  /**
   * A latched game announces nothing: before the delay the world and the
   * latch stay as they are, and after it the game is rebuilt (every player
   * dealt seven cards, in the MULLIGAN phase) with the same event queue and
   * the latch is idle again.
   */
  lemma LatchedIsQuiet(l: Latch, s: State, delayElapsed: bool, shuffle: Shuffler)
    requires l.gameIsOver
    ensures var (l', r) := LatchStep(l, s, delayElapsed, shuffle);
      && r.Running? && r.s.events == s.events
      && (l' == Idle <==> l.timerRunning && delayElapsed)
      && (l' != Idle ==> l' == l && r == Running(s))
      && (l' == Idle ==> InMulliganPhase(r.s) && |HandSet(r.s, 1)| == 7 && |HandSet(r.s, 2)| == 7)
  {
    if l.timerRunning && delayElapsed {
      Rebuilt(s.events, shuffle);
    }
  }

  /** The reset: a new game in the MULLIGAN phase with seven cards in each hand, keeping the queue. */
  lemma Rebuilt(events: seq<Event>, shuffle: Shuffler)
    ensures var r := NewGame(events, shuffle);
      && r.Running? && r.s.events == events
      && InMulliganPhase(r.s) && |HandSet(r.s, 1)| == 7 && |HandSet(r.s, 2)| == 7
  {
    NewGameReady(events, shuffle);
  }

  /**
   * One-shot: the tick after an announcement appends no GAME_OVER while the
   * delay has not elapsed, whatever the world then holds.
   */
  lemma AnnouncedOnce(l: Latch, s: State, d: bool, t: State, shuffle: Shuffler)
    requires var (l1, r1) := LatchStep(l, s, d, shuffle); r1.Running? && r1.s.events != s.events
    ensures var (l1, r1) := LatchStep(l, s, d, shuffle);
      && l1 == Latch(true, true)
      && LatchStep(l1, t, false, shuffle) == (l1, Running(t))
  {
    if l.gameIsOver {
      LatchedIsQuiet(l, s, d, shuffle);
    }
  }
}
