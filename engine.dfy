/**
 * The entity world the server mutates in place (the `esper` database as the
 * processors of src/server/systems.py use it) and one tick of the processors
 * in the order src/server/main.py registers them.  Every method keeps the
 * world equal to the rule function it implements, so the properties proved
 * of the rules hold of the world.
 */
module Engine {
  import opened Components
  import opened Ecs
  import opened PlayCardRules
  import opened TapLandRules
  import opened CombatRules
  import opened TurnRules
  import opened MulliganRules
  import opened SetupRules
  import opened GameOverRules

  /** The processors after the game-over latch, in registration order; a crash ends the tick. */
  function Systems(s: State, shuffle: Shuffler): Outcome {
    match PlayCardSystem(s)
    case Crashed => Crashed
    case Running(s1) =>
      match AttackSystem(TapLandSystem(s1))
      case Crashed => Crashed
      case Running(s3) =>
        match TurnSystem(s3)
        case Crashed => Crashed
        case Running(s4) => MulliganSystem(s4, shuffle)
  }

  /** One `esper.process()`: the game-over latch first, then the other processors. */
  function TickStep(l: Latch, s: State, delayElapsed: bool, shuffle: Shuffler): (Latch, Outcome) {
    var (l1, o) := LatchStep(l, s, delayElapsed, shuffle);
    match o
    case Crashed => (l1, Crashed)
    case Running(s0) => (l1, Systems(s0, shuffle))
  }

  /**
   * The world the processors share: the entity database with every
   * component store, the entity counter, and the event queue, updated in
   * place by each processor.
   */
  class World {
    var state: State

    /** The world at start-up: a fresh game set up on an empty event queue. */
    constructor (shuffle: Shuffler)
      ensures NewGame([], shuffle) == Running(state)
    {
      Rebuilt([], shuffle);
      state := NewGame([], shuffle).s;
    }

    /** Appends an event to the queue. */
    method Push(ev: Event)
      modifies this
      ensures state == Emit(old(state), ev)
    {
      state := state.(events := state.events + [ev]);
    }

    /** `esper.delete_entity(e, immediate=True)`: the entity and every component it carries go. */
    method Delete(e: Entity)
      modifies this
      ensures state == DeleteEntity(old(state), e)
    {
      var s := state;
      state := s.(
        players := s.players - {e}, cards := s.cards - {e}, effects := s.effects - {e},
        owners := s.owners - {e}, decks := s.decks - {e}, graveyards := s.graveyards - {e},
        mulligans := s.mulligans - {e}, phases := s.phases - {e}, gameOvers := s.gameOvers - {e},
        commands := s.commands - {e});
      state := state.(marks := MarksWithout(state.marks, e), alive := state.alive - {e});
    }

    /** One TapLandCommand, checked in the order of the source; the command entity goes in every case. */
    method TapOne(cmdEnt: Entity, cmd: TapLandCommand)
      modifies this
      ensures state == TapLandStep(old(state), cmdEnt, cmd)
    {
      var p, c := cmd.player, cmd.card;
      if (p, ActiveTurn) !in state.marks {
        Push(ActionError(p, NotYourTurn));
      } else if c !in state.cards {
        Push(ActionError(p, MissingComponent));
      } else if state.cards[c].cardType != Land {
        Push(ActionError(p, NotALand));
      } else if (c, Tapped) in state.marks {
        Push(ActionError(p, AlreadyTapped));
      } else if p !in state.players {
        Push(ActionError(p, MissingComponent));
      } else {
        var player := state.players[p];
        var mana := player.mana + 1;
        state := state.(players := state.players[p := player.(mana := mana)]);
        state := state.(marks := state.marks + {(c, Tapped)}, alive := state.alive + {c});
        Push(ManaPoolUpdated(p, mana));
      }
      assert state == TapAttempt(old(state), cmd);
      Delete(cmdEnt);
    }

    /** `TapLandSystem.process`: the queued commands, listed once up front, in order. */
    method TapLands()
      modifies this
      ensures state == TapLandSystem(old(state))
    {
      var q := TapLandQueue(state);
      var i := 0;
      while i < |q|
        invariant 0 <= i <= |q|
        invariant RunTapLands(state, q[i..]) == TapLandSystem(old(state))
      {
        assert q[i..][0] == q[i] && q[i..][1..] == q[i + 1..];
        TapOne(q[i].0, q[i].1);
        i := i + 1;
      }
    }

    /** `PlayCardSystem.process`; `crashed` when an uncaught error ends the tick. */
    method PlayCards() returns (crashed: bool)
      modifies this
      ensures crashed <==> PlayCardSystem(old(state)).Crashed?
      ensures !crashed ==> Running(state) == PlayCardSystem(old(state))
    {
      var q := PlayCardQueue(state);
      var i := 0;
      crashed := false;
      while i < |q| && !crashed
        invariant 0 <= i <= |q|
        invariant !crashed ==> RunPlayCards(state, q[i..]) == PlayCardSystem(old(state))
        invariant crashed ==> PlayCardSystem(old(state)).Crashed?
      {
        assert q[i..][0] == q[i] && q[i..][1..] == q[i + 1..];
        match PlayCardStep(state, q[i].0, q[i].1) {
          case Crashed => crashed := true;
          case Running(t) => state := t;
        }
        i := i + 1;
      }
    }

    /** `AttackSystem.process`: the declarations of attackers, then of blockers. */
    method Attacks() returns (crashed: bool)
      modifies this
      ensures crashed <==> AttackSystem(old(state)).Crashed?
      ensures !crashed ==> Running(state) == AttackSystem(old(state))
    {
      var q := AttackQueue(state);
      var i := 0;
      crashed := false;
      while i < |q| && !crashed
        invariant 0 <= i <= |q|
        invariant !crashed ==> RunAttacks(state, q[i..]) == RunAttacks(old(state), q)
        invariant crashed ==> RunAttacks(old(state), q).Crashed?
      {
        assert q[i..][0] == q[i] && q[i..][1..] == q[i + 1..];
        match DeclareAttackersStep(state, q[i].0, q[i].1) {
          case Crashed => crashed := true;
          case Running(t) => state := t;
        }
        i := i + 1;
      }
      if crashed {
        return;
      }
      ghost var mid := state;
      var b := BlockQueue(state);
      i := 0;
      while i < |b| && !crashed
        invariant 0 <= i <= |b|
        invariant !crashed ==> RunBlocks(state, b[i..]) == RunBlocks(mid, b)
        invariant crashed ==> RunBlocks(mid, b).Crashed?
      {
        assert b[i..][0] == b[i] && b[i..][1..] == b[i + 1..];
        match DeclareBlockersStep(state, b[i].0, b[i].1) {
          case Crashed => crashed := true;
          case Running(t) => state := t;
        }
        i := i + 1;
      }
    }

    /** `TurnManagementSystem.process`. */
    method EndTurns() returns (crashed: bool)
      modifies this
      ensures crashed <==> TurnSystem(old(state)).Crashed?
      ensures !crashed ==> Running(state) == TurnSystem(old(state))
    {
      var q := EndTurnQueue(state);
      var i := 0;
      crashed := false;
      while i < |q| && !crashed
        invariant 0 <= i <= |q|
        invariant !crashed ==> RunEndTurns(state, q[i..]) == TurnSystem(old(state))
        invariant crashed ==> TurnSystem(old(state)).Crashed?
      {
        assert q[i..][0] == q[i] && q[i..][1..] == q[i + 1..];
        match EndTurnStep(state, q[i].0, q[i].1) {
          case Crashed => crashed := true;
          case Running(t) => state := t;
        }
        i := i + 1;
      }
    }

    /** One KeepHandCommand: a deciding player keeps; the notice goes out and the command entity goes. */
    method KeepOne(cmdEnt: Entity, p: Entity)
      modifies this
      ensures state == KeepStep(old(state), cmdEnt, p)
    {
      if (p, MulliganDecisionPhase) in state.marks {
        ghost var s := state;
        state := state.(marks := state.marks - {(p, MulliganDecisionPhase)} + {(p, KeptHand)}, alive := state.alive + {p});
        assert state == AddMark(RemoveMark(s, p, MulliganDecisionPhase), p, KeptHand);
      }
      Push(MulliganStateChanged);
      Delete(cmdEnt);
    }

    /** The first phase entity switches to GAME_RUNNING and entity 1 takes the first turn. */
    method Start()
      modifies this
      ensures state == StartGame(old(state))
    {
      if state.phases != map[] {
        var g := Least(state.phases.Keys);
        state := state.(phases := state.phases[g := GameRunning]);
      }
      state := state.(marks := state.marks + {(1, ActiveTurn)}, alive := state.alive + {1});
      Push(TurnStarted(1));
    }

    /** `MulliganSystem.process`. */
    method Mulligans(shuffle: Shuffler) returns (crashed: bool)
      modifies this
      ensures crashed <==> MulliganSystem(old(state), shuffle).Crashed?
      ensures !crashed ==> Running(state) == MulliganSystem(old(state), shuffle)
    {
      crashed := false;
      if !InMulliganPhase(state) {
        return;
      }
      crashed := Redraws(shuffle);
      if crashed {
        return;
      }
      crashed := PutBottoms();
      if crashed {
        return;
      }
      Keeps();
      if AllKept(state) {
        Start();
      }
    }

    /** The MulliganCommand loop. */
    method Redraws(shuffle: Shuffler) returns (crashed: bool)
      modifies this
      ensures crashed <==> RunMulligans(old(state), MulliganQueue(old(state)), shuffle).Crashed?
      ensures !crashed ==> Running(state) == RunMulligans(old(state), MulliganQueue(old(state)), shuffle)
    {
      var q := MulliganQueue(state);
      var i := 0;
      crashed := false;
      while i < |q| && !crashed
        invariant 0 <= i <= |q|
        invariant !crashed ==> RunMulligans(state, q[i..], shuffle) == RunMulligans(old(state), q, shuffle)
        invariant crashed ==> RunMulligans(old(state), q, shuffle).Crashed?
      {
        assert q[i..][0] == q[i] && q[i..][1..] == q[i + 1..];
        match MulliganStep(state, q[i].0, q[i].1, shuffle) {
          case Crashed => crashed := true;
          case Running(t) => state := t;
        }
        i := i + 1;
      }
    }

    /** The PutCardsBottomCommand loop. */
    method PutBottoms() returns (crashed: bool)
      modifies this
      ensures crashed <==> RunPutBottoms(old(state), PutBottomQueue(old(state))).Crashed?
      ensures !crashed ==> Running(state) == RunPutBottoms(old(state), PutBottomQueue(old(state)))
    {
      var b := PutBottomQueue(state);
      var i := 0;
      crashed := false;
      while i < |b| && !crashed
        invariant 0 <= i <= |b|
        invariant !crashed ==> RunPutBottoms(state, b[i..]) == RunPutBottoms(old(state), b)
        invariant crashed ==> RunPutBottoms(old(state), b).Crashed?
      {
        assert b[i..][0] == b[i] && b[i..][1..] == b[i + 1..];
        match PutBottomStep(state, b[i].0, b[i].1) {
          case Crashed => crashed := true;
          case Running(t) => state := t;
        }
        i := i + 1;
      }
    }

    /** The KeepHandCommand loop. */
    method Keeps()
      modifies this
      ensures state == RunKeeps(old(state), KeepQueue(old(state)))
    {
      var k := KeepQueue(state);
      var i := 0;
      while i < |k|
        invariant 0 <= i <= |k|
        invariant RunKeeps(state, k[i..]) == RunKeeps(old(state), k)
      {
        assert k[i..][0] == k[i] && k[i..][1..] == k[i + 1..];
        KeepOne(k[i].0, k[i].1);
        i := i + 1;
      }
    }

    /** The processors after the latch, in order; `crashed` when one of them raises. */
    method RunSystems(shuffle: Shuffler) returns (crashed: bool)
      modifies this
      ensures crashed <==> Systems(old(state), shuffle).Crashed?
      ensures !crashed ==> Running(state) == Systems(old(state), shuffle)
    {
      crashed := PlayCards();
      if crashed {
        return;
      }
      TapLands();
      crashed := Attacks();
      if crashed {
        return;
      }
      crashed := EndTurns();
      if crashed {
        return;
      }
      crashed := Mulligans(shuffle);
    }

    /**
     * One tick: the game-over latch, which may rebuild the world, then the
     * other processors in order; `crashed` when an uncaught error ends the
     * game loop.
     */
    method Tick(g: GameOverSystem, delayElapsed: bool, shuffle: Shuffler) returns (crashed: bool)
      modifies this, g
      ensures (Latch(g.gameIsOver, g.timerRunning), if crashed then Crashed else Running(state))
           == TickStep(Latch(old(g.gameIsOver), old(g.timerRunning)), old(state), delayElapsed, shuffle)
    {
      var o := g.Process(state, delayElapsed, shuffle);
      if o.Crashed? {
        return true;
      }
      state := o.s;
      crashed := RunSystems(shuffle);
    }
  }

  // ----- properties -----

  /** With no command queued the command queues of the processors are empty. */
  lemma NoCommandsNoQueues(s: State)
    requires s.commands == map[]
    ensures PlayCardQueue(s) == [] && TapLandQueue(s) == [] && AttackQueue(s) == []
    ensures BlockQueue(s) == [] && EndTurnQueue(s) == []
  {
    assert PlayCardQueue(s) == [] by { assert |PlayCardQueue(s)| == 0; }
  }

  /**
   * A quiet world stays as it is: with the latch idle, no command queued,
   * no `GameOver` record and the game past the MULLIGAN phase, a tick
   * changes nothing.
   */
  lemma QuietTick(s: State, delayElapsed: bool, shuffle: Shuffler)
    requires s.commands == map[] && s.gameOvers == map[] && !InMulliganPhase(s)
    ensures TickStep(Idle, s, delayElapsed, shuffle) == (Idle, Running(s))
  {
    NoCommandsNoQueues(s);
  }

  /**
   * The latch does not stop play: while a finished game waits for its
   * reset, the other processors still run on the world exactly as in a
   * game that is not over.
   */
  lemma LatchedGamePlaysOn(l: Latch, s: State, shuffle: Shuffler)
    requires l.gameIsOver
    ensures TickStep(l, s, false, shuffle) == (l, Systems(s, shuffle))
  {
  }
}
