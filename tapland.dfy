/**
 * `TapLandSystem` (src/server/systems.py): tapping an untapped land of the
 * active player adds one to that player's mana.  The card is not required to
 * be owned by the player or to be on the board.
 */
module TapLandRules {
  import opened Components
  import opened Ecs

  /** The checks of one TapLandCommand, in order; `None` when it may be tapped. */
  function TapRefusal(s: State, cmd: TapLandCommand): (r: Option<ErrorReason>)
    ensures r.None? <==>
      && Has(s, cmd.player, ActiveTurn)
      && cmd.card in s.cards && s.cards[cmd.card].cardType == Land
      && !Has(s, cmd.card, Tapped)
      && cmd.player in s.players
    ensures r == Some(AlreadyTapped) <==>
      Has(s, cmd.player, ActiveTurn) && cmd.card in s.cards && s.cards[cmd.card].cardType == Land
      && Has(s, cmd.card, Tapped)
  {
    var p, c := cmd.player, cmd.card;
    if !Has(s, p, ActiveTurn) then Some(NotYourTurn)
    else if c !in s.cards then Some(MissingComponent)
    else if s.cards[c].cardType != Land then Some(NotALand)
    else if Has(s, c, Tapped) then Some(AlreadyTapped)
    else if p !in s.players then Some(MissingComponent)
    else None
  }

  /** The body of the `try` block: refuse, or add one mana and tap the land. */
  function TapAttempt(s: State, cmd: TapLandCommand): State {
    var p, c := cmd.player, cmd.card;
    match TapRefusal(s, cmd)
    case Some(why) => Error(s, p, why)
    case None =>
      var mana := s.players[p].mana + 1;
      Emit(AddMark(SetMana(s, p, mana), c, Tapped), ManaPoolUpdated(p, mana))
  }

  /** One TapLandCommand; the command entity is deleted in every case. */
  function TapLandStep(s: State, cmdEnt: Entity, cmd: TapLandCommand): (r: State)
    ensures !Exists(r, cmdEnt)
    ensures r.nextId == s.nextId
  {
    DeleteEntity(TapAttempt(s, cmd), cmdEnt)
  }

  /** The TapLandCommand entities in query order, each with its command. */
  function TapLandQueue(s: State): (q: seq<(Entity, TapLandCommand)>)
    ensures forall i :: 0 <= i < |q| ==> q[i].0 in s.commands && s.commands[q[i].0] == TapLand(q[i].1)
  {
    var ids := CommandIds(s, (c: Command) => c.TapLand?);
    seq(|ids|, i requires 0 <= i < |ids| => (ids[i], s.commands[ids[i]].tap))
  }

  /** Runs the queued commands in order. */
  function RunTapLands(s: State, q: seq<(Entity, TapLandCommand)>): State
    decreases |q|
  {
    if q == [] then s else RunTapLands(TapLandStep(s, q[0].0, q[0].1), q[1..])
  }

  /** `TapLandSystem.process`. */
  function TapLandSystem(s: State): State {
    RunTapLands(s, TapLandQueue(s))
  }

  // ----- properties -----

  /**
   * Tapping an untapped land of the active player raises that player's mana
   * by exactly one, taps the card, and changes no other player and no other
   * marker.
   */
  lemma TapGivesOneMana(s: State, cmdEnt: Entity, cmd: TapLandCommand)
    requires WellFormed(s) && cmdEnt in s.commands
    requires TapRefusal(s, cmd).None?
    ensures var r := TapLandStep(s, cmdEnt, cmd);
      && r.players == (s.players - {cmdEnt})[cmd.player := s.players[cmd.player].(mana := s.players[cmd.player].mana + 1)]
      && Has(r, cmd.card, Tapped)
      && (forall e, m :: e != cmdEnt && (e, m) != (cmd.card, Tapped) ==> (Has(r, e, m) <==> Has(s, e, m)))
      && r.events == s.events + [ManaPoolUpdated(cmd.player, s.players[cmd.player].mana + 1)]
  {
    var p, c := cmd.player, cmd.card;
    assert p != cmdEnt && c != cmdEnt;
    var t := TapAttempt(s, cmd);
    assert t.players == s.players[p := s.players[p].(mana := s.players[p].mana + 1)];
    assert t.marks == s.marks + {(c, Tapped)};
  }

  /**
   * A refused tap (not the sender's turn, not a land, already tapped, or a
   * missing record) reports an ACTION_ERROR and changes no mana and no
   * marker of any entity but the command.
   */
  lemma TapRefused(s: State, cmdEnt: Entity, cmd: TapLandCommand)
    requires TapRefusal(s, cmd).Some?
    ensures var r := TapLandStep(s, cmdEnt, cmd);
      && r.players == s.players - {cmdEnt}
      && (forall e, m :: e != cmdEnt ==> (Has(r, e, m) <==> Has(s, e, m)))
      && r.events == s.events + [ActionError(cmd.player, TapRefusal(s, cmd).value)]
  {
    var t := TapAttempt(s, cmd);
    assert t == Error(s, cmd.player, TapRefusal(s, cmd).value);
  }


  /** A step takes out its own command entity and leaves every other command as it was. */
  lemma StepCommands(s: State, cmdEnt: Entity, cmd: TapLandCommand)
    ensures TapLandStep(s, cmdEnt, cmd).commands == s.commands - {cmdEnt}
  {
    var t := TapAttempt(s, cmd);
    if TapRefusal(s, cmd).None? {
      var p := cmd.player;
      assert t == Emit(AddMark(SetMana(s, p, s.players[p].mana + 1), cmd.card, Tapped), ManaPoolUpdated(p, s.players[p].mana + 1));
    } else {
      assert t == Error(s, cmd.player, TapRefusal(s, cmd).value);
    }
    assert t.commands == s.commands;
    assert TapLandStep(s, cmdEnt, cmd) == Without(t, cmdEnt);
  }

  /** Running a queue takes out exactly the queued command entities. */
  lemma {:induction false} RunCommands(s: State, q: seq<(Entity, TapLandCommand)>)
    ensures RunTapLands(s, q).commands == s.commands - QueuedIds(q)
    decreases |q|
  {
    if q == [] {
      assert QueuedIds(q) == {};
    } else {
      var t := TapLandStep(s, q[0].0, q[0].1);
      StepCommands(s, q[0].0, q[0].1);
      RunCommands(t, q[1..]);
      QueuedIdsSplit(q);
    }
  }

  /**
   * The system consumes its queue: afterwards no TapLandCommand is left,
   * and every other command is still there unchanged.
   */
  lemma TapLandDrains(s: State)
    ensures var r := TapLandSystem(s);
      && (forall e :: e in r.commands ==> !r.commands[e].TapLand?)
      && (forall e :: e in s.commands && !s.commands[e].TapLand? ==> e in r.commands && r.commands[e] == s.commands[e])
  {
    var q := TapLandQueue(s);
    RunCommands(s, q);
    var ids := CommandIds(s, (c: Command) => c.TapLand?);
    assert |q| == |ids|;
    forall e | e in s.commands && s.commands[e].TapLand? ensures e in QueuedIds(q) {
      assert e in ids;
      var i :| 0 <= i < |ids| && ids[i] == e;
      assert q[i].0 == e;
    }
  }
}
