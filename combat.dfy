/**
 * `AttackSystem` (src/server/systems.py): the active player declares
 * attackers, the defending player declares blockers, and combat damage is
 * dealt.  All DeclareAttackersCommands of a tick are handled before the
 * DeclareBlockersCommands.
 */
module CombatRules {
  import opened Components
  import opened Ecs
  import opened GraveyardRules

  // ----- declaring attackers -----

  /** An attacker the declaration keeps: existing, owned by `p`, untapped and not summoning-sick. */
  predicate Eligible(s: State, p: Entity, x: Entity) {
    && Exists(s, x) && x in s.owners && s.owners[x] == p
    && !Has(s, x, Tapped) && !Has(s, x, SummoningSickness)
  }

  /**
   * The declared ids that may attack, in declared order, or `None` when an
   * existing id has no `Owner` (the lookup raises a KeyError that aborts the
   * whole declaration).
   */
  function FilterAttackers(s: State, p: Entity, ids: seq<Entity>): (r: Option<seq<Entity>>)
    ensures r.None? <==> exists i :: 0 <= i < |ids| && Exists(s, ids[i]) && ids[i] !in s.owners
    ensures r.Some? ==> forall x :: x in r.value <==> x in ids && Eligible(s, p, x)
  {
    if ids == [] then Some([])
    else
      var x := ids[0];
      assert forall i :: 1 <= i < |ids| ==> ids[i] == ids[1..][i - 1];
      if Exists(s, x) && x !in s.owners then None
      else
        match FilterAttackers(s, p, ids[1..])
        case None => None
        case Some(rest) => Some(if Eligible(s, p, x) then [x] + rest else rest)
  }

  /** The `Attacking` and `Tapped` markers the attackers in `valid` receive. */
  function Engage(s: State, valid: seq<Entity>): State {
    s.(marks := s.marks + (set x | x in valid :: (x, Attacking)) + (set x | x in valid :: (x, Tapped)),
       alive := s.alive + set x | x in valid)
  }

  /**
   * `_handle_declare_attackers`.  Refused off turn.  An attacker list that
   * cannot be iterated ends the game loop; a KeyError on an owner lookup is
   * reported as CreatureNotFound.  Otherwise the eligible ids attack.
   */
  function Declare(s: State, cmd: DeclareAttackersCommand): (r: Outcome)
    ensures !Has(s, cmd.player, ActiveTurn) ==>
      r == Running(s.(events := s.events + [ActionError(cmd.player, NotYourTurn)]))
  {
    var p := cmd.player;
    if !Has(s, p, ActiveTurn) then Running(Error(s, p, NotYourTurn))
    else
      match cmd.attackers
      case None => Crashed
      case Some(ids) =>
        match FilterAttackers(s, p, ids)
        case None => Running(Error(s, p, CreatureNotFound))
        case Some(valid) => Running(Attack(s, p, valid))
  }

  /**
   * The declaration of the attackers `valid` by `p`: with none, combat
   * resolves at once; otherwise they are marked and the first other player
   * in query order (when it is not the falsy id 0) is asked for blockers.
   */
  function Attack(s: State, p: Entity, valid: seq<Entity>): State {
    if valid == [] then Emit(s, CombatResolved)
    else
      var s1 := Engage(s, valid);
      match FirstOther(PlayerList(s1), p)
      case None => s1
      case Some(o) =>
        if o == 0 then s1
        else Emit(AddMark(s1, o, WaitingForBlockers), BlockersPhaseStarted(valid))
  }

  // ----- declaring blockers -----

  /**
   * The combat map of `_resolve_combat`: the `Attacking` entities in query
   * order and the blockers assigned to each, in assignment order.
   */
  datatype Combat = Combat(order: seq<Entity>, blockers: map<Entity, seq<Entity>>)

  /** Every attacker of `order`, none blocked yet. */
  function NewCombat(order: seq<Entity>): (c: Combat)
    ensures c.order == order && c.blockers.Keys == set x | x in order
    ensures forall x :: x in c.blockers ==> c.blockers[x] == []
  {
    Combat(order, map x | x in order :: [])
  }

  /** Whether `b` blocks some attacker of `c`. */
  predicate Blocking(c: Combat, b: Entity) {
    exists x :: x in c.blockers && b in c.blockers[x]
  }

  /**
   * A block of `at` by `b` that the declarer `d` may make: `at` attacks, and
   * `b` is an untapped card owned by `d`.  Nothing checks that `b` is a
   * minion: a blocker without health stops the damage step (see `Clash`).
   */
  predicate Acceptable(s: State, d: Entity, c: Combat, b: Entity, at: Entity) {
    at in c.blockers && b in s.owners && s.owners[b] == d && !Has(s, b, Tapped)
  }

  /**
   * The checks of one entry of `blocks`, in order: the attacker must be in
   * the combat map, the blocker must have an `Owner` (the failing lookup
   * raises a KeyError that is caught and reported), belong to the declarer
   * and be untapped.  `None` when the block stands.
   */
  function BlockRefusal(s: State, d: Entity, c: Combat, b: Entity, at: Entity): (r: Option<ErrorReason>)
    ensures r.None? <==> Acceptable(s, d, c, b, at)
  {
    if at !in c.blockers then Some(NotAttacking(at))
    else if b !in s.owners then Some(BlockerAssignFailed)
    else if s.owners[b] != d then Some(NotYourCreature(b))
    else if Has(s, b, Tapped) then Some(BlockerTapped(b))
    else None
  }

  /** One entry of `blocks`: refused with an ACTION_ERROR, or the blocker is tapped and joins the attacker's list. */
  function AssignBlock(s: State, d: Entity, b: Entity, at: Entity, c: Combat): (r: (State, Combat))
    ensures r.1.order == c.order && r.1.blockers.Keys == c.blockers.Keys
  {
    match BlockRefusal(s, d, c, b, at)
    case Some(why) => (Error(s, d, why), c)
    case None => (AddMark(s, b, Tapped), c.(blockers := c.blockers[at := c.blockers[at] + [b]]))
  }

  /** Every entry of `blocks`, in order. */
  function AssignBlocks(s: State, d: Entity, blocks: seq<(Entity, Entity)>, c: Combat): (r: (State, Combat))
    ensures r.1.order == c.order && r.1.blockers.Keys == c.blockers.Keys
    decreases |blocks|
  {
    if blocks == [] then (s, c)
    else
      var step := AssignBlock(s, d, blocks[0].0, blocks[0].1, c);
      AssignBlocks(step.0, d, blocks[1..], step.1)
  }

  // ----- combat damage -----

  /**
   * Where the damage step stands: still going (with the health the
   * defender's `Player` record holds, which the step keeps updating even if
   * the entity were gone), stopped by a KeyError (caught and reported by the
   * system), or stopped by a TypeError (arithmetic on a missing attack or
   * health), which ends the game loop.
   */
  datatype Flow = Going(s: State, defenderHealth: int) | KeyFailed(s: State) | TypeFailed

  /** A creature whose health (as its record holds it) is at or below zero goes to the graveyard. */
  function Slay(s: State, x: Entity, health: Option<int>, dh: int): (r: Flow)
    ensures r.TypeFailed? <==> Exists(s, x) && health.None?
    ensures r.Going? ==> r.defenderHealth == dh
  {
    if !Exists(s, x) then Going(s, dh)
    else
      match health
      case None => TypeFailed
      case Some(h) => Going(if h <= 0 then MoveToGraveyard(s, x) else s, dh)
  }

  /**
   * An unblocked attacker deals its attack to the defender `d` and reports
   * the defender's new health.
   */
  function HitDefender(s: State, d: Entity, at: Entity, dh: int): (r: Flow)
    requires at in s.cards
  {
    match s.cards[at].attack
    case None => TypeFailed
    case Some(atk) =>
      var h := dh - atk;
      var s1 := if d in s.players then SetPlayerHealth(s, d, h) else s;
      Slay(Emit(s1, PlayerDamaged(d, h, FromAttacker(at))), at, s.cards[at].health, h)
  }

  /**
   * An attacker and its blocker exchange damage: the blocker loses the
   * attacker's attack, then the attacker loses the blocker's attack (read
   * from the same records, so a creature blocking itself takes both), a
   * CARD_ATTACKED event reports the new healths and each creature at or
   * below zero goes to the graveyard, the blocker first.
   */
  function Clash(s: State, at: Entity, b: Entity, dh: int): (r: Flow)
    requires at in s.cards && b in s.cards
  {
    if s.cards[b].health.None? || s.cards[at].attack.None? then TypeFailed
    else
      var s1 := SetCardHealth(s, b, s.cards[b].health.value - s.cards[at].attack.value);
      if s1.cards[at].health.None? || s1.cards[b].attack.None? then TypeFailed
      else
        var s2 := SetCardHealth(s1, at, s1.cards[at].health.value - s1.cards[b].attack.value);
        Settle(Emit(s2, CardAttacked(at, b, s2.cards[at].health.value, s2.cards[b].health.value)), at, b, dh)
  }

  /** After a clash, the blocker, then the attacker, goes to the graveyard at or below zero health. */
  function Settle(s: State, at: Entity, b: Entity, dh: int): Flow
    requires at in s.cards && b in s.cards && s.cards[at].health.Some? && s.cards[b].health.Some?
  {
    var s1 := if Exists(s, b) && s.cards[b].health.value <= 0 then MoveToGraveyard(s, b) else s;
    Slay(s1, at, s.cards[at].health, dh)
  }

  /**
   * One entry of the combat map.  An attacker that no longer exists is
   * skipped, and so is a blocked attacker whose first blocker no longer
   * exists; only the first blocker fights.
   */
  function Fight(s: State, d: Entity, at: Entity, bl: seq<Entity>, dh: int): Flow {
    if !Exists(s, at) then Going(s, dh)
    else if at !in s.cards then KeyFailed(s)
    else if bl == [] then HitDefender(s, d, at, dh)
    else if !Exists(s, bl[0]) then Going(s, dh)
    else if bl[0] !in s.cards then KeyFailed(s)
    else Clash(s, at, bl[0], dh)
  }

  /** The damage loop over the attackers of `order`. */
  function Fights(s: State, d: Entity, order: seq<Entity>, c: Combat, dh: int): Flow
    requires forall x :: x in order ==> x in c.blockers
    decreases |order|
  {
    if order == [] then Going(s, dh)
    else
      match Fight(s, d, order[0], c.blockers[order[0]], dh)
      case Going(t, h) => Fights(t, d, order[1..], c, h)
      case KeyFailed(t) => KeyFailed(t)
      case TypeFailed => TypeFailed
  }

  /** The cleanup: every attacker of `order` that still exists loses `Attacking`; `None` on a KeyError. */
  function Disengage(s: State, order: seq<Entity>): (r: Option<State>)
    decreases |order|
  {
    if order == [] then Some(s)
    else if !Exists(s, order[0]) then Disengage(s, order[1..])
    else if !Has(s, order[0], Attacking) then None
    else Disengage(RemoveMark(s, order[0], Attacking), order[1..])
  }

  /**
   * `_resolve_combat`.  Refused unless the declarer waits for blockers.
   * With no `ActiveTurn` holder (or the falsy id 0) nothing happens and
   * `WaitingForBlockers` stays.  Otherwise `WaitingForBlockers` is removed,
   * the blocks are assigned, damage is dealt, `Attacking` is cleared,
   * COMBAT_RESOLVED is sent, and a defender at or below zero health makes
   * the active player the winner if no game over is recorded yet.  A
   * declarer without a `Player` record raises a KeyError after the blocks
   * are assigned.
   */
  function ResolveCombat(s: State, cmd: DeclareBlockersCommand): (r: Flow)
    ensures !Has(s, cmd.player, WaitingForBlockers) ==>
      r == Going(s.(events := s.events + [ActionError(cmd.player, NotBlockingPhase)]), 0)
  {
    var d := cmd.player;
    if !Has(s, d, WaitingForBlockers) then Going(Error(s, d, NotBlockingPhase), 0)
    else
      match FirstHolder(s, ActiveTurn)
      case None => Going(s, 0)
      case Some(a) =>
        if a == 0 then Going(s, 0)
        else Battle(RemoveMark(s, d, WaitingForBlockers), d, a, cmd.blocks)
  }

  /**
   * Combat proper, once `WaitingForBlockers` is removed from the defender
   * `d`, with `a` the active player: the combat map of the `Attacking`
   * entities, the block assignment, the damage and the cleanup.
   */
  function Battle(s: State, d: Entity, a: Entity, blocks: seq<(Entity, Entity)>): Flow {
    var order := Ascending(Holders(s, Attacking));
    var placed := AssignBlocks(s, d, blocks, NewCombat(order));
    var s1 := placed.0;
    if d !in s1.players then KeyFailed(s1)
    else
      match Fights(s1, d, order, placed.1, s1.players[d].health)
      case KeyFailed(t) => KeyFailed(t)
      case TypeFailed => TypeFailed
      case Going(t, dh) =>
        match Disengage(t, order)
        case None => KeyFailed(t)
        case Some(u) => Going(Conclude(u, a, dh), dh)
  }

  /**
   * The end of combat: COMBAT_RESOLVED is sent and, when the defender's
   * health `dh` is at or below zero and no game over is recorded yet, a new
   * `GameOver` entity names the active player `a` as the winner; otherwise
   * the game-over records stay as they are.
   */
  function Conclude(s: State, a: Entity, dh: int): (r: State)
    ensures r.events == s.events + [CombatResolved] && r.marks == s.marks
    ensures dh <= 0 && s.gameOvers == map[] ==> r.gameOvers == map[s.nextId := a] && r.nextId == s.nextId + 1
    ensures !(dh <= 0 && s.gameOvers == map[]) ==> r.gameOvers == s.gameOvers && r.nextId == s.nextId
  {
    var s1 := Emit(s, CombatResolved);
    if dh <= 0 && s1.gameOvers == map[] then CreateGameOver(s1, a) else s1
  }

  // ----- the system -----

  /** One DeclareAttackersCommand; the command entity is deleted unless the loop died. */
  function DeclareAttackersStep(s: State, cmdEnt: Entity, cmd: DeclareAttackersCommand): (r: Outcome)
    ensures r.Running? ==> !Exists(r.s, cmdEnt)
  {
    match Declare(s, cmd)
    case Crashed => Crashed
    case Running(t) => Running(DeleteEntity(t, cmdEnt))
  }

  /** One DeclareBlockersCommand; a KeyError is reported as BlockersFailed; the command entity is deleted. */
  function DeclareBlockersStep(s: State, cmdEnt: Entity, cmd: DeclareBlockersCommand): (r: Outcome)
    ensures r.Running? ==> !Exists(r.s, cmdEnt)
  {
    match ResolveCombat(s, cmd)
    case TypeFailed => Crashed
    case KeyFailed(t) => Running(DeleteEntity(Error(t, cmd.player, BlockersFailed), cmdEnt))
    case Going(t, _) => Running(DeleteEntity(t, cmdEnt))
  }

  function AttackQueue(s: State): (q: seq<(Entity, DeclareAttackersCommand)>)
    ensures forall i :: 0 <= i < |q| ==> q[i].0 in s.commands && s.commands[q[i].0] == DeclareAttackers(q[i].1)
  {
    var ids := CommandIds(s, (c: Command) => c.DeclareAttackers?);
    seq(|ids|, i requires 0 <= i < |ids| => (ids[i], s.commands[ids[i]].attack))
  }

  function BlockQueue(s: State): (q: seq<(Entity, DeclareBlockersCommand)>)
    ensures forall i :: 0 <= i < |q| ==> q[i].0 in s.commands && s.commands[q[i].0] == DeclareBlockers(q[i].1)
  {
    var ids := CommandIds(s, (c: Command) => c.DeclareBlockers?);
    seq(|ids|, i requires 0 <= i < |ids| => (ids[i], s.commands[ids[i]].blockers))
  }

  function RunAttacks(s: State, q: seq<(Entity, DeclareAttackersCommand)>): Outcome
    decreases |q|
  {
    if q == [] then Running(s)
    else
      match DeclareAttackersStep(s, q[0].0, q[0].1)
      case Crashed => Crashed
      case Running(t) => RunAttacks(t, q[1..])
  }

  function RunBlocks(s: State, q: seq<(Entity, DeclareBlockersCommand)>): Outcome
    decreases |q|
  {
    if q == [] then Running(s)
    else
      match DeclareBlockersStep(s, q[0].0, q[0].1)
      case Crashed => Crashed
      case Running(t) => RunBlocks(t, q[1..])
  }

  /** `AttackSystem.process`: the declarations of attackers, then those of blockers, each in query order. */
  function AttackSystem(s: State): Outcome {
    match RunAttacks(s, AttackQueue(s))
    case Crashed => Crashed
    case Running(t) => RunBlocks(t, BlockQueue(t))
  }

  // ----- properties -----

  /**
   * Declaring attackers marks exactly the eligible declared ids as
   * `Attacking` and `Tapped`; no record and no other marker but
   * `WaitingForBlockers` changes.
   */
  lemma AttackersMarked(s: State, cmd: DeclareAttackersCommand)
    requires Has(s, cmd.player, ActiveTurn) && cmd.attackers.Some?
    requires FilterAttackers(s, cmd.player, cmd.attackers.value).Some?
    ensures var r := Declare(s, cmd);
      && r.Running?
      && r.s == s.(marks := r.s.marks, alive := r.s.alive, events := r.s.events)
      && (forall x :: Has(r.s, x, Attacking) <==> Has(s, x, Attacking) || (x in cmd.attackers.value && Eligible(s, cmd.player, x)))
      && (forall x :: Has(r.s, x, Tapped) <==> Has(s, x, Tapped) || (x in cmd.attackers.value && Eligible(s, cmd.player, x)))
      && (forall x, m :: m != Attacking && m != Tapped && m != WaitingForBlockers ==> (Has(r.s, x, m) <==> Has(s, x, m)))
  {
    var p := cmd.player;
    var valid := FilterAttackers(s, p, cmd.attackers.value).value;
    assert Declare(s, cmd) == Running(Attack(s, p, valid));
    AttackMarks(s, p, valid);
  }

  /**
   * The attackers of `valid`, when there are any, gain `Attacking` and
   * `Tapped`; no record and no other marker but `WaitingForBlockers`
   * changes.
   */
  lemma AttackMarks(s: State, p: Entity, valid: seq<Entity>)
    ensures var r := Attack(s, p, valid);
      && r == s.(marks := r.marks, alive := r.alive, events := r.events)
      && (forall x :: Has(r, x, Attacking) <==> Has(s, x, Attacking) || x in valid)
      && (forall x :: Has(r, x, Tapped) <==> Has(s, x, Tapped) || x in valid)
      && (forall x, m :: m != Attacking && m != Tapped && m != WaitingForBlockers ==> (Has(r, x, m) <==> Has(s, x, m)))
  {
    if valid != [] {
      var s1 := Engage(s, valid);
      EngageMarks(s, valid);
      var o := FirstOther(PlayerList(s1), p);
      if o.Some? && o.value != 0 {
        assert Attack(s, p, valid) == Emit(AddMark(s1, o.value, WaitingForBlockers), BlockersPhaseStarted(valid));
        SummonMarks(s1, o.value, valid);
      } else {
        assert Attack(s, p, valid) == s1;
      }
    }
  }

  /** Asking `o` for blockers adds `WaitingForBlockers` to `o` and changes no record and no other marker. */
  lemma SummonMarks(s: State, o: Entity, valid: seq<Entity>)
    ensures var r := Emit(AddMark(s, o, WaitingForBlockers), BlockersPhaseStarted(valid));
      && r == s.(marks := r.marks, alive := r.alive, events := s.events + [BlockersPhaseStarted(valid)])
      && (forall x, m :: m != WaitingForBlockers ==> (Has(r, x, m) <==> Has(s, x, m)))
  {
    var r := Emit(AddMark(s, o, WaitingForBlockers), BlockersPhaseStarted(valid));
    assert r.marks == s.marks + {(o, WaitingForBlockers)};
  }

  /** The attackers of `valid` gain `Attacking` and `Tapped`; nothing else changes but the entity table. */
  lemma EngageMarks(s: State, valid: seq<Entity>)
    ensures var r := Engage(s, valid);
      && r == s.(marks := r.marks, alive := r.alive)
      && (forall x :: Has(r, x, Attacking) <==> Has(s, x, Attacking) || x in valid)
      && (forall x :: Has(r, x, Tapped) <==> Has(s, x, Tapped) || x in valid)
      && (forall x, m :: m != Attacking && m != Tapped ==> (Has(r, x, m) <==> Has(s, x, m)))
  {
    var r := Engage(s, valid);
    forall x
      ensures Has(r, x, Attacking) <==> Has(s, x, Attacking) || x in valid
      ensures Has(r, x, Tapped) <==> Has(s, x, Tapped) || x in valid
    {
      if x in valid {
        assert (x, Attacking) in (set y | y in valid :: (y, Attacking));
        assert (x, Tapped) in (set y | y in valid :: (y, Tapped));
      }
    }
  }

  /**
   * When none of the declared ids may attack, the declaration only sends
   * COMBAT_RESOLVED: no marker is added and nobody is asked for blockers.
   */
  lemma NoAttackers(s: State, cmd: DeclareAttackersCommand)
    requires Has(s, cmd.player, ActiveTurn) && cmd.attackers.Some?
    requires FilterAttackers(s, cmd.player, cmd.attackers.value).Some?
    requires forall x :: x in cmd.attackers.value ==> !Eligible(s, cmd.player, x)
    ensures Declare(s, cmd) == Running(s.(events := s.events + [CombatResolved]))
  {
    NoneEligible(s, cmd.player, cmd.attackers.value);
  }

  /** Filtering ids none of which may attack keeps none. */
  lemma {:induction false} NoneEligible(s: State, p: Entity, ids: seq<Entity>)
    requires forall x :: x in ids ==> !Eligible(s, p, x)
    ensures FilterAttackers(s, p, ids) == Some([]) || FilterAttackers(s, p, ids) == None
  {
    if ids != [] {
      assert forall x :: x in ids[1..] ==> x in ids;
      NoneEligible(s, p, ids[1..]);
    }
  }

  /**
   * With at least one attacker, the first other player in query order
   * (unless it is the id 0) receives `WaitingForBlockers` and a
   * BLOCKERS_PHASE_STARTED event lists the attackers; nobody else does.
   */
  lemma DefenderAsked(s: State, cmd: DeclareAttackersCommand)
    requires Has(s, cmd.player, ActiveTurn) && cmd.attackers.Some?
    requires FilterAttackers(s, cmd.player, cmd.attackers.value).Some?
    requires exists x :: x in cmd.attackers.value && Eligible(s, cmd.player, x)
    ensures var r := Declare(s, cmd);
      var valid := FilterAttackers(s, cmd.player, cmd.attackers.value).value;
      var o := FirstOther(PlayerList(s), cmd.player);
      var asked := o.Some? && o.value != 0;
      && r.Running?
      && (forall x :: Has(r.s, x, WaitingForBlockers) <==> Has(s, x, WaitingForBlockers) || (asked && x == o.value))
      && r.s.events == s.events + (if asked then [BlockersPhaseStarted(valid)] else [])
  {
    var p := cmd.player;
    var valid := FilterAttackers(s, p, cmd.attackers.value).value;
    var x :| x in cmd.attackers.value && Eligible(s, p, x);
    assert x in valid;
    assert Declare(s, cmd) == Running(Attack(s, p, valid));
    AttackSummons(s, p, valid);
    AttackAnnounces(s, p, valid);
  }

  /** A declaration with attackers asks the first other player, if not the id 0, for blockers. */
  lemma AttackSummons(s: State, p: Entity, valid: seq<Entity>)
    requires valid != []
    ensures var r := Attack(s, p, valid);
      var o := FirstOther(PlayerList(s), p);
      forall x :: Has(r, x, WaitingForBlockers) <==> Has(s, x, WaitingForBlockers) || (o.Some? && o.value != 0 && x == o.value)
  {
    EngageMarks(s, valid);
    assert PlayerList(Engage(s, valid)) == PlayerList(s);
    var o := FirstOther(PlayerList(s), p);
    if o.Some? && o.value != 0 {
      Summoned(s, p, valid, o.value);
    }
  }

  /** The asked player is the one new `WaitingForBlockers` holder. */
  lemma Summoned(s: State, p: Entity, valid: seq<Entity>, o: Entity)
    requires valid != [] && FirstOther(PlayerList(Engage(s, valid)), p) == Some(o) && o != 0
    ensures forall x :: Has(Attack(s, p, valid), x, WaitingForBlockers) <==> Has(s, x, WaitingForBlockers) || x == o
  {
    var s1 := Engage(s, valid);
    assert forall x :: Has(s1, x, WaitingForBlockers) <==> Has(s, x, WaitingForBlockers);
    assert Attack(s, p, valid).marks == s1.marks + {(o, WaitingForBlockers)};
  }

  /** ... and announces the attackers in a BLOCKERS_PHASE_STARTED event exactly when it asks. */
  lemma AttackAnnounces(s: State, p: Entity, valid: seq<Entity>)
    requires valid != []
    ensures var o := FirstOther(PlayerList(s), p);
      Attack(s, p, valid).events == s.events + (if o.Some? && o.value != 0 then [BlockersPhaseStarted(valid)] else [])
  {
    assert PlayerList(Engage(s, valid)) == PlayerList(s);
  }

  // ----- properties of the block assignment -----

  /** Every blocker assigned in `c` is tapped in `s` and is a card owned by `d`. */
  ghost predicate BlockersHeld(s: State, d: Entity, c: Combat) {
    forall x, b :: x in c.blockers && b in c.blockers[x] ==> Has(s, b, Tapped) && b in s.owners && s.owners[b] == d
  }

  /** A refused block reports why and changes nothing else. */
  lemma BlockRefused(s: State, d: Entity, b: Entity, at: Entity, c: Combat)
    requires !Acceptable(s, d, c, b, at)
    ensures var r := AssignBlock(s, d, b, at, c);
      r.1 == c && r.0 == s.(events := s.events + [ActionError(d, BlockRefusal(s, d, c, b, at).value)])
  {
  }

  /** One block keeps every record, taps the accepted blocker and touches no other marker. */
  lemma BlockMarks(s: State, d: Entity, b: Entity, at: Entity, c: Combat)
    requires BlockersHeld(s, d, c)
    ensures var r := AssignBlock(s, d, b, at, c);
      && r.0 == s.(marks := r.0.marks, alive := r.0.alive, events := r.0.events)
      && BlockersHeld(r.0, d, r.1)
      && (forall x, m :: m != Tapped ==> (Has(r.0, x, m) <==> Has(s, x, m)))
      && (forall x :: Has(r.0, x, Tapped) <==> Has(s, x, Tapped) || Blocking(r.1, x))
  {
    var r := AssignBlock(s, d, b, at, c);
    if Acceptable(s, d, c, b, at) {
      assert r.0 == AddMark(s, b, Tapped);
      BlockingGrows(c, at, b);
      forall x, y | x in r.1.blockers && y in r.1.blockers[x]
        ensures Has(r.0, y, Tapped) && y in r.0.owners && r.0.owners[y] == d
      {
        if y != b {
          assert x in c.blockers && y in c.blockers[x];
          assert Has(s, y, Tapped);
        }
      }
      forall x | Blocking(c, x)
        ensures Has(s, x, Tapped)
      {
        var y :| y in c.blockers && x in c.blockers[y];
      }
    } else {
      BlockRefused(s, d, b, at, c);
      assert r.1 == c && r.0.marks == s.marks && r.0.owners == s.owners;
      forall x, y | x in c.blockers && y in c.blockers[x]
        ensures Has(r.0, y, Tapped) && y in r.0.owners && r.0.owners[y] == d
      {
        assert Has(s, y, Tapped);
      }
      forall x | Blocking(c, x)
        ensures Has(s, x, Tapped)
      {
        var y :| y in c.blockers && x in c.blockers[y];
      }
    }
  }

  /** Adding `b` to the list of `at` makes `b` a blocker and nobody else. */
  lemma BlockingGrows(c: Combat, at: Entity, b: Entity)
    requires at in c.blockers
    ensures forall x :: Blocking(c.(blockers := c.blockers[at := c.blockers[at] + [b]]), x) <==> Blocking(c, x) || x == b
  {
    var c1 := c.(blockers := c.blockers[at := c.blockers[at] + [b]]);
    assert b in c1.blockers[at];
    forall x | Blocking(c1, x) && x != b
      ensures Blocking(c, x)
    {
      var y :| y in c1.blockers && x in c1.blockers[y];
      assert x in c.blockers[y];
    }
    forall x | Blocking(c, x)
      ensures Blocking(c1, x)
    {
      var y :| y in c.blockers && x in c.blockers[y];
      assert x in c1.blockers[y];
    }
  }

  /** One block adds at most its own blocker, and only when the block stands. */
  lemma BlockChoice(s: State, d: Entity, b: Entity, at: Entity, c: Combat)
    ensures var r := AssignBlock(s, d, b, at, c);
      && (forall x :: Blocking(r.1, x) <==> Blocking(c, x) || (x == b && Acceptable(s, d, c, b, at)))
  {
    if Acceptable(s, d, c, b, at) {
      BlockingGrows(c, at, b);
    }
  }

  /** Blockers once assigned stay assigned. */
  lemma {:induction false} AssignBlocksGrow(s: State, d: Entity, blocks: seq<(Entity, Entity)>, c: Combat)
    ensures forall x :: Blocking(c, x) ==> Blocking(AssignBlocks(s, d, blocks, c).1, x)
    decreases |blocks|
  {
    if blocks != [] {
      var step := AssignBlock(s, d, blocks[0].0, blocks[0].1, c);
      BlockChoice(s, d, blocks[0].0, blocks[0].1, c);
      AssignBlocksGrow(step.0, d, blocks[1..], step.1);
    }
  }

  /**
   * Assigning the blocks keeps every record, taps exactly the assigned
   * blockers (each a card owned by the declarer) and touches no other marker.
   */
  lemma {:induction false} AssignBlocksMarks(s: State, d: Entity, blocks: seq<(Entity, Entity)>, c: Combat)
    requires BlockersHeld(s, d, c)
    ensures var r := AssignBlocks(s, d, blocks, c);
      && r.0 == s.(marks := r.0.marks, alive := r.0.alive, events := r.0.events)
      && BlockersHeld(r.0, d, r.1)
      && (forall x, m :: m != Tapped ==> (Has(r.0, x, m) <==> Has(s, x, m)))
      && (forall x :: Has(r.0, x, Tapped) <==> Has(s, x, Tapped) || Blocking(r.1, x))
    decreases |blocks|
  {
    if blocks != [] {
      var step := AssignBlock(s, d, blocks[0].0, blocks[0].1, c);
      BlockMarks(s, d, blocks[0].0, blocks[0].1, c);
      AssignBlocksMarks(step.0, d, blocks[1..], step.1);
      AssignBlocksGrow(step.0, d, blocks[1..], step.1);
    }
  }

  /**
   * Every blocker the assignment adds was an untapped card owned by the
   * declarer, named in an entry whose attacker attacks; and every entry that
   * names such a blocker and an attacker in the combat map is honoured.
   */
  lemma {:induction false} AssignBlocksChoice(s: State, d: Entity, blocks: seq<(Entity, Entity)>, c: Combat)
    requires BlockersHeld(s, d, c)
    ensures var r := AssignBlocks(s, d, blocks, c);
      && (forall x :: Blocking(r.1, x) && !Blocking(c, x) ==>
            !Has(s, x, Tapped) && x in s.owners && s.owners[x] == d
            && exists i :: 0 <= i < |blocks| && blocks[i].0 == x && blocks[i].1 in c.blockers)
      && (forall i :: 0 <= i < |blocks| && Acceptable(s, d, c, blocks[i].0, blocks[i].1) ==> Blocking(r.1, blocks[i].0))
    decreases |blocks|
  {
    if blocks != [] {
      var b, at := blocks[0].0, blocks[0].1;
      var step := AssignBlock(s, d, b, at, c);
      var r := AssignBlocks(s, d, blocks, c);
      assert r == AssignBlocks(step.0, d, blocks[1..], step.1);
      BlockMarks(s, d, b, at, c);
      BlockChoice(s, d, b, at, c);
      AssignBlocksMarks(step.0, d, blocks[1..], step.1);
      AssignBlocksGrow(step.0, d, blocks[1..], step.1);
      AssignBlocksChoice(step.0, d, blocks[1..], step.1);
      forall x | Blocking(r.1, x) && !Blocking(c, x)
        ensures !Has(s, x, Tapped) && x in s.owners && s.owners[x] == d
        ensures exists i :: 0 <= i < |blocks| && blocks[i].0 == x && blocks[i].1 in c.blockers
      {
        if Blocking(step.1, x) {
          assert blocks[0].0 == x;
        } else {
          var j :| 0 <= j < |blocks[1..]| && blocks[1..][j].0 == x && blocks[1..][j].1 in step.1.blockers;
          assert blocks[j + 1].0 == x;
        }
      }
      forall i | 0 <= i < |blocks| && Acceptable(s, d, c, blocks[i].0, blocks[i].1)
        ensures Blocking(r.1, blocks[i].0)
      {
        if i > 0 {
          assert blocks[i] == blocks[1..][i - 1];
          if !Acceptable(step.0, d, step.1, blocks[i].0, blocks[i].1) {
            assert Has(step.0, blocks[i].0, Tapped);
          }
        }
      }
    }
  }

  // ----- properties of the damage step -----

  /**
   * An unblocked attacker with health above zero lowers the defender's
   * health by exactly its attack and reports it; nothing else changes.
   */
  lemma UnblockedHit(s: State, d: Entity, at: Entity, dh: int)
    requires Exists(s, at) && at in s.cards
    requires s.cards[at].attack.Some? && s.cards[at].health.Some? && s.cards[at].health.value > 0
    ensures var k := s.cards[at].attack.value;
      var r := Fight(s, d, at, [], dh);
      && r.Going? && r.defenderHealth == dh - k
      && r.s.players == (if d in s.players then s.players[d := s.players[d].(health := dh - k)] else s.players)
      && r.s.cards == s.cards && r.s.marks == s.marks
      && r.s.events == s.events + [PlayerDamaged(d, dh - k, FromAttacker(at))]
  {
  }

  /** Both creatures of a clash are in their owners' graveyards' reach and can trade damage. */
  predicate Trading(s: State, at: Entity, b: Entity) {
    && at != b && Exists(s, at) && Exists(s, b) && at in s.cards && b in s.cards
    && HasGraveyard(s, at) && HasGraveyard(s, b)
    && s.cards[at].attack.Some? && s.cards[at].health.Some?
    && s.cards[b].attack.Some? && s.cards[b].health.Some?
  }

  /** The healths after a clash: each creature has lost the other's attack. */
  function Traded(s: State, at: Entity, b: Entity): map<Entity, CardInfo>
    requires Trading(s, at, b)
  {
    s.cards[b := s.cards[b].(health := Some(s.cards[b].health.value - s.cards[at].attack.value))]
           [at := s.cards[at].(health := Some(s.cards[at].health.value - s.cards[b].attack.value))]
  }

  /**
   * A blocked attacker and its blocker each lose the other's attack; the
   * players and the defender's health are untouched.
   */
  lemma ClashHealths(s: State, d: Entity, at: Entity, b: Entity, dh: int)
    requires Trading(s, at, b)
    ensures var r := Fight(s, d, at, [b], dh);
      && r.Going? && r.defenderHealth == dh && r.s.players == s.players
      && r.s.cards == Traded(s, at, b)
  {
    ClashSettles(s, d, at, b, dh);
    SettleKeeps(AfterClash(s, at, b), at, b, dh);
  }

  /** The world once both healths are lowered and the CARD_ATTACKED event is sent. */
  function AfterClash(s: State, at: Entity, b: Entity): (r: State)
    requires Trading(s, at, b)
    ensures Trading(r, at, b)
  {
    var cards := Traded(s, at, b);
    s.(cards := cards, events := s.events + [CardAttacked(at, b, cards[at].health.value, cards[b].health.value)])
  }

  /** A clash of two trading creatures is the exchange of damage followed by the settling. */
  lemma ClashSettles(s: State, d: Entity, at: Entity, b: Entity, dh: int)
    requires Trading(s, at, b)
    ensures Fight(s, d, at, [b], dh) == Settle(AfterClash(s, at, b), at, b, dh)
  {
    var s1 := SetCardHealth(s, b, s.cards[b].health.value - s.cards[at].attack.value);
    var s2 := SetCardHealth(s1, at, s1.cards[at].health.value - s1.cards[b].attack.value);
    assert s2.cards == Traded(s, at, b);
  }

  /**
   * A blocker without health (any card that is not a minion, such as a
   * land) cannot take damage: the clash raises a TypeError, which ends the
   * game loop.
   */
  lemma HealthlessBlockerStops(s: State, d: Entity, at: Entity, b: Entity, dh: int)
    requires Exists(s, at) && at in s.cards && Exists(s, b) && b in s.cards
    requires s.cards[b].health.None?
    ensures Fight(s, d, at, [b], dh) == TypeFailed
  {
  }

  /** A blocker at or below zero health after the clash ends in its owner's graveyard; otherwise its markers stay. */
  lemma BlockerFate(s: State, d: Entity, at: Entity, b: Entity, dh: int)
    requires Trading(s, at, b)
    ensures var r := Fight(s, d, at, [b], dh);
      var h := Traded(s, at, b)[b].health.value;
      && r.Going?
      && (h <= 0 ==> Has(r.s, b, InGraveyard) && !Has(r.s, b, OnBoard) && !Has(r.s, b, InHand))
      && (h > 0 ==> forall m :: Has(r.s, b, m) <==> Has(s, b, m))
  {
    ClashSettles(s, d, at, b, dh);
    var s3 := AfterClash(s, at, b);
    SettleKeeps(s3, at, b, dh);
    var s4 := if s3.cards[b].health.value <= 0 then MoveToGraveyard(s3, b) else s3;
    if s3.cards[b].health.value <= 0 {
      GraveyardMarks(s3, b);
      ToOwnGraveyard(s3, b);
    }
    assert Exists(s4, at) && HasGraveyard(s4, at);
    OthersKeepMarks(s4, at);
  }

  /** An attacker at or below zero health after the clash ends in its owner's graveyard; otherwise its markers stay. */
  lemma AttackerFate(s: State, d: Entity, at: Entity, b: Entity, dh: int)
    requires Trading(s, at, b)
    ensures var r := Fight(s, d, at, [b], dh);
      var h := Traded(s, at, b)[at].health.value;
      && r.Going?
      && (h <= 0 ==> Has(r.s, at, InGraveyard) && !Has(r.s, at, OnBoard) && !Has(r.s, at, InHand))
      && (h > 0 ==> forall m :: Has(r.s, at, m) <==> Has(s, at, m))
  {
    ClashSettles(s, d, at, b, dh);
    var s3 := AfterClash(s, at, b);
    SettleKeeps(s3, at, b, dh);
    var s4 := if s3.cards[b].health.value <= 0 then MoveToGraveyard(s3, b) else s3;
    if s3.cards[b].health.value <= 0 {
      ToOwnGraveyard(s3, b);
    }
    OthersKeepMarks(s3, b);
    assert Exists(s4, at) && HasGraveyard(s4, at);
    if s3.cards[at].health.value <= 0 {
      GraveyardMarks(s4, at);
    }
  }

  /** Settling a clash keeps the players and the card records. */
  lemma SettleKeeps(s: State, at: Entity, b: Entity, dh: int)
    requires Trading(s, at, b)
    ensures var r := Settle(s, at, b, dh);
      r.Going? && r.defenderHealth == dh && r.s.players == s.players && r.s.cards == s.cards
  {
    var s1 := if s.cards[b].health.value <= 0 then MoveToGraveyard(s, b) else s;
    if s.cards[b].health.value <= 0 {
      ToOwnGraveyard(s, b);
    }
    assert s1.players == s.players && s1.cards == s.cards && Exists(s1, at) && HasGraveyard(s1, at);
    SlayKeeps(s1, at, s.cards[at].health, dh);
  }

  /** A creature with health and a graveyard to go to is slain or spared without touching any record but graveyards. */
  lemma SlayKeeps(s: State, x: Entity, health: Option<int>, dh: int)
    requires Exists(s, x) && HasGraveyard(s, x) && health.Some?
    ensures var r := Slay(s, x, health, dh);
      r.Going? && r.defenderHealth == dh && r.s.players == s.players && r.s.cards == s.cards
  {
    if health.value <= 0 {
      ToOwnGraveyard(s, x);
    }
  }

  // ----- combat leaves no attacker behind -----

  /** Every marker of `t` other than `InGraveyard` was already in `s`. */
  ghost predicate OnlyBuried(s: State, t: State) {
    forall x, m :: Has(t, x, m) && m != InGraveyard ==> Has(s, x, m)
  }

  lemma SlayMarks(s: State, x: Entity, health: Option<int>, dh: int)
    requires Tracked(s)
    ensures var r := Slay(s, x, health, dh);
      r.Going? ==> Tracked(r.s) && OnlyBuried(s, r.s)
  {
    if Exists(s, x) && health.Some? && health.value <= 0 {
      MoveTracked(s, x);
      OnlyGraveyardMarkAdded(s, x);
    }
  }

  lemma HitMarks(s: State, d: Entity, at: Entity, dh: int)
    requires Tracked(s) && at in s.cards
    ensures var r := HitDefender(s, d, at, dh);
      r.Going? ==> Tracked(r.s) && OnlyBuried(s, r.s)
  {
    if s.cards[at].attack.Some? {
      var h := dh - s.cards[at].attack.value;
      var s2 := Emit(if d in s.players then SetPlayerHealth(s, d, h) else s, PlayerDamaged(d, h, FromAttacker(at)));
      assert HitDefender(s, d, at, dh) == Slay(s2, at, s.cards[at].health, h);
      DamageAlike(s, d, h, at);
      SlayAfter(s, s2, at, s.cards[at].health, h);
    }
  }

  /** A death in a world with the markers and the entity table of `s` is bounded by `s`'s markers. */
  lemma SlayAfter(s: State, s2: State, x: Entity, health: Option<int>, dh: int)
    requires Tracked(s) && s2.marks == s.marks && s2.alive == s.alive
    ensures var r := Slay(s2, x, health, dh);
      r.Going? ==> Tracked(r.s) && OnlyBuried(s, r.s)
  {
    TrackedAlike(s, s2);
    SlayMarks(s2, x, health, dh);
    var r := Slay(s2, x, health, dh);
    if r.Going? {
      BuriedAlike(s, s2, r.s);
    }
  }

  /** Reporting damage to the defender touches no marker and not the entity table. */
  lemma DamageAlike(s: State, d: Entity, h: int, at: Entity)
    ensures var s2 := Emit(if d in s.players then SetPlayerHealth(s, d, h) else s, PlayerDamaged(d, h, FromAttacker(at)));
      s2.marks == s.marks && s2.alive == s.alive
  {
  }

  /** Two worlds with the same markers bound the markers of a later world alike. */
  lemma BuriedAlike(s: State, s2: State, t: State)
    requires s.marks == s2.marks && OnlyBuried(s2, t)
    ensures OnlyBuried(s, t)
  {
    forall x, m | Has(t, x, m) && m != InGraveyard
      ensures Has(s, x, m)
    {
      assert Has(s2, x, m);
    }
  }

  lemma SettleMarks(s: State, at: Entity, b: Entity, dh: int)
    requires Tracked(s)
    requires at in s.cards && b in s.cards && s.cards[at].health.Some? && s.cards[b].health.Some?
    ensures var r := Settle(s, at, b, dh);
      r.Going? ==> Tracked(r.s) && OnlyBuried(s, r.s)
  {
    var s1 := if Exists(s, b) && s.cards[b].health.value <= 0 then MoveToGraveyard(s, b) else s;
    if Exists(s, b) && s.cards[b].health.value <= 0 {
      MoveTracked(s, b);
      OnlyGraveyardMarkAdded(s, b);
    }
    SlayMarks(s1, at, s.cards[at].health, dh);
  }

  lemma ClashMarks(s: State, at: Entity, b: Entity, dh: int)
    requires Tracked(s) && at in s.cards && b in s.cards
    ensures var r := Clash(s, at, b, dh);
      r.Going? ==> Tracked(r.s) && OnlyBuried(s, r.s)
  {
    if s.cards[b].health.Some? && s.cards[at].attack.Some? {
      var s1 := SetCardHealth(s, b, s.cards[b].health.value - s.cards[at].attack.value);
      if s1.cards[at].health.Some? && s1.cards[b].attack.Some? {
        var s2 := SetCardHealth(s1, at, s1.cards[at].health.value - s1.cards[b].attack.value);
        var s3 := Emit(s2, CardAttacked(at, b, s2.cards[at].health.value, s2.cards[b].health.value));
        TrackedAlike(s, s3);
        SettleMarks(s3, at, b, dh);
      }
    }
  }

  /** A fight adds no marker but `InGraveyard` and keeps marked entities in the table. */
  lemma FightMarks(s: State, d: Entity, at: Entity, bl: seq<Entity>, dh: int)
    requires Tracked(s)
    ensures var r := Fight(s, d, at, bl, dh);
      r.Going? ==> Tracked(r.s) && OnlyBuried(s, r.s)
  {
    if Exists(s, at) && at in s.cards {
      if bl == [] {
        HitMarks(s, d, at, dh);
      } else if Exists(s, bl[0]) && bl[0] in s.cards {
        ClashMarks(s, at, bl[0], dh);
      }
    }
  }

  lemma {:induction false} FightsMarks(s: State, d: Entity, order: seq<Entity>, c: Combat, dh: int)
    requires Tracked(s) && forall x :: x in order ==> x in c.blockers
    ensures var r := Fights(s, d, order, c, dh);
      r.Going? ==> Tracked(r.s) && OnlyBuried(s, r.s)
    decreases |order|
  {
    if order != [] {
      var f := Fight(s, d, order[0], c.blockers[order[0]], dh);
      FightMarks(s, d, order[0], c.blockers[order[0]], dh);
      if f.Going? {
        assert forall x :: x in order[1..] ==> x in order;
        FightsMarks(f.s, d, order[1..], c, f.defenderHealth);
      }
    }
  }

  /** The cleanup strips `Attacking` from every entity of `order` and adds no marker. */
  lemma {:induction false} DisengageClears(s: State, order: seq<Entity>)
    requires Tracked(s) && Disengage(s, order).Some?
    ensures var u := Disengage(s, order).value;
      && (forall x, m :: Has(u, x, m) ==> Has(s, x, m))
      && (forall x :: x in order ==> !Has(u, x, Attacking))
    decreases |order|
  {
    if order != [] {
      var y := order[0];
      assert forall x :: x in order ==> x == y || x in order[1..];
      if !Exists(s, y) {
        assert !Has(s, y, Attacking);
        DisengageClears(s, order[1..]);
      } else {
        var s1 := RemoveMark(s, y, Attacking);
        RemoveMarkTracked(s, y, Attacking);
        DisengageClears(s1, order[1..]);
      }
    }
  }

  /** Assigning blocks keeps marked entities in the table. */
  lemma {:induction false} AssignBlocksTracked(s: State, d: Entity, blocks: seq<(Entity, Entity)>, c: Combat)
    requires Tracked(s)
    ensures Tracked(AssignBlocks(s, d, blocks, c).0)
    decreases |blocks|
  {
    if blocks != [] {
      var b, at := blocks[0].0, blocks[0].1;
      var step := AssignBlock(s, d, b, at, c);
      if Acceptable(s, d, c, b, at) {
        AddMarkTracked(s, b, Tapped);
      } else {
        TrackedAlike(s, step.0);
      }
      AssignBlocksTracked(step.0, d, blocks[1..], step.1);
    }
  }

  /** When combat runs to its end, no entity keeps `Attacking`. */
  lemma CombatClearsAttacking(s: State, d: Entity, a: Entity, blocks: seq<(Entity, Entity)>)
    requires Tracked(s) && Battle(s, d, a, blocks).Going?
    ensures forall x :: !Has(Battle(s, d, a, blocks).s, x, Attacking)
  {
    var order := Ascending(Holders(s, Attacking));
    var placed := AssignBlocks(s, d, blocks, NewCombat(order));
    AssignBlocksMarks(s, d, blocks, NewCombat(order));
    AssignBlocksTracked(s, d, blocks, NewCombat(order));
    var s1 := placed.0;
    var f := Fights(s1, d, order, placed.1, s1.players[d].health);
    FightsMarks(s1, d, order, placed.1, s1.players[d].health);
    var u := Disengage(f.s, order).value;
    DisengageClears(f.s, order);
    assert Battle(s, d, a, blocks).s == Conclude(u, a, f.defenderHealth);
    forall x
      ensures !Has(u, x, Attacking)
    {
      if x !in order {
        assert x !in Holders(s, Attacking);
        assert !Has(s1, x, Attacking);
        assert !Has(f.s, x, Attacking);
      }
    }
    var r := Battle(s, d, a, blocks).s;
    assert r.marks == u.marks;
    assert forall x :: Has(r, x, Attacking) == Has(u, x, Attacking);
  }

  /**
   * A declaration of blockers that reaches the end of combat leaves no
   * entity `Attacking` (the defender's `WaitingForBlockers` is gone too).
   */
  lemma ResolvedCombatClears(s: State, cmd: DeclareBlockersCommand)
    requires Tracked(s) && Has(s, cmd.player, WaitingForBlockers)
    requires FirstHolder(s, ActiveTurn).Some? && FirstHolder(s, ActiveTurn).value != 0
    requires ResolveCombat(s, cmd).Going?
    ensures forall x :: !Has(ResolveCombat(s, cmd).s, x, Attacking)
  {
    RemoveMarkTracked(s, cmd.player, WaitingForBlockers);
    CombatClearsAttacking(RemoveMark(s, cmd.player, WaitingForBlockers), cmd.player, FirstHolder(s, ActiveTurn).value, cmd.blocks);
  }
}
