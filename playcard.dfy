/**
 * `PlayCardSystem` (src/server/systems.py): validates each PlayCardCommand,
 * then plays a land, a minion or a spell.
 */
module PlayCardRules {
  import opened Components
  import opened Ecs
  import opened GraveyardRules

  /** `_play_land`: one land per turn goes from the hand to the board, at no cost. */
  function PlayLand(s: State, p: Entity, c: Entity): (r: State)
    ensures Has(s, p, PlayedLandThisTurn) ==>
      SameRecords(s, r) && r.marks == s.marks && r.events == s.events + [ActionError(p, LandAlreadyPlayed)]
    ensures !Has(s, p, PlayedLandThisTurn) ==>
      && SameRecords(s, r)
      && Has(r, c, OnBoard) && !Has(r, c, InHand) && Has(r, p, PlayedLandThisTurn)
      && MarksAgreeExcept(s, r, {(c, OnBoard), (c, InHand), (p, PlayedLandThisTurn)})
      && r.events == s.events + [CardMoved(c)]
  {
    if Has(s, p, PlayedLandThisTurn) then Error(s, p, LandAlreadyPlayed)
    else
      var s1 := AddMark(AddMark(RemoveMark(s, c, InHand), c, OnBoard), p, PlayedLandThisTurn);
      Emit(s1, CardMoved(c))
  }

  /** `_play_minion`: pays the cost and puts the minion on the board with summoning sickness. */
  function PlayMinion(s: State, p: Entity, c: Entity): (r: State)
    requires p in s.players && c in s.cards
    ensures var mana := s.players[p].mana - s.cards[c].cost;
      && r.players == s.players[p := s.players[p].(mana := mana)]
      && SameRecords(s, r.(players := s.players))
      && Has(r, c, OnBoard) && Has(r, c, SummoningSickness) && !Has(r, c, InHand)
      && MarksAgreeExcept(s, r, {(c, OnBoard), (c, SummoningSickness), (c, InHand)})
      && r.events == s.events + [ManaPoolUpdated(p, mana), CardMoved(c)]
  {
    var mana := s.players[p].mana - s.cards[c].cost;
    var s1 := Emit(SetMana(s, p, mana), ManaPoolUpdated(p, mana));
    var s2 := AddMark(AddMark(RemoveMark(s1, c, InHand), c, OnBoard), c, SummoningSickness);
    Emit(s2, CardMoved(c))
  }

  /** Whether a spell's target requirement and the command's target agree. */
  predicate TargetFits(eff: SpellEffect, target: Option<Entity>) {
    eff.requiresTarget <==> target.Some?
  }

  /** Whether a damage spell's target is something it can hit: an existing player or card. */
  predicate Hittable(s: State, target: Option<Entity>) {
    target.Some? && Exists(s, target.value) && (target.value in s.players || target.value in s.cards)
  }

  /** The refusal a DEAL_DAMAGE spell gets for a target it cannot hit. */
  function Unhittable(s: State, target: Option<Entity>): ErrorReason {
    if target.None? || !Exists(s, target.value) then TargetMissing else BadTargetType
  }

  /**
   * `_play_spell`.  A target that the spell does not want (or a missing one
   * it needs) is refused before any mana is spent.  Otherwise the cost is
   * paid; a DEAL_DAMAGE spell whose target does not exist or is neither a
   * player nor a card is refused and the cost refunded.  Damage to a player
   * may end the game; damage to a card may kill it.  The spell then goes to
   * its owner's graveyard.
   */
  function PlaySpell(s: State, p: Entity, c: Entity, target: Option<Entity>, eff: SpellEffect): (r: Outcome)
    requires p in s.players && c in s.cards
    ensures !TargetFits(eff, target) ==>
      var why := if eff.requiresTarget then TargetRequired else TargetNotUsed;
      r == Running(s.(events := s.events + [ActionError(p, why)]))
  {
    if eff.requiresTarget && target.None? then Running(Error(s, p, TargetRequired))
    else if !eff.requiresTarget && target.Some? then Running(Error(s, p, TargetNotUsed))
    else
      var s1 := Pay(s, p, c);
      if eff.effectType != DealDamage then Running(MoveToGraveyard(s1, c))
      else if !Hittable(s1, target) then
        Running(SetMana(Error(s1, p, Unhittable(s1, target)), p, s.players[p].mana))
      else
        match Strike(s1, p, c, target.value, eff.value)
        case Crashed => Crashed
        case Running(s2) => Running(MoveToGraveyard(s2, c))
  }

  /** Charges player `p` the cost of card `c` and reports the new pool. */
  function Pay(s: State, p: Entity, c: Entity): (r: State)
    requires p in s.players && c in s.cards
  {
    var spent := s.players[p].mana - s.cards[c].cost;
    Emit(SetMana(s, p, spent), ManaPoolUpdated(p, spent))
  }

  /**
   * The damage of a resolved DEAL_DAMAGE spell: a player target loses
   * health and, at zero or below with no game over recorded yet, the caster
   * is recorded as the winner; a card target loses health (a card without
   * health cannot be damaged: the subtraction fails) and dies at zero or
   * below.
   */
  function Strike(s: State, p: Entity, c: Entity, t: Entity, damage: int): (r: Outcome)
    requires t in s.players || t in s.cards
    ensures t !in s.players && s.cards[t].health.None? <==> r.Crashed?
  {
    if t in s.players then
      var health := s.players[t].health - damage;
      var s1 := Emit(SetPlayerHealth(s, t, health), PlayerDamaged(t, health, FromSpell(c)));
      Running(if health <= 0 && s1.gameOvers == map[] then CreateGameOver(s1, p) else s1)
    else
      match s.cards[t].health
      case None => Crashed
      case Some(h) =>
        var s1 := SetCardHealth(s, t, h - damage);
        Running(if h - damage <= 0 then MoveToGraveyard(s1, t) else s1)
  }

  /**
   * The checks `PlayCardSystem.process` makes before playing a card, in
   * order; `None` when the command passes all of them.
   */
  function Validate(s: State, cmd: PlayCardCommand): (r: Option<ErrorReason>)
    ensures r.None? <==>
      && Has(s, cmd.player, ActiveTurn)
      && cmd.player in s.players && cmd.card in s.cards && cmd.card in s.owners
      && s.owners[cmd.card] == cmd.player
      && Has(s, cmd.card, InHand)
      && (s.cards[cmd.card].cardType == Land || s.players[cmd.player].mana >= s.cards[cmd.card].cost)
  {
    var p, c := cmd.player, cmd.card;
    if !Has(s, p, ActiveTurn) then Some(NotYourTurn)
    else if p !in s.players || c !in s.cards || c !in s.owners then Some(MissingComponent)
    else if s.owners[c] != p then Some(NotYourCard)
    else if !Has(s, c, InHand) then Some(NotInHand)
    else if s.cards[c].cardType != Land && s.players[p].mana < s.cards[c].cost then
      Some(NotEnoughMana(s.cards[c].cost, s.players[p].mana))
    else None
  }

  /** The body of the `try` block for one command, before the command is deleted. */
  function Attempt(s: State, cmd: PlayCardCommand): Outcome {
    var p, c := cmd.player, cmd.card;
    match Validate(s, cmd)
    case Some(why) => Running(Error(s, p, why))
    case None =>
      match s.cards[c].cardType
      case Land => Running(PlayLand(s, p, c))
      case Minion => Running(PlayMinion(s, p, c))
      case Spell =>
        if c in s.effects then PlaySpell(s, p, c, cmd.target, s.effects[c])
        else Running(Error(s, p, MissingComponent))
      case OtherType(_) => Running(Error(s, p, UnknownCardType))
  }

  /**
   * One PlayCardCommand: refused with an ACTION_ERROR and no change to mana
   * or card locations when a check fails, played otherwise; the command
   * entity is deleted in every case.
   */
  function PlayCardStep(s: State, cmdEnt: Entity, cmd: PlayCardCommand): (r: Outcome)
    ensures r.Running? ==> !Exists(r.s, cmdEnt)
    ensures Validate(s, cmd).Some? ==>
      && r.Running?
      && r.s.players == s.players - {cmdEnt}
      && r.s.cards == s.cards - {cmdEnt}
      && (forall e, m :: e != cmdEnt ==> (Has(r.s, e, m) <==> Has(s, e, m)))
      && r.s.events == s.events + [ActionError(cmd.player, Validate(s, cmd).value)]
  {
    match Attempt(s, cmd)
    case Crashed => Crashed
    case Running(t) => Running(DeleteEntity(t, cmdEnt))
  }

  /** The PlayCardCommand entities in query order, each with its command. */
  function PlayCardQueue(s: State): (q: seq<(Entity, PlayCardCommand)>)
    ensures forall i :: 0 <= i < |q| ==> q[i].0 in s.commands && s.commands[q[i].0] == PlayCard(q[i].1)
  {
    var ids := CommandIds(s, (c: Command) => c.PlayCard?);
    seq(|ids|, i requires 0 <= i < |ids| => (ids[i], s.commands[ids[i]].play))
  }

  /** Runs the queued commands in order; a crash ends the run. */
  function RunPlayCards(s: State, q: seq<(Entity, PlayCardCommand)>): Outcome
    decreases |q|
  {
    if q == [] then Running(s)
    else
      match PlayCardStep(s, q[0].0, q[0].1)
      case Crashed => Crashed
      case Running(t) => RunPlayCards(t, q[1..])
  }

  /** `PlayCardSystem.process`. */
  function PlayCardSystem(s: State): Outcome {
    RunPlayCards(s, PlayCardQueue(s))
  }

  // ----- properties -----

  /**
   * Paying changes only the payer's mana and the event queue: every
   * other record, every marker and the entity table stay as they were.
   */
  lemma PayFrame(s: State, p: Entity, c: Entity)
    requires p in s.players && c in s.cards
    ensures var r := Pay(s, p, c);
      && r == s.(players := r.players, events := r.events)
      && r.players == s.players[p := s.players[p].(mana := s.players[p].mana - s.cards[c].cost)]
      && (WellFormed(s) ==> WellFormed(r))
  {
  }

  /** A spell that fits its target and deals damage to something it can hit resolves through `Strike`. */
  lemma DamageSpellStrikes(s: State, p: Entity, c: Entity, target: Option<Entity>, eff: SpellEffect)
    requires p in s.players && c in s.cards
    requires TargetFits(eff, target) && eff.effectType == DealDamage && Hittable(Pay(s, p, c), target)
    ensures PlaySpell(s, p, c, target, eff) ==
      match Strike(Pay(s, p, c), p, c, target.value, eff.value)
      case Crashed => Crashed
      case Running(s2) => Running(MoveToGraveyard(s2, c))
  {
  }

  /**
   * Damage to a player: the health drops by the damage, the caster is
   * recorded as winner when it reaches zero and no game over exists yet,
   * and no card, owner, graveyard or marker changes.
   */
  lemma StrikePlayer(s: State, p: Entity, c: Entity, t: Entity, damage: int)
    requires t in s.players
    ensures var r := Strike(s, p, c, t, damage);
      var health := s.players[t].health - damage;
      && r.Running?
      && r.s.players == s.players[t := s.players[t].(health := health)]
      && r.s.cards == s.cards && r.s.owners == s.owners && r.s.graveyards == s.graveyards
      && r.s.marks == s.marks && s.alive <= r.s.alive
      && (health <= 0 && s.gameOvers == map[] ==> r.s.gameOvers == map[s.nextId := p])
      && (!(health <= 0 && s.gameOvers == map[]) ==> r.s.gameOvers == s.gameOvers)
  {
  }

  /**
   * A DEAL_DAMAGE spell aimed at a player lowers that player's health by the
   * spell's value, charges the caster the card's cost, and records the
   * caster as the winner when the target drops to zero or below and no game
   * over is recorded yet.
   */
  lemma SpellOnPlayer(s: State, p: Entity, c: Entity, target: Option<Entity>, eff: SpellEffect)
    requires p in s.players && c in s.cards && WellFormed(s)
    requires TargetFits(eff, target) && eff.effectType == DealDamage && Hittable(s, target)
    requires target.value in s.players
    ensures var r := PlaySpell(s, p, c, target, eff);
      var t := target.value;
      var paid := s.players[p].(mana := s.players[p].mana - s.cards[c].cost);
      var health := (if t == p then paid else s.players[t]).health - eff.value;
      && r.Running?
      && r.s.players == s.players[p := paid][t := (if t == p then paid else s.players[t]).(health := health)]
      && (health <= 0 && s.gameOvers == map[] ==> r.s.gameOvers == map[s.nextId := p])
      && (!(health <= 0 && s.gameOvers == map[]) ==> r.s.gameOvers == s.gameOvers)
  {
    var s1 := Pay(s, p, c);
    PayFrame(s, p, c);
    DamageSpellStrikes(s, p, c, target, eff);
    StrikePlayer(s1, p, c, target.value, eff.value);
    var s2 := Strike(s1, p, c, target.value, eff.value).s;
    ToOwnGraveyard(s2, c);
  }

  /**
   * Damage to a card with health lowers that health by the damage; players,
   * owners, the entity table and which players keep a graveyard are
   * untouched.
   */
  lemma StrikeCard(s: State, p: Entity, c: Entity, t: Entity, damage: int)
    requires t !in s.players && t in s.cards && s.cards[t].health.Some? && WellFormed(s)
    ensures var r := Strike(s, p, c, t, damage);
      var health := s.cards[t].health.value - damage;
      && r.Running?
      && r.s.players == s.players && r.s.cards == s.cards[t := s.cards[t].(health := Some(health))]
      && r.s.owners == s.owners && r.s.alive == s.alive && r.s.graveyards.Keys == s.graveyards.Keys
  {
    var health := s.cards[t].health.value - damage;
    var s1 := SetCardHealth(s, t, health);
    assert s1 == s.(cards := s1.cards);
    if health <= 0 {
      assert Exists(s1, t) && HasGraveyard(s1, t);
      ToOwnGraveyard(s1, t);
    }
  }

  /**
   * A card that damage brings to zero health or below goes to the
   * graveyard: `InGraveyard`, out of the hand and off the board.  No other
   * entity's markers change.
   */
  lemma StrikeKillsCard(s: State, p: Entity, c: Entity, t: Entity, damage: int)
    requires t !in s.players && t in s.cards && s.cards[t].health.Some? && WellFormed(s)
    requires s.cards[t].health.value - damage <= 0
    ensures var r := Strike(s, p, c, t, damage);
      && r.Running?
      && (forall e, m :: e != t ==> (Has(r.s, e, m) <==> Has(s, e, m)))
      && Has(r.s, t, InGraveyard) && !Has(r.s, t, InHand) && !Has(r.s, t, OnBoard)
  {
    var s1 := SetCardHealth(s, t, s.cards[t].health.value - damage);
    assert s1 == s.(cards := s1.cards);
    assert Exists(s1, t) && HasGraveyard(s1, t);
    GraveyardMarks(s1, t);
    OthersKeepMarks(s1, t);
  }

  /** A card that survives the damage keeps every marker, as does every other entity. */
  lemma StrikeWoundsCard(s: State, p: Entity, c: Entity, t: Entity, damage: int)
    requires t !in s.players && t in s.cards && s.cards[t].health.Some?
    requires s.cards[t].health.value - damage > 0
    ensures var r := Strike(s, p, c, t, damage);
      r.Running? && r.s.marks == s.marks
  {
  }

  /**
   * A DEAL_DAMAGE spell aimed at a card lowers its health by the spell's
   * value and charges the caster the card's cost.
   */
  lemma SpellOnCard(s: State, p: Entity, c: Entity, target: Option<Entity>, eff: SpellEffect)
    requires p in s.players && c in s.cards && WellFormed(s)
    requires TargetFits(eff, target) && eff.effectType == DealDamage && Hittable(s, target)
    requires target.value !in s.players && target.value != c && s.cards[target.value].health.Some?
    ensures var r := PlaySpell(s, p, c, target, eff);
      var t := target.value;
      && r.Running?
      && t in r.s.cards && r.s.cards[t].health == Some(s.cards[t].health.value - eff.value)
      && r.s.players == s.players[p := s.players[p].(mana := s.players[p].mana - s.cards[c].cost)]
  {
    var s1 := Pay(s, p, c);
    PayFrame(s, p, c);
    assert s1.alive == s.alive && s1.cards == s.cards && s1.owners == s.owners;
    assert Hittable(s1, target) && WellFormed(s1);
    DamageSpellStrikes(s, p, c, target, eff);
    StrikeCard(s1, p, c, target.value, eff.value);
    var s2 := Strike(s1, p, c, target.value, eff.value).s;
    assert Exists(s2, c) && HasGraveyard(s2, c);
    ToOwnGraveyard(s2, c);
  }

  /**
   * A card a DEAL_DAMAGE spell brings to zero health or below ends in the
   * graveyard, off the board and out of the hand; a card that survives
   * keeps all its markers.
   */
  lemma SpellKillsCard(s: State, p: Entity, c: Entity, target: Option<Entity>, eff: SpellEffect)
    requires p in s.players && c in s.cards && WellFormed(s)
    requires TargetFits(eff, target) && eff.effectType == DealDamage && Hittable(s, target)
    requires target.value !in s.players && target.value != c && s.cards[target.value].health.Some?
    ensures var r := PlaySpell(s, p, c, target, eff);
      var t := target.value;
      var health := s.cards[t].health.value - eff.value;
      && r.Running?
      && (health <= 0 ==> Has(r.s, t, InGraveyard) && !Has(r.s, t, OnBoard) && !Has(r.s, t, InHand))
      && (health > 0 ==> forall m :: Has(r.s, t, m) <==> Has(s, t, m))
  {
    var s1 := Pay(s, p, c);
    PayFrame(s, p, c);
    DamageSpellStrikes(s, p, c, target, eff);
    if s1.cards[target.value].health.value - eff.value <= 0 {
      StrikeKillsCard(s1, p, c, target.value, eff.value);
    } else {
      StrikeWoundsCard(s1, p, c, target.value, eff.value);
    }
    var s2 := Strike(s1, p, c, target.value, eff.value).s;
    OthersKeepMarks(s2, c);
  }

  /**
   * A DEAL_DAMAGE spell whose target is missing, or is neither a player nor
   * a card, is refused after the payment and the cost comes back: every
   * player ends as it began and no card or marker changes, while the queue
   * holds the mana update of the payment followed by the refusal.
   */
  lemma SpellRefunded(s: State, p: Entity, c: Entity, target: Option<Entity>, eff: SpellEffect)
    requires p in s.players && c in s.cards
    requires TargetFits(eff, target) && eff.effectType == DealDamage && !Hittable(s, target)
    ensures var r := PlaySpell(s, p, c, target, eff);
      && r.Running?
      && r.s.players == s.players
      && r.s.cards == s.cards && r.s.marks == s.marks && r.s.alive == s.alive
      && r.s.events == s.events + [ManaPoolUpdated(p, s.players[p].mana - s.cards[c].cost), ActionError(p, Unhittable(s, target))]
  {
    var s1 := Pay(s, p, c);
    PayFrame(s, p, c);
    assert Hittable(s1, target) == Hittable(s, target);
    assert Unhittable(s1, target) == Unhittable(s, target);
  }

  /**
   * A spell that resolves without damaging a card (an effect other than
   * DEAL_DAMAGE, or damage to a player) becomes the last entry of its
   * owner's graveyard, `InGraveyard`, out of the hand and off the board.
   */
  lemma SpellBuried(s: State, p: Entity, c: Entity, target: Option<Entity>, eff: SpellEffect)
    requires p in s.players && c in s.cards && WellFormed(s)
    requires TargetFits(eff, target)
    requires eff.effectType != DealDamage || (Hittable(s, target) && target.value in s.players)
    ensures var r := PlaySpell(s, p, c, target, eff);
      var g := s.owners[c];
      && r.Running?
      && r.s.graveyards == s.graveyards[g := s.graveyards[g] + [c]]
      && Has(r.s, c, InGraveyard) && !Has(r.s, c, InHand) && !Has(r.s, c, OnBoard)
  {
    var s1 := Pay(s, p, c);
    PayFrame(s, p, c);
    if eff.effectType != DealDamage {
      ToOwnGraveyard(s1, c);
      GraveyardMarks(s1, c);
    } else {
      DamageSpellStrikes(s, p, c, target, eff);
      StrikePlayer(s1, p, c, target.value, eff.value);
      var s2 := Strike(s1, p, c, target.value, eff.value).s;
      ToOwnGraveyard(s2, c);
      GraveyardMarks(s2, c);
    }
  }

  /**
   * A DEAL_DAMAGE spell aimed at another card ends as the last entry of its
   * owner's graveyard, after the target when the target dies into the same
   * graveyard; the spell is `InGraveyard` and out of the hand.
   */
  lemma SpellOnCardBuried(s: State, p: Entity, c: Entity, target: Option<Entity>, eff: SpellEffect)
    requires p in s.players && c in s.cards && WellFormed(s)
    requires TargetFits(eff, target) && eff.effectType == DealDamage && Hittable(s, target)
    requires target.value !in s.players && target.value != c && s.cards[target.value].health.Some?
    ensures var r := PlaySpell(s, p, c, target, eff);
      var g := s.owners[c];
      && r.Running?
      && g in r.s.graveyards && r.s.graveyards[g] != []
      && r.s.graveyards[g][|r.s.graveyards[g]| - 1] == c
      && Has(r.s, c, InGraveyard) && !Has(r.s, c, InHand) && !Has(r.s, c, OnBoard)
  {
    var s1 := Pay(s, p, c);
    PayFrame(s, p, c);
    assert Hittable(s1, target) && WellFormed(s1);
    DamageSpellStrikes(s, p, c, target, eff);
    StrikeCard(s1, p, c, target.value, eff.value);
    var s2 := Strike(s1, p, c, target.value, eff.value).s;
    assert Exists(s2, c) && HasGraveyard(s2, c);
    ToOwnGraveyard(s2, c);
    GraveyardMarks(s2, c);
  }

  /** An accepted minion costs exactly its cost and lands on the board with summoning sickness. */
  lemma PlayMinionStep(s: State, cmdEnt: Entity, cmd: PlayCardCommand)
    requires WellFormed(s) && cmdEnt in s.commands
    requires Validate(s, cmd).None? && s.cards[cmd.card].cardType == Minion
    ensures var r := PlayCardStep(s, cmdEnt, cmd);
      && r.Running?
      && r.s.players[cmd.player].mana == s.players[cmd.player].mana - s.cards[cmd.card].cost
      && Has(r.s, cmd.card, OnBoard) && Has(r.s, cmd.card, SummoningSickness) && !Has(r.s, cmd.card, InHand)
  {
  }

  /** A land is free and moves from the hand to the board only if no land was played this turn. */
  lemma PlayLandStep(s: State, cmdEnt: Entity, cmd: PlayCardCommand)
    requires WellFormed(s) && cmdEnt in s.commands
    requires Validate(s, cmd).None? && s.cards[cmd.card].cardType == Land
    ensures var r := PlayCardStep(s, cmdEnt, cmd);
      && r.Running?
      && r.s.players[cmd.player].mana == s.players[cmd.player].mana
      && (Has(s, cmd.player, PlayedLandThisTurn) ==>
            forall m :: Has(r.s, cmd.card, m) <==> Has(s, cmd.card, m))
      && (!Has(s, cmd.player, PlayedLandThisTurn) ==>
            Has(r.s, cmd.card, OnBoard) && !Has(r.s, cmd.card, InHand) && Has(r.s, cmd.player, PlayedLandThisTurn))
  {
    var p, c := cmd.player, cmd.card;
    assert c != cmdEnt && p != cmdEnt;
    var t := PlayLand(s, p, c);
    assert Attempt(s, cmd) == Running(t);
    var r := DeleteEntity(t, cmdEnt);
    assert forall m :: Has(r, c, m) == Has(t, c, m) && Has(r, p, m) == Has(t, p, m);
  }
}
