/**
 * The component and command records of the card game's entity-component
 * world (src/common/components.py), as Dafny datatypes.  Marker components
 * (records without fields) become the constructors of `Marker`; a marker is
 * attached to an entity by putting the pair (entity, marker) in the world's
 * marker set.
 */
module Components {

  /** An entity handle of the world. */
  type Entity = int

  /**
   * The handle a client-supplied value denotes when it is not a number: the
   * world never allocates it, so every lookup with it misses, exactly as a
   * lookup with a string or a list misses in the source.
   */
  const NoEntity: Entity := -1

  datatype Option<T> = None | Some(value: T)

  /** The per-colour counters of the `ManaPool` record (white, blue, black, red, green, colourless). */
  datatype ManaPool = ManaPool(w: int, u: int, b: int, r: int, g: int, c: int)

  /** A `ManaPool` built with no arguments. */
  function EmptyManaPool(): (m: ManaPool)
    ensures m.w == 0 && m.u == 0 && m.b == 0 && m.r == 0 && m.g == 0 && m.c == 0
  {
    ManaPool(0, 0, 0, 0, 0, 0)
  }

  /**
   * The `Player` record.  The rule systems treat `mana_pool` as a plain
   * integer (they subtract a card's integer cost from it and add 1 per
   * tapped land), so the model keeps an integer.
   */
  datatype Player = Player(playerId: int, health: int, mana: int)

  /** A `Player` built with only its id: 30 health and an empty pool. */
  function NewPlayer(playerId: int): (p: Player)
    ensures p.playerId == playerId && p.health == 30 && p.mana == 0
  {
    Player(playerId, 30, 0)
  }

  /** The `card_type` string of a card; any other string is kept as `OtherType`. */
  datatype CardType = Land | Minion | Spell | OtherType(name: string)

  /**
   * The `CardInfo` record.  `cost` is declared as a dictionary with an
   * empty default, but every card the server creates is given an integer
   * cost and every rule treats it as one, so it is an integer here and has
   * no default; `attack`, `health` and `maxHealth` are absent (`None`) on
   * lands and spells.
   */
  datatype CardInfo = CardInfo(
    name: string,
    cardType: CardType,
    cost: int,
    produces: Option<string>,
    attack: Option<int>,
    health: Option<int>,
    maxHealth: Option<int>)

  /** A `CardInfo` built with a name, a type and a cost only. */
  function NewCardInfo(name: string, cardType: CardType, cost: int): (c: CardInfo)
    ensures c.name == name && c.cardType == cardType && c.cost == cost
    ensures c.produces == None && c.attack == None && c.health == None && c.maxHealth == None
  {
    CardInfo(name, cardType, cost, None, None, None, None)
  }

  /** The `effect_type` string of a spell. */
  datatype EffectType = DealDamage | OtherEffect(name: string)

  datatype SpellEffect = SpellEffect(effectType: EffectType, value: int, requiresTarget: bool)

  /** A `SpellEffect` built without `requires_target`. */
  function NewSpellEffect(effectType: EffectType, value: int): (e: SpellEffect)
    ensures e.effectType == effectType && e.value == value && !e.requiresTarget
  {
    SpellEffect(effectType, value, false)
  }

  /** The marker components: records without fields. */
  datatype Marker =
    | InHand | OnBoard | InDeck | InGraveyard
    | Tapped | SummoningSickness | Attacking
    | Disconnected
    | MulliganDecisionPhase | KeptHand
    | ActiveTurn | PlayedLandThisTurn | WaitingForBlockers

  /** The `phase` string of the `GamePhaseComponent` singleton. */
  datatype GamePhase = MulliganPhase | GameRunning

  /** `MulliganCount` starts at zero. */
  function NewMulliganCount(): (count: int)
    ensures count == 0
  {
    0
  }

  datatype PlayCardCommand = PlayCardCommand(player: Entity, card: Entity, target: Option<Entity>)

  /** A `PlayCardCommand` built without a target. */
  function NewPlayCardCommand(player: Entity, card: Entity): (c: PlayCardCommand)
    ensures c.player == player && c.card == card && c.target == None
  {
    PlayCardCommand(player, card, None)
  }

  datatype TapLandCommand = TapLandCommand(player: Entity, card: Entity)

  /**
   * `DeclareBlockersCommand.blocks` maps a blocker to the attacker it blocks;
   * the map is kept as its list of (blocker, attacker) entries in the map's
   * own order, with no blocker twice.
   */
  datatype DeclareBlockersCommand = DeclareBlockersCommand(player: Entity, blocks: seq<(Entity, Entity)>)

  /**
   * `DeclareAttackersCommand.attacker_ids`: `None` stands for a value that
   * cannot be iterated (a number, a boolean or null taken from the payload).
   */
  datatype DeclareAttackersCommand = DeclareAttackersCommand(player: Entity, attackers: Option<seq<Entity>>)

  datatype PutCardsBottomCommand = PutCardsBottomCommand(player: Entity, cards: seq<Entity>)

  /** Every command record; a command entity carries exactly one of them. */
  datatype Command =
    | PlayCard(play: PlayCardCommand)
    | EndTurn(endingPlayer: Entity)
    | TapLand(tap: TapLandCommand)
    | DeclareBlockers(blockers: DeclareBlockersCommand)
    | DeclareAttackers(attack: DeclareAttackersCommand)
    | Mulligan(mulliganPlayer: Entity)
    | KeepHand(keepPlayer: Entity)
    | PutCardsBottom(bottom: PutCardsBottomCommand)
    | PlayerReady(readyPlayer: Entity)
    | ReturnToLobby(lobbyPlayer: Entity)

  /** `DeclareBlockersCommand.blocks` as a function: the attacker a blocker is assigned to. */
  function BlockedAttacker(blocks: seq<(Entity, Entity)>, blocker: Entity): (r: Option<Entity>)
    ensures r.Some? <==> exists i :: 0 <= i < |blocks| && blocks[i].0 == blocker
    ensures r.Some? ==> exists i :: 0 <= i < |blocks| && blocks[i] == (blocker, r.value)
  {
    if blocks == [] then None
    else if blocks[0].0 == blocker then Some(blocks[0].1)
    else
      var r := BlockedAttacker(blocks[1..], blocker);
      assert forall i :: 1 <= i < |blocks| ==> blocks[i] == blocks[1..][i - 1];
      r
  }
}
