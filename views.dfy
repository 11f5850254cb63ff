/**
 * The per-viewer snapshot (`serialize_game_state_for_player` and its
 * helpers in src/server/main.py): every card with a record and an owner,
 * redacted when it lies in an opponent's hand; a summary per player keyed by
 * the player's id; the active player's id and the game phase.
 */
module Views {
  import opened Components
  import opened Ecs

  /** Where a card is, as the snapshot names it. */
  datatype Location = HandZone | BoardZone | DeckZone | GraveyardZone | UnknownZone

  /** `_get_card_location`: the first of hand, board, deck, graveyard the card is in. */
  function LocationOf(s: State, c: Entity): (l: Location)
    ensures l == HandZone <==> Has(s, c, InHand)
    ensures l == BoardZone <==> !Has(s, c, InHand) && Has(s, c, OnBoard)
    ensures l == DeckZone <==> !Has(s, c, InHand) && !Has(s, c, OnBoard) && Has(s, c, InDeck)
    ensures l == GraveyardZone <==> !Has(s, c, InHand) && !Has(s, c, OnBoard) && !Has(s, c, InDeck) && Has(s, c, InGraveyard)
  {
    if Has(s, c, InHand) then HandZone
    else if Has(s, c, OnBoard) then BoardZone
    else if Has(s, c, InDeck) then DeckZone
    else if Has(s, c, InGraveyard) then GraveyardZone
    else UnknownZone
  }

  /** The type-specific part of a visible card. */
  datatype Stats =
    | MinionStats(attack: Option<int>, health: Option<int>, maxHealth: Option<int>, canAttack: bool)
    | SpellStats(effect: SpellEffect)
    | NoStats

  /** A serialised card: only its owner and location when hidden. */
  datatype CardView =
    | Hidden(owner: Entity, location: Location)
    | Shown(owner: Entity, location: Location, name: string, cost: int, cardType: CardType,
            tapped: bool, attacking: bool, sick: bool, stats: Stats)

  /** The `can_attack` entry of a card view; a hidden card has none. */
  function CanAttack(v: CardView): Option<bool> {
    if v.Hidden? then None
    else if v.stats.MinionStats? then Some(v.stats.canAttack)
    else Some(false)
  }

  /** `_serialize_visible_card` merged into the owner and location of `_serialize_card`. */
  function VisibleCard(s: State, c: Entity, owner: Entity, info: CardInfo): (v: CardView)
    ensures v.Shown? && v.owner == owner && v.location == LocationOf(s, c)
    ensures v.name == info.name && v.cost == info.cost && v.cardType == info.cardType
    ensures CanAttack(v) == Some(info.cardType == Minion && !Has(s, c, Tapped) && !Has(s, c, SummoningSickness))
  {
    var tapped := Has(s, c, Tapped);
    var sick := Has(s, c, SummoningSickness);
    var stats :=
      if info.cardType == Minion then MinionStats(info.attack, info.health, info.maxHealth, !tapped && !sick)
      else if info.cardType == Spell && c in s.effects then SpellStats(s.effects[c])
      else NoStats;
    Shown(owner, LocationOf(s, c), info.name, info.cost, info.cardType, tapped, Has(s, c, Attacking), sick, stats)
  }

  /** `_serialize_card` of card `c` for the seat `viewer`. */
  function CardViewOf(s: State, c: Entity, viewer: Entity): CardView
    requires c in s.cards && c in s.owners
  {
    var owner := s.owners[c];
    if LocationOf(s, c) == HandZone && owner != viewer then Hidden(owner, HandZone)
    else VisibleCard(s, c, owner, s.cards[c])
  }

  /** The cards of the snapshot: the entities with a card record and an owner, in query order. */
  function CardIds(s: State): (q: seq<Entity>)
    ensures forall c :: c in q <==> c in s.cards && c in s.owners
    ensures StrictlyIncreasing(q)
  {
    Ascending(set c | c in s.cards && c in s.owners)
  }

  /** The `cards` part of the snapshot. */
  function CardsView(s: State, viewer: Entity): (m: map<Entity, CardView>)
    ensures m.Keys == set c | c in s.cards && c in s.owners
  {
    map c | c in s.cards && c in s.owners :: CardViewOf(s, c, viewer)
  }

  /** The ids in `ids` of cards whose owner is `pid` and whose location is `l`, in order. */
  function Listed(s: State, ids: seq<Entity>, pid: int, l: Location): (r: seq<Entity>)
    requires forall c :: c in ids ==> c in s.owners
    ensures forall c :: c in r <==> c in ids && s.owners[c] == pid && LocationOf(s, c) == l
    decreases |ids|
  {
    if ids == [] then []
    else
      var c := ids[0];
      assert c in ids && c in s.owners;
      var rest := Listed(s, ids[1..], pid, l);
      if s.owners[c] == pid && LocationOf(s, c) == l then [c] + rest else rest
  }

  /** Filtering keeps the query order. */
  lemma {:induction false} ListedIncreasing(s: State, ids: seq<Entity>, pid: int, l: Location)
    requires forall c :: c in ids ==> c in s.owners
    requires StrictlyIncreasing(ids)
    ensures StrictlyIncreasing(Listed(s, ids, pid, l))
    decreases |ids|
  {
    if ids != [] {
      var t := ids[1..];
      assert ids[0] in ids;
      assert StrictlyIncreasing(t);
      ListedIncreasing(s, t, pid, l);
      var rest := Listed(s, t, pid, l);
      forall c | c in rest ensures ids[0] < c {
        var j :| 0 <= j < |t| && t[j] == c;
        assert ids[j + 1] == c;
      }
      if s.owners[ids[0]] == pid && LocationOf(s, ids[0]) == l {
        var r := [ids[0]] + rest;
        forall i, j | 0 <= i < j < |r| ensures r[i] < r[j] {
          if i == 0 {
            assert r[j] == rest[j - 1];
            assert r[j] in rest;
          } else {
            assert r[i] == rest[i - 1] && r[j] == rest[j - 1];
          }
        }
      }
    }
  }

  /** How far a player is with the mulligan, shown during the MULLIGAN phase. */
  datatype MulliganView = Waiting | Deciding | PutBottom(count: int)

  datatype PlayerView = PlayerView(
    entity: Entity, health: int, mana: int, hand: seq<Entity>, board: seq<Entity>,
    deckSize: nat, graveyardSize: nat, mulligan: Option<MulliganView>)

  /** The phase of the first phase entity in query order, if there is one. */
  function PhaseOf(s: State): (r: Option<GamePhase>)
    ensures r.None? <==> s.phases == map[]
    ensures r.Some? ==> r.value == s.phases[Least(s.phases.Keys)]
  {
    if s.phases == map[] then None else Some(s.phases[Least(s.phases.Keys)])
  }

  /**
   * The mulligan entry of player `p`: only in the MULLIGAN phase; WAITING
   * once kept, DECIDING in the decision phase, else PUT_BOTTOM with the
   * count, whose absence makes serialisation fail (`None`).
   */
  function MulliganOf(s: State, p: Entity): (r: Option<Option<MulliganView>>)
    ensures PhaseOf(s) != Some(MulliganPhase) ==> r == Some(None)
    ensures r.None? <==>
      PhaseOf(s) == Some(MulliganPhase) && !Has(s, p, KeptHand) && !Has(s, p, MulliganDecisionPhase) && p !in s.mulligans
  {
    if PhaseOf(s) != Some(MulliganPhase) then Some(None)
    else if Has(s, p, KeptHand) then Some(Some(Waiting))
    else if Has(s, p, MulliganDecisionPhase) then Some(Some(Deciding))
    else if p in s.mulligans then Some(Some(PutBottom(s.mulligans[p])))
    else None
  }

  /**
   * The summary of player entity `p`; the hand and board lists hold the
   * cards whose owner equals the player's id.
   */
  function PlayerViewOf(s: State, p: Entity): Option<PlayerView>
    requires p in s.players
  {
    var player := s.players[p];
    var ids := CardIds(s);
    match MulliganOf(s, p)
    case None => None
    case Some(m) =>
      Some(PlayerView(
        p, player.health, player.mana,
        Listed(s, ids, player.playerId, HandZone), Listed(s, ids, player.playerId, BoardZone),
        if p in s.decks then |s.decks[p]| else 0,
        if p in s.graveyards then |s.graveyards[p]| else 0,
        m))
  }

  /** The `players` part: player entities in query order, each under its player id (a later one replaces an earlier). */
  function PlayersView(s: State, order: seq<Entity>): Option<map<int, PlayerView>>
    requires forall p :: p in order ==> p in s.players
    decreases |order|
  {
    if order == [] then Some(map[])
    else
      var p := order[|order| - 1];
      match (PlayersView(s, order[..|order| - 1]), PlayerViewOf(s, p))
      case (Some(m), Some(v)) => Some(m[s.players[p].playerId := v])
      case _ => None
  }

  /** `_get_active_player_id`: the player id of the first player entity holding the turn. */
  function ActivePlayerId(s: State): (r: Option<int>)
    ensures r.None? <==> forall p :: p in s.players ==> !Has(s, p, ActiveTurn)
    ensures r.Some? ==> exists p :: p in s.players && Has(s, p, ActiveTurn) && r.value == s.players[p].playerId
  {
    var holders := set p | p in s.players && Has(s, p, ActiveTurn);
    assert forall p :: p in s.players && Has(s, p, ActiveTurn) ==> p in holders;
    if holders == {} then None else Some(s.players[Least(holders)].playerId)
  }

  datatype Snapshot = Snapshot(
    players: map<int, PlayerView>, cards: map<Entity, CardView>,
    activePlayerId: Option<int>, gamePhase: Option<GamePhase>)

  /** `serialize_game_state_for_player`; `None` when a player summary fails. */
  function SnapshotFor(s: State, viewer: Entity): Option<Snapshot> {
    match PlayersView(s, PlayerList(s))
    case None => None
    case Some(players) => Some(Snapshot(players, CardsView(s, viewer), ActivePlayerId(s), PhaseOf(s)))
  }

  // ----- properties -----

  /**
   * Redaction: a card is hidden from a viewer exactly when it is in a hand
   * and the viewer is not its owner; a hidden card shows only its owner and
   * the hand.
   */
  lemma Redaction(s: State, c: Entity, viewer: Entity)
    requires c in s.cards && c in s.owners
    ensures var v := CardViewOf(s, c, viewer);
      && (v.Hidden? <==> Has(s, c, InHand) && s.owners[c] != viewer)
      && (v.Hidden? ==> v == Hidden(s.owners[c], HandZone))
      && (v.Shown? ==> v.owner == s.owners[c] && v.location == LocationOf(s, c) && v.name == s.cards[c].name)
  {
  }

  /**
   * A hidden card leaks nothing: in any world where it is still in the
   * same owner's hand, its view is the same whatever its record and its
   * other markers are.
   */
  lemma HiddenRevealsNothing(s: State, t: State, c: Entity, viewer: Entity)
    requires c in s.cards && c in s.owners && c in t.cards && c in t.owners
    requires CardViewOf(s, c, viewer).Hidden?
    requires t.owners[c] == s.owners[c] && Has(t, c, InHand)
    ensures CardViewOf(t, c, viewer) == CardViewOf(s, c, viewer)
  {
  }

  /** A visible minion can attack exactly when it is neither tapped nor sick; no other visible card can. */
  lemma CanAttackRule(s: State, c: Entity, viewer: Entity)
    requires c in s.cards && c in s.owners
    ensures var v := CardViewOf(s, c, viewer);
      && (v.Shown? && s.cards[c].cardType == Minion ==>
            CanAttack(v) == Some(!Has(s, c, Tapped) && !Has(s, c, SummoningSickness)))
      && (v.Shown? && s.cards[c].cardType != Minion ==> CanAttack(v) == Some(false))
      && (v.Hidden? ==> CanAttack(v).None?)
  {
  }

  /**
   * A player summary lists, in ascending order, exactly the cards whose
   * owner is the player's id in the hand and on the board, and counts the
   * deck and the graveyard (zero when the player has none).
   */
  lemma SummaryContents(s: State, p: Entity)
    requires p in s.players && PlayerViewOf(s, p).Some?
    ensures var v := PlayerViewOf(s, p).value; var pid := s.players[p].playerId;
      && (forall c :: c in v.hand <==> c in s.cards && c in s.owners && s.owners[c] == pid && Has(s, c, InHand))
      && (forall c :: c in v.board <==> c in s.cards && c in s.owners && s.owners[c] == pid && !Has(s, c, InHand) && Has(s, c, OnBoard))
      && StrictlyIncreasing(v.hand) && StrictlyIncreasing(v.board)
      && v.deckSize == (if p in s.decks then |s.decks[p]| else 0)
      && v.graveyardSize == (if p in s.graveyards then |s.graveyards[p]| else 0)
      && v.health == s.players[p].health && v.mana == s.players[p].mana
  {
    var pid := s.players[p].playerId;
    ListedIncreasing(s, CardIds(s), pid, HandZone);
    ListedIncreasing(s, CardIds(s), pid, BoardZone);
  }

  /**
   * The mulligan entry: absent outside the MULLIGAN phase; inside it
   * WAITING when kept, DECIDING in the decision phase, and otherwise
   * PUT_BOTTOM with the count; a player with none of the three cannot be
   * summarised.
   */
  lemma MulliganEntry(s: State, p: Entity)
    requires p in s.players
    ensures PhaseOf(s) != Some(MulliganPhase) ==> PlayerViewOf(s, p).Some? && PlayerViewOf(s, p).value.mulligan.None?
    ensures PhaseOf(s) == Some(MulliganPhase) ==>
      && (Has(s, p, KeptHand) ==> PlayerViewOf(s, p).Some? && PlayerViewOf(s, p).value.mulligan == Some(Waiting))
      && (!Has(s, p, KeptHand) && Has(s, p, MulliganDecisionPhase) ==>
            PlayerViewOf(s, p).Some? && PlayerViewOf(s, p).value.mulligan == Some(Deciding))
      && (!Has(s, p, KeptHand) && !Has(s, p, MulliganDecisionPhase) ==>
            (PlayerViewOf(s, p).Some? <==> p in s.mulligans)
            && (p in s.mulligans ==> PlayerViewOf(s, p).value.mulligan == Some(PutBottom(s.mulligans[p]))))
  {
  }

  /** Player entities 1 and 2 and no others, carrying the player ids 1 and 2. */
  ghost predicate TwoSeats(s: State) {
    s.players.Keys == {1, 2} && s.players[1].playerId == 1 && s.players[2].playerId == 2
  }

  /** The hand of summary `v` holds exactly the cards with a record that `p` owns and that are in a hand. */
  ghost predicate HoldsHandOf(s: State, v: PlayerView, p: Entity) {
    forall c :: c in v.hand <==> c in s.cards && c in s.owners && s.owners[c] == p && Has(s, c, InHand)
  }

  /**
   * In the summaries of a two-player world whose player entities 1 and 2
   * carry the ids 1 and 2, each player's hand holds exactly that player's
   * cards in hand.
   */
  lemma SeatsMatchIds(s: State)
    requires TwoSeats(s) && PlayersView(s, PlayerList(s)).Some?
    ensures var m := PlayersView(s, PlayerList(s)).value;
      && m.Keys == {1, 2}
      && (forall p :: p in m ==> m[p].entity == p && HoldsHandOf(s, m[p], p))
  {
    SeatsViews(s);
    var m := PlayersView(s, PlayerList(s)).value;
    forall p | p in m
      ensures m[p].entity == p && HoldsHandOf(s, m[p], p)
    {
      SeatHand(s, p);
    }
  }

  /** The players part of a world with player entities 1 and 2 is their two summaries, under ids 1 and 2. */
  lemma SeatsViews(s: State)
    requires TwoSeats(s) && PlayersView(s, PlayerList(s)).Some?
    ensures var m := PlayersView(s, PlayerList(s)).value;
      && m.Keys == {1, 2}
      && (forall p :: p in m ==> p in s.players && PlayerViewOf(s, p) == Some(m[p]))
  {
    var q := PlayerList(s);
    TwoSeatList(s);
    var v1 := PlayerViewOf(s, 1);
    assert q[..1] == [1] && [1][..0] == [];
    assert PlayersView(s, [1]) == (if v1.Some? then Some(map[1 := v1.value]) else None);
  }

  /** The summary of a player entity whose id is its own entity number lists exactly its cards in hand. */
  lemma SeatHand(s: State, p: Entity)
    requires TwoSeats(s) && p in s.players && PlayerViewOf(s, p).Some?
    ensures PlayerViewOf(s, p).value.entity == p
    ensures HoldsHandOf(s, PlayerViewOf(s, p).value, p)
  {
    SummaryContents(s, p);
  }

  /** With player entities 1 and 2, the player query yields them in that order. */
  lemma TwoSeatList(s: State)
    requires s.players.Keys == {1, 2}
    ensures PlayerList(s) == [1, 2]
  {
    var q := PlayerList(s);
    assert |q| == 2;
    assert 1 in q && 2 in q;
    assert q[0] < q[1];
  }

  /**
   * The players part exists exactly when every listed player can be
   * summarised, and it is then keyed by exactly the listed players' ids.
   */
  lemma {:induction false} PlayersViewDefined(s: State, order: seq<Entity>)
    requires forall p :: p in order ==> p in s.players
    ensures PlayersView(s, order).Some? <==> forall p :: p in order ==> PlayerViewOf(s, p).Some?
    ensures PlayersView(s, order).Some? ==>
      PlayersView(s, order).value.Keys == (set p | p in order :: s.players[p].playerId)
    decreases |order|
  {
    if order != [] {
      var init := order[..|order| - 1];
      var p := order[|order| - 1];
      assert forall x :: x in order <==> x in init || x == p;
      PlayersViewDefined(s, init);
      if PlayersView(s, order).Some? {
        var ids := set x | x in order :: s.players[x].playerId;
        var initIds := set x | x in init :: s.players[x].playerId;
        assert ids == initIds + {s.players[p].playerId};
      }
    }
  }

  /**
   * The snapshot for `viewer` exists exactly when every player can be
   * summarised; it then holds one view per card with a record and an owner,
   * hiding exactly the cards in a hand that `viewer` does not own, and the
   * active player's id and the phase.
   */
  lemma SnapshotShape(s: State, viewer: Entity)
    ensures SnapshotFor(s, viewer).Some? <==> forall p :: p in s.players ==> PlayerViewOf(s, p).Some?
    ensures SnapshotFor(s, viewer).Some? ==>
      var snap := SnapshotFor(s, viewer).value;
      && snap.players.Keys == (set p | p in s.players :: s.players[p].playerId)
      && snap.cards.Keys == (set c | c in s.cards && c in s.owners)
      && (forall c :: c in snap.cards ==> (snap.cards[c].Hidden? <==> Has(s, c, InHand) && s.owners[c] != viewer))
      && snap.activePlayerId == ActivePlayerId(s) && snap.gamePhase == PhaseOf(s)
  {
    var q := PlayerList(s);
    PlayersViewDefined(s, q);
    assert (set p | p in q :: s.players[p].playerId) == (set p | p in s.players :: s.players[p].playerId);
    if SnapshotFor(s, viewer).Some? {
      var snap := SnapshotFor(s, viewer).value;
      forall c | c in snap.cards ensures snap.cards[c].Hidden? <==> Has(s, c, InHand) && s.owners[c] != viewer {
        Redaction(s, c, viewer);
      }
    }
  }
}
