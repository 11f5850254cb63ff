/**
 * The entity-component world the server's rule systems run on, as a value.
 *
 * Each component type is a map from entity to its record, marker components
 * are (entity, marker) pairs in one set, `alive` is the world's table of
 * entities, `nextId` is the world's entity counter and `events` is the
 * server's event queue.  The world deletes an entity when its last component
 * is removed and enters one in its table when a component is added to an
 * unknown handle.
 */
module Ecs {
  import opened Components

  /** Why a command was refused; carried by an ACTION_ERROR event. */
  datatype ErrorReason =
    | NotYourTurn
    | MissingComponent
    | NotYourCard
    | NotInHand
    | NotEnoughMana(cost: int, mana: int)
    | UnknownCardType
    | LandAlreadyPlayed
    | TargetRequired
    | TargetNotUsed
    | TargetMissing
    | BadTargetType
    | NotALand
    | AlreadyTapped
    | CreatureNotFound
    | NotBlockingPhase
    | NotAttacking(attacker: Entity)
    | NotYourCreature(blocker: Entity)
    | BlockerTapped(blocker: Entity)
    | BlockerAssignFailed
    | BlockersFailed

  /** What dealt the damage of a PLAYER_DAMAGED event. */
  datatype DamageSource = FromSpell(spell: Entity) | FromAttacker(attacker: Entity)

  /** The events the systems append to the queue, one constructor per event type. */
  datatype Event =
    | ActionError(errPlayer: Entity, reason: ErrorReason)
    | CardMoved(movedCard: Entity)
    | ManaPoolUpdated(manaPlayer: Entity, newMana: int)
    | PlayerDamaged(damagedPlayer: Entity, newHealth: int, source: DamageSource)
    | CardDied(deadCard: Entity)
    | CardAttacked(attacker: Entity, target: Entity, attackerHealth: int, targetHealth: int)
    | CardDrawn(drawPlayer: Entity, drawnCard: Entity)
    | TurnStarted(startPlayer: Entity)
    | TurnEnded(endPlayer: Entity)
    | BlockersPhaseStarted(attackers: seq<Entity>)
    | CombatResolved
    | MulliganStateChanged
    | GameOverEvent(winner: Entity, loser: Option<Entity>)

  datatype State = State(
    players: map<Entity, Player>,
    cards: map<Entity, CardInfo>,
    effects: map<Entity, SpellEffect>,
    owners: map<Entity, Entity>,
    decks: map<Entity, seq<Entity>>,
    graveyards: map<Entity, seq<Entity>>,
    mulligans: map<Entity, int>,
    phases: map<Entity, GamePhase>,
    gameOvers: map<Entity, Entity>,
    commands: map<Entity, Command>,
    marks: set<(Entity, Marker)>,
    alive: set<Entity>,
    nextId: Entity,
    events: seq<Event>)

  /**
   * The result of running rule code: the new world, or `Crashed` when an
   * exception other than a caught KeyError escaped (the game loop then stops).
   */
  datatype Outcome = Running(s: State) | Crashed

  /** A cleared world (entity counter back at 1) that keeps the event queue. */
  function Cleared(events: seq<Event>): (s: State)
    ensures s.events == events && s.nextId == 1
    ensures forall e :: !Exists(s, e)
  {
    State(map[], map[], map[], map[], map[], map[], map[], map[], map[], map[], {}, {}, 1, events)
  }

  // ----- queries -----

  predicate Has(s: State, e: Entity, m: Marker) {
    (e, m) in s.marks
  }

  /** The entities carrying some marker. */
  function Marked(marks: set<(Entity, Marker)>): set<Entity> {
    set p | p in marks :: p.0
  }

  /** Whether `e` carries some record component. */
  predicate Keyed(s: State, e: Entity) {
    || e in s.players || e in s.cards || e in s.effects || e in s.owners
    || e in s.decks || e in s.graveyards || e in s.mulligans || e in s.phases
    || e in s.gameOvers || e in s.commands
  }

  /** Whether `e` carries some component. */
  predicate Carries(s: State, e: Entity) {
    Keyed(s, e) || e in Marked(s.marks)
  }

  /** Whether the world's entity table holds `e`. */
  predicate Exists(s: State, e: Entity) {
    e in s.alive
  }

  /** The entities carrying marker `m`. */
  function Holders(s: State, m: Marker): (r: set<Entity>)
    ensures forall e :: e in r <==> Has(s, e, m)
  {
    set p | p in s.marks && p.1 == m :: p.0
  }

  predicate IsLeast(m: int, ids: set<int>) {
    m in ids && forall x :: x in ids ==> m <= x
  }

  /** Some member of a non-empty set. */
  lemma Pick<T>(s: set<T>) returns (x: T)
    requires s != {}
    ensures x in s
  {
    x :| x in s;
  }

  lemma {:induction false} LeastExists(ids: set<int>)
    requires ids != {}
    ensures exists m :: IsLeast(m, ids)
  {
    var y := Pick(ids);
    var rest := ids - {y};
    if rest == {} {
      assert IsLeast(y, ids) by {
        forall x | x in ids ensures y <= x { assert x !in rest; }
      }
    } else {
      LeastExists(rest);
      var m :| IsLeast(m, rest);
      var k := if y < m then y else m;
      assert IsLeast(k, ids) by {
        forall x | x in ids ensures k <= x {
          if x != y { assert x in rest; }
        }
      }
    }
  }

  /** The smallest handle of a non-empty set. */
  function Least(ids: set<int>): (m: int)
    requires ids != {}
    ensures m in ids && forall x :: x in ids ==> m <= x
  {
    LeastExists(ids);
    var m :| IsLeast(m, ids); m
  }

  predicate StrictlyIncreasing(q: seq<int>) {
    forall i, j :: 0 <= i < j < |q| ==> q[i] < q[j]
  }

  /**
   * The members of a set in ascending order: the order in which the world's
   * queries list the holders of a component.
   */
  function Ascending(ids: set<int>): (q: seq<int>)
    ensures |q| == |ids|
    ensures forall x :: x in q <==> x in ids
    ensures StrictlyIncreasing(q)
    decreases |ids|
  {
    if ids == {} then []
    else
      var m := Least(ids);
      var rest := Ascending(ids - {m});
      [m] + rest
  }

  /** The first holder of marker `m` in query order, if any. */
  function FirstHolder(s: State, m: Marker): (r: Option<Entity>)
    ensures r.None? <==> Holders(s, m) == {}
    ensures r.Some? ==> Has(s, r.value, m) && forall e :: Has(s, e, m) ==> r.value <= e
  {
    var h := Holders(s, m);
    if h == {} then None else Some(Least(h))
  }

  /** The `Player` entities in query order. */
  function PlayerList(s: State): (q: seq<Entity>)
    ensures forall e :: e in q <==> e in s.players
    ensures StrictlyIncreasing(q) && |q| == |s.players.Keys|
  {
    Ascending(s.players.Keys)
  }

  /** The command entities whose command is of the kind `kind` selects, in query order. */
  function CommandIds(s: State, kind: Command -> bool): (q: seq<Entity>)
    ensures forall i :: 0 <= i < |q| ==> q[i] in s.commands && kind(s.commands[q[i]])
    ensures forall e :: e in q <==> e in s.commands && kind(s.commands[e])
    ensures StrictlyIncreasing(q)
  {
    var q := Ascending(set e | e in s.commands && kind(s.commands[e]));
    assert forall i :: 0 <= i < |q| ==> q[i] in q;
    q
  }

  /** The command entities of a queue of (command entity, command) pairs. */
  function QueuedIds<T>(q: seq<(Entity, T)>): (ids: set<Entity>)
    ensures forall e :: e in ids <==> exists i :: 0 <= i < |q| && q[i].0 == e
  {
    set i | 0 <= i < |q| :: q[i].0
  }

  /** A queue's command entities are its first one and those of the rest. */
  lemma QueuedIdsSplit<T>(q: seq<(Entity, T)>)
    requires q != []
    ensures QueuedIds(q) == {q[0].0} + QueuedIds(q[1..])
  {
    forall e ensures e in QueuedIds(q) <==> e in {q[0].0} + QueuedIds(q[1..]) {
      if e in QueuedIds(q) && e != q[0].0 {
        var i :| 0 <= i < |q| && q[i].0 == e;
        assert q[1..][i - 1].0 == e;
      }
      if e in QueuedIds(q[1..]) {
        var i :| 0 <= i < |q[1..]| && q[1..][i].0 == e;
        assert q[i + 1].0 == e;
      }
    }
  }

  /** The first entry of `q` different from `e`, if any. */
  function FirstOther(q: seq<Entity>, e: Entity): (r: Option<Entity>)
    ensures r.None? <==> forall i :: 0 <= i < |q| ==> q[i] == e
    ensures r.Some? ==> r.value in q && r.value != e
  {
    if q == [] then None
    else if q[0] != e then Some(q[0])
    else
      var r := FirstOther(q[1..], e);
      assert forall i :: 1 <= i < |q| ==> q[i] == q[1..][i - 1];
      r
  }

  /** The position of `e` in `q`. */
  function IndexOf(q: seq<Entity>, e: Entity): (i: nat)
    requires e in q
    ensures i < |q| && q[i] == e && e !in q[..i]
  {
    if q[0] == e then 0 else 1 + IndexOf(q[1..], e)
  }

  /**
   * The shape of every world the server builds: no entity is both a card and
   * a player, every card has an owner that keeps a graveyard, command
   * entities carry no card, player or graveyard, and every card and player
   * is in the entity table.
   */
  predicate WellFormed(s: State) {
    && s.cards.Keys + s.players.Keys <= s.alive
    && s.cards.Keys !! s.players.Keys
    && s.cards.Keys !! s.graveyards.Keys
    && s.commands.Keys !! (s.cards.Keys + s.players.Keys + s.graveyards.Keys)
    && (forall c :: c in s.cards ==> c in s.owners && s.owners[c] in s.graveyards)
  }

  /** Every entity carrying a marker is in the entity table, as in every world the server builds. */
  ghost predicate Tracked(s: State) {
    forall e, m :: Has(s, e, m) ==> Exists(s, e)
  }

  /** Every record component and the entity counter agree. */
  predicate SameRecords(a: State, b: State) {
    && a.players == b.players && a.cards == b.cards && a.effects == b.effects
    && a.owners == b.owners && a.decks == b.decks && a.graveyards == b.graveyards
    && a.mulligans == b.mulligans && a.phases == b.phases && a.gameOvers == b.gameOvers
    && a.commands == b.commands && a.nextId == b.nextId
  }

  /** The markers of `a` and `b` agree except perhaps on the pairs in `changed`. */
  ghost predicate MarksAgreeExcept(a: State, b: State, changed: set<(Entity, Marker)>) {
    forall e, m :: (e, m) !in changed ==> (Has(a, e, m) <==> Has(b, e, m))
  }

  // ----- updates -----

  function AddMark(s: State, e: Entity, m: Marker): State {
    s.(marks := s.marks + {(e, m)}, alive := s.alive + {e})
  }

  /** Removes a marker; an entity left without components leaves the table. */
  function RemoveMark(s: State, e: Entity, m: Marker): (r: State)
    ensures r == s.(marks := s.marks - {(e, m)}, alive := r.alive)
    ensures Keyed(s, e) ==> r.alive == s.alive
  {
    var s1 := s.(marks := s.marks - {(e, m)});
    if Carries(s1, e) then s1 else s1.(alive := s.alive - {e})
  }

  function Emit(s: State, ev: Event): State {
    s.(events := s.events + [ev])
  }

  /** Appends an ACTION_ERROR event for `p`. */
  function Error(s: State, p: Entity, why: ErrorReason): State {
    Emit(s, ActionError(p, why))
  }

  function SetMana(s: State, p: Entity, mana: int): State
    requires p in s.players
  {
    s.(players := s.players[p := s.players[p].(mana := mana)])
  }

  function SetPlayerHealth(s: State, p: Entity, health: int): State
    requires p in s.players
  {
    s.(players := s.players[p := s.players[p].(health := health)])
  }

  function SetCardHealth(s: State, c: Entity, health: int): State
    requires c in s.cards
  {
    s.(cards := s.cards[c := s.cards[c].(health := Some(health))])
  }

  /** Creates a fresh entity carrying a `GameOver` record. */
  function CreateGameOver(s: State, winner: Entity): State {
    s.(gameOvers := s.gameOvers[s.nextId := winner], alive := s.alive + {s.nextId}, nextId := s.nextId + 1)
  }

  /** The markers of every entity but `e`. */
  function MarksWithout(marks: set<(Entity, Marker)>, e: Entity): (r: set<(Entity, Marker)>)
    ensures forall p :: p in r <==> p in marks && p.0 != e
  {
    set p | p in marks && p.0 != e
  }

  /** `s` with entity `e` and all its components removed. */
  function Without(s: State, e: Entity): State {
    s.(
      players := s.players - {e}, cards := s.cards - {e}, effects := s.effects - {e},
      owners := s.owners - {e}, decks := s.decks - {e}, graveyards := s.graveyards - {e},
      mulligans := s.mulligans - {e}, phases := s.phases - {e}, gameOvers := s.gameOvers - {e},
      commands := s.commands - {e}, marks := MarksWithout(s.marks, e), alive := s.alive - {e})
  }

  /** Removes an entity with every component it carries. */
  function DeleteEntity(s: State, e: Entity): (r: State)
    ensures forall x :: Exists(r, x) <==> Exists(s, x) && x != e
    ensures !Carries(r, e)
    ensures r.events == s.events && r.nextId == s.nextId
  {
    Without(s, e)
  }

  // ----- the entity table follows the markers -----

  lemma AddMarkTracked(s: State, e: Entity, m: Marker)
    requires Tracked(s)
    ensures Tracked(AddMark(s, e, m))
  {
    var r := AddMark(s, e, m);
    forall x, k | Has(r, x, k)
      ensures Exists(r, x)
    {
      if (x, k) != (e, m) {
        assert Has(s, x, k);
      }
    }
  }

  lemma RemoveMarkTracked(s: State, e: Entity, m: Marker)
    requires Tracked(s)
    ensures Tracked(RemoveMark(s, e, m))
  {
    var r := RemoveMark(s, e, m);
    forall x, k | Has(r, x, k)
      ensures Exists(r, x)
    {
      assert Has(s, x, k);
      if x == e {
        assert (x, k) in r.marks;
        assert x in Marked(r.marks);
      }
    }
  }

  lemma DeleteEntityTracked(s: State, e: Entity)
    requires Tracked(s)
    ensures Tracked(DeleteEntity(s, e))
  {
    var r := DeleteEntity(s, e);
    forall x, k | Has(r, x, k)
      ensures Exists(r, x)
    {
      assert Has(s, x, k);
    }
  }

  /** Two worlds with the same markers and entity table agree on `Tracked`. */
  lemma TrackedAlike(a: State, b: State)
    requires Tracked(a) && a.marks == b.marks && a.alive == b.alive
    ensures Tracked(b)
  {
    forall x, k | Has(b, x, k)
      ensures Exists(b, x)
    {
      assert Has(a, x, k);
    }
  }
}
