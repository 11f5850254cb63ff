/**
 * `TurnManagementSystem` (src/server/systems.py): an END_TURN from the
 * active player heals that player's board, passes the turn to the next
 * player in query order, refreshes that player's cards and mana, and draws
 * the top card of that player's deck.
 */
module TurnRules {
  import opened Components
  import opened Ecs

  // ----- end of the ending player's turn -----

  /** A board minion of `a` with a maximum health: the cards end-of-turn healing inspects. */
  predicate HealCandidate(s: State, a: Entity, c: Entity) {
    && c in s.cards && c in s.owners && s.owners[c] == a && Has(s, c, OnBoard)
    && s.cards[c].cardType == Minion && s.cards[c].maxHealth.Some?
  }

  /** Healing fails (comparing a missing health with a number) when a candidate has no health. */
  predicate HealBlocked(s: State, a: Entity) {
    exists c | c in s.cards :: HealCandidate(s, a, c) && s.cards[c].health.None?
  }

  /**
   * Every damaged board minion of `a` is restored to its maximum health:
   * afterwards each candidate is at least at its maximum, no health went
   * down, a health changed only to the maximum, and nothing but the health
   * of a candidate changed.
   */
  function Heal(s: State, a: Entity): (r: State)
    requires !HealBlocked(s, a)
    ensures r.cards.Keys == s.cards.Keys
    ensures forall c :: c in s.cards ==> r.cards[c] == s.cards[c].(health := r.cards[c].health)
    ensures forall c :: c in s.cards && !HealCandidate(s, a, c) ==> r.cards[c] == s.cards[c]
    ensures forall c :: HealCandidate(s, a, c) ==>
      && r.cards[c].health.Some?
      && r.cards[c].health.value >= s.cards[c].maxHealth.value
      && r.cards[c].health.value >= s.cards[c].health.value
      && (r.cards[c].health == s.cards[c].health || r.cards[c].health == s.cards[c].maxHealth)
    ensures r == s.(cards := r.cards)
  {
    s.(cards := map c | c in s.cards ::
      if HealCandidate(s, a, c) && s.cards[c].health.value < s.cards[c].maxHealth.value
      then s.cards[c].(health := s.cards[c].maxHealth)
      else s.cards[c])
  }

  // ----- start of the next player's turn -----

  /** The player after `a` in `all`, wrapping around from the last to the first. */
  function NextPlayer(all: seq<Entity>, a: Entity): (n: Entity)
    requires a in all
    ensures n in all
    ensures IndexOf(all, a) < |all| - 1 ==> n == all[IndexOf(all, a) + 1]
    ensures IndexOf(all, a) == |all| - 1 ==> n == all[0]
  {
    // (index + 1) % len(all), with index + 1 <= len(all)
    var i := IndexOf(all, a);
    if i + 1 < |all| then all[i + 1] else all[0]
  }

  /** The `Tapped` markers of `n`'s cards on the board. */
  function Untaps(s: State, n: Entity): (r: set<(Entity, Marker)>)
    ensures forall c, m :: (c, m) in r <==> m == Tapped && c in s.owners && s.owners[c] == n && Has(s, c, Tapped) && Has(s, c, OnBoard)
  {
    set c | c in s.owners && s.owners[c] == n && Has(s, c, Tapped) && Has(s, c, OnBoard) :: (c, Tapped)
  }

  /** The `SummoningSickness` markers of `n`'s cards, wherever they are. */
  function Unsicks(s: State, n: Entity): (r: set<(Entity, Marker)>)
    ensures forall c, m :: (c, m) in r <==> m == SummoningSickness && c in s.owners && s.owners[c] == n && Has(s, c, SummoningSickness)
  {
    set c | c in s.owners && s.owners[c] == n && Has(s, c, SummoningSickness) :: (c, SummoningSickness)
  }

  /**
   * The untap step, the end of summoning sickness, the reset of the land
   * flag and of the mana pool for player `n`, with their events.
   */
  function Refresh(s: State, n: Entity): State
    requires n in s.players
  {
    var s1 := s.(marks := s.marks - Untaps(s, n) - Unsicks(s, n));
    var s2 := RemoveMark(s1, n, PlayedLandThisTurn);
    Emit(Emit(SetMana(s2, n, 0), TurnStarted(n)), ManaPoolUpdated(n, 0))
  }

  /**
   * The draw of the turn: the front id of `n`'s deck is popped and, if that
   * card is `InDeck`, moved to the hand with a CARD_DRAWN event.  A player
   * without a deck draws nothing; a popped id without `InDeck` stays popped
   * (the failing removal is caught).
   */
  function Draw(s: State, n: Entity): (r: State)
    ensures n !in s.decks || s.decks[n] == [] ==> r == s
  {
    if n !in s.decks || s.decks[n] == [] then s
    else
      var card := s.decks[n][0];
      var s1 := s.(decks := s.decks[n := s.decks[n][1..]]);
      if !Has(s1, card, InDeck) then s1
      else Emit(AddMark(RemoveMark(s1, card, InDeck), card, InHand), CardDrawn(n, card))
  }

  /**
   * `_end_turn_for`: heal, pass `ActiveTurn` from `a` to the next `Player`
   * in query order, refresh that player and draw.  A healing candidate
   * without health, or an `a` that is not a player, ends the game loop.
   */
  function EndTurnFor(s: State, a: Entity): (r: Outcome)
    ensures r.Running? <==> !HealBlocked(s, a) && a in s.players
  {
    var all := PlayerList(s);
    if HealBlocked(s, a) then Crashed
    else
      var s1 := Emit(RemoveMark(Heal(s, a), a, ActiveTurn), TurnEnded(a));
      if a !in all then Crashed
      else
        var n := NextPlayer(all, a);
        var s2 := AddMark(s1, n, ActiveTurn);
        if n !in s2.players then Crashed
        else Running(Draw(Refresh(s2, n), n))
  }

  /** The entity holding `ActiveTurn` first in query order, or -1 when none does. */
  function ActivePlayer(s: State): (a: Entity)
    ensures Holders(s, ActiveTurn) == {} ==> a == NoEntity
    ensures Holders(s, ActiveTurn) != {} ==> Has(s, a, ActiveTurn) && forall e :: Has(s, e, ActiveTurn) ==> a <= e
  {
    match FirstHolder(s, ActiveTurn)
    case None => NoEntity
    case Some(a) => a
  }

  /** One EndTurnCommand: only the active player's ends the turn; the command entity is deleted. */
  function EndTurnStep(s: State, cmdEnt: Entity, sender: Entity): (r: Outcome)
    ensures r.Running? ==> !Exists(r.s, cmdEnt)
  {
    var active := ActivePlayer(s);
    if sender == active then
      match EndTurnFor(s, active)
      case Crashed => Crashed
      case Running(t) => Running(DeleteEntity(t, cmdEnt))
    else Running(DeleteEntity(s, cmdEnt))
  }

  /** The EndTurnCommand entities in query order, each with its sender. */
  function EndTurnQueue(s: State): (q: seq<(Entity, Entity)>)
    ensures forall i :: 0 <= i < |q| ==> q[i].0 in s.commands && s.commands[q[i].0] == EndTurn(q[i].1)
  {
    var ids := CommandIds(s, (c: Command) => c.EndTurn?);
    seq(|ids|, i requires 0 <= i < |ids| => (ids[i], s.commands[ids[i]].endingPlayer))
  }

  function RunEndTurns(s: State, q: seq<(Entity, Entity)>): Outcome
    decreases |q|
  {
    if q == [] then Running(s)
    else
      match EndTurnStep(s, q[0].0, q[0].1)
      case Crashed => Crashed
      case Running(t) => RunEndTurns(t, q[1..])
  }

  /** `TurnManagementSystem.process`. */
  function TurnSystem(s: State): Outcome {
    RunEndTurns(s, EndTurnQueue(s))
  }

  // ----- properties -----

  /** An END_TURN from anyone but the active player only deletes the command. */
  lemma EndTurnIgnored(s: State, cmdEnt: Entity, sender: Entity)
    requires sender != ActivePlayer(s)
    ensures EndTurnStep(s, cmdEnt, sender) == Running(DeleteEntity(s, cmdEnt))
  {
  }

  /** The turn's bookkeeping keeps every record but cards, players and decks, and the entity table. */
  lemma RefreshFrame(s: State, n: Entity)
    requires n in s.players
    ensures var r := Refresh(s, n);
      && r == s.(players := r.players, marks := r.marks, events := r.events)
      && r.players == s.players[n := s.players[n].(mana := 0)]
  {
  }

  /**
   * After the refresh, none of `n`'s board cards is tapped, none of `n`'s
   * cards has summoning sickness, `n` may play a land again, and every other
   * marker is as before.
   */
  lemma RefreshMarks(s: State, n: Entity)
    requires n in s.players
    ensures var r := Refresh(s, n);
      && (forall c :: Has(r, c, Tapped) <==> Has(s, c, Tapped) && !(c in s.owners && s.owners[c] == n && Has(s, c, OnBoard)))
      && (forall c :: Has(r, c, SummoningSickness) <==> Has(s, c, SummoningSickness) && !(c in s.owners && s.owners[c] == n))
      && (forall e :: Has(r, e, PlayedLandThisTurn) <==> Has(s, e, PlayedLandThisTurn) && e != n)
      && (forall e, m :: m != Tapped && m != SummoningSickness && m != PlayedLandThisTurn ==> (Has(r, e, m) <==> Has(s, e, m)))
  {
    var r := Refresh(s, n);
    assert r.marks == s.marks - Untaps(s, n) - Unsicks(s, n) - {(n, PlayedLandThisTurn)};
  }

  /**
   * With a non-empty deck whose front card is `InDeck`, the draw removes
   * that id from the front of the deck and moves the card from the deck to
   * the hand.
   */
  lemma DrawsFront(s: State, n: Entity)
    requires n in s.decks && s.decks[n] != [] && Has(s, s.decks[n][0], InDeck)
    ensures var r := Draw(s, n);
      var card := s.decks[n][0];
      && r.decks == s.decks[n := s.decks[n][1..]]
      && Has(r, card, InHand) && !Has(r, card, InDeck)
      && r.events == s.events + [CardDrawn(n, card)]
  {
  }

  /**
   * Ending the turn of the single `ActiveTurn` holder `a`, a player, hands
   * the turn to the next player in query order (cyclically): afterwards
   * that player is the only holder.
   */
  lemma TurnPasses(s: State, a: Entity)
    requires (forall e :: Has(s, e, ActiveTurn) <==> e == a) && a in s.players && !HealBlocked(s, a)
    ensures var r := EndTurnFor(s, a);
      && r.Running?
      && (forall e :: Has(r.s, e, ActiveTurn) <==> e == NextPlayer(PlayerList(s), a))
  {
    var n := NextPlayer(PlayerList(s), a);
    PassedHolders(s, a, n);
    var s2 := Passed(s, a, n);
    assert EndTurnFor(s, a) == Running(Draw(Refresh(s2, n), n));
    RefreshMarks(s2, n);
    DrawKeepsTurn(Refresh(s2, n), n);
  }

  /** The world of `EndTurnFor` once `ActiveTurn` has moved from `a` to `n`. */
  function Passed(s: State, a: Entity, n: Entity): State
    requires !HealBlocked(s, a)
  {
    AddMark(Emit(RemoveMark(Heal(s, a), a, ActiveTurn), TurnEnded(a)), n, ActiveTurn)
  }

  /** Moving the turn from the single holder `a` to `n` makes `n` the single holder. */
  lemma PassedHolders(s: State, a: Entity, n: Entity)
    requires (forall e :: Has(s, e, ActiveTurn) <==> e == a) && !HealBlocked(s, a)
    ensures forall e :: Has(Passed(s, a, n), e, ActiveTurn) <==> e == n
    ensures Passed(s, a, n).players == s.players
  {
    var h := Heal(s, a);
    assert h.marks == s.marks && h.players == s.players;
    var s2 := Passed(s, a, n);
    assert s2.marks == s.marks - {(a, ActiveTurn)} + {(n, ActiveTurn)};
    forall e
      ensures Has(s2, e, ActiveTurn) <==> e == n
    {
      if e != n {
        assert Has(s2, e, ActiveTurn) <==> Has(s, e, ActiveTurn) && e != a;
      }
    }
  }

  /** The draw touches no `ActiveTurn` marker. */
  lemma DrawKeepsTurn(s: State, n: Entity)
    ensures forall e :: Has(Draw(s, n), e, ActiveTurn) <==> Has(s, e, ActiveTurn)
  {
    if n in s.decks && s.decks[n] != [] {
      var card := s.decks[n][0];
      var s1 := s.(decks := s.decks[n := s.decks[n][1..]]);
      if Has(s1, card, InDeck) {
        var s2 := RemoveMark(s1, card, InDeck);
        assert s2.marks == s.marks - {(card, InDeck)};
        assert Draw(s, n).marks == s2.marks + {(card, InHand)};
      }
    }
  }

  /** Whether `n`'s draw of the turn takes a card: the deck is not empty and its front card is `InDeck`. */
  predicate DrawsCard(s: State, n: Entity) {
    n in s.decks && s.decks[n] != [] && Has(s, s.decks[n][0], InDeck)
  }

  /**
   * The draw changes only the decks, the `InDeck` and `InHand` markers and
   * the events: a non-empty deck loses its front id, and CARD_DRAWN is sent
   * exactly when that card was `InDeck`.
   */
  lemma DrawFrame(s: State, n: Entity)
    ensures var r := Draw(s, n);
      && r == s.(decks := r.decks, marks := r.marks, alive := r.alive, events := r.events)
      && (forall e, m :: m != InDeck && m != InHand ==> (Has(r, e, m) <==> Has(s, e, m)))
      && (forall e, m :: !(DrawsCard(s, n) && e == s.decks[n][0]) ==> (Has(r, e, m) <==> Has(s, e, m)))
      && r.decks == (if n in s.decks && s.decks[n] != [] then s.decks[n := s.decks[n][1..]] else s.decks)
      && r.events == s.events + (if DrawsCard(s, n) then [CardDrawn(n, s.decks[n][0])] else [])
  {
    if DrawsCard(s, n) {
      var card := s.decks[n][0];
      var s1 := s.(decks := s.decks[n := s.decks[n][1..]]);
      var s2 := RemoveMark(s1, card, InDeck);
      assert s2.marks == s.marks - {(card, InDeck)};
      assert Draw(s, n).marks == s2.marks + {(card, InHand)};
    }
  }

  /** Passing the turn changes only the healed cards, the `ActiveTurn` markers and the events. */
  lemma PassedFrame(s: State, a: Entity, n: Entity)
    requires !HealBlocked(s, a)
    ensures var p := Passed(s, a, n);
      && p == s.(cards := Heal(s, a).cards, marks := p.marks, alive := p.alive, events := s.events + [TurnEnded(a)])
      && p.marks == s.marks - {(a, ActiveTurn)} + {(n, ActiveTurn)}
  {
  }

  /** `EndTurnFor` for a player `a` is the pass, the refresh and the draw in that order. */
  lemma EndTurnShape(s: State, a: Entity)
    requires a in s.players && !HealBlocked(s, a)
    ensures var n := NextPlayer(PlayerList(s), a);
      && n in s.players && n in Passed(s, a, n).players
      && EndTurnFor(s, a) == Running(Draw(Refresh(Passed(s, a, n), n), n))
  {
    var n := NextPlayer(PlayerList(s), a);
    PassedFrame(s, a, n);
  }

  /**
   * Ending `a`'s turn heals `a`'s board minions: each ends at least at its
   * maximum health, no health goes down, a health changes only to the
   * maximum, and no other card record changes.
   */
  lemma EndTurnHeals(s: State, a: Entity)
    requires a in s.players && !HealBlocked(s, a)
    ensures EndTurnFor(s, a).Running?
    ensures var r := EndTurnFor(s, a).s;
      && r.cards.Keys == s.cards.Keys
      && (forall c :: c in s.cards ==> r.cards[c] == s.cards[c].(health := r.cards[c].health))
      && (forall c :: c in s.cards && !HealCandidate(s, a, c) ==> r.cards[c] == s.cards[c])
      && (forall c :: HealCandidate(s, a, c) ==>
            && r.cards[c].health.Some?
            && r.cards[c].health.value >= s.cards[c].maxHealth.value
            && r.cards[c].health.value >= s.cards[c].health.value)
  {
    var n := NextPlayer(PlayerList(s), a);
    EndTurnShape(s, a);
    var p := Passed(s, a, n);
    PassedFrame(s, a, n);
    RefreshFrame(p, n);
    DrawFrame(Refresh(p, n), n);
    assert EndTurnFor(s, a).s.cards == Heal(s, a).cards;
  }

  /**
   * Ending the turn of the single `ActiveTurn` holder `a` starts the next
   * player's turn: that player's mana pool is 0 and no other player record
   * changes, none of their board cards stays tapped, none of their cards
   * keeps summoning sickness, and their land flag is cleared; these markers
   * stay as they were for every other card and player.
   */
  lemma EndTurnRefreshes(s: State, a: Entity)
    requires a in s.players && !HealBlocked(s, a)
    ensures EndTurnFor(s, a).Running?
    ensures var r := EndTurnFor(s, a).s;
      var n := NextPlayer(PlayerList(s), a);
      && r.players == s.players[n := s.players[n].(mana := 0)]
      && (forall c :: Has(r, c, Tapped) <==> Has(s, c, Tapped) && !(c in s.owners && s.owners[c] == n && Has(s, c, OnBoard)))
      && (forall c :: Has(r, c, SummoningSickness) <==> Has(s, c, SummoningSickness) && !(c in s.owners && s.owners[c] == n))
      && (forall e :: Has(r, e, PlayedLandThisTurn) <==> Has(s, e, PlayedLandThisTurn) && e != n)
  {
    var n := NextPlayer(PlayerList(s), a);
    EndTurnShape(s, a);
    StartRefreshes(s, a, n);
    assert EndTurnFor(s, a).s == Started(s, a, n);
  }

  /** The world after the pass to `n`, the refresh and the draw. */
  function Started(s: State, a: Entity, n: Entity): State
    requires n in s.players && !HealBlocked(s, a)
  {
    PassedKeeps(s, a, n);
    Draw(Refresh(Passed(s, a, n), n), n)
  }

  /** `EndTurnRefreshes` on the pass, the refresh and the draw. */
  lemma StartRefreshes(s: State, a: Entity, n: Entity)
    requires n in s.players && !HealBlocked(s, a)
    ensures var r := Started(s, a, n);
      && r.players == s.players[n := s.players[n].(mana := 0)]
      && (forall c :: Has(r, c, Tapped) <==> Has(s, c, Tapped) && !(c in s.owners && s.owners[c] == n && Has(s, c, OnBoard)))
      && (forall c :: Has(r, c, SummoningSickness) <==> Has(s, c, SummoningSickness) && !(c in s.owners && s.owners[c] == n))
      && (forall e :: Has(r, e, PlayedLandThisTurn) <==> Has(s, e, PlayedLandThisTurn) && e != n)
  {
    StartMana(s, a, n);
    StartUntaps(s, a, n);
    StartWakes(s, a, n);
    StartLandFlag(s, a, n);
  }

  /** The new player's pool is emptied and no other player record changes. */
  lemma StartMana(s: State, a: Entity, n: Entity)
    requires n in s.players && !HealBlocked(s, a)
    ensures Started(s, a, n).players == s.players[n := s.players[n].(mana := 0)]
  {
    var p := Passed(s, a, n);
    PassedKeeps(s, a, n);
    RefreshFrame(p, n);
    DrawFrame(Refresh(p, n), n);
  }

  /** Exactly the new player's board cards are untapped. */
  lemma StartUntaps(s: State, a: Entity, n: Entity)
    requires n in s.players && !HealBlocked(s, a)
    ensures forall c :: Has(Started(s, a, n), c, Tapped) <==>
      Has(s, c, Tapped) && !(c in s.owners && s.owners[c] == n && Has(s, c, OnBoard))
  {
    var q := Refresh(Passed(s, a, n), n);
    DrawFrame(q, n);
    forall c ensures Has(Draw(q, n), c, Tapped) <==> Has(s, c, Tapped) && !(c in s.owners && s.owners[c] == n && Has(s, c, OnBoard)) {
      RefreshAt(s, a, n, c, Tapped);
    }
  }

  /** Exactly the new player's cards lose summoning sickness. */
  lemma StartWakes(s: State, a: Entity, n: Entity)
    requires n in s.players && !HealBlocked(s, a)
    ensures forall c :: Has(Started(s, a, n), c, SummoningSickness) <==>
      Has(s, c, SummoningSickness) && !(c in s.owners && s.owners[c] == n)
  {
    var q := Refresh(Passed(s, a, n), n);
    DrawFrame(q, n);
    forall c ensures Has(Draw(q, n), c, SummoningSickness) <==> Has(s, c, SummoningSickness) && !(c in s.owners && s.owners[c] == n) {
      RefreshAt(s, a, n, c, SummoningSickness);
    }
  }

  /** Exactly the new player's land flag is cleared. */
  lemma StartLandFlag(s: State, a: Entity, n: Entity)
    requires n in s.players && !HealBlocked(s, a)
    ensures forall e :: Has(Started(s, a, n), e, PlayedLandThisTurn) <==> Has(s, e, PlayedLandThisTurn) && e != n
  {
    var q := Refresh(Passed(s, a, n), n);
    DrawFrame(q, n);
    forall e ensures Has(Draw(q, n), e, PlayedLandThisTurn) <==> Has(s, e, PlayedLandThisTurn) && e != n {
      RefreshAt(s, a, n, e, PlayedLandThisTurn);
    }
  }

  /** One refreshed marker of one entity, after the pass and the refresh, in terms of the world before. */
  lemma RefreshAt(s: State, a: Entity, n: Entity, c: Entity, m: Marker)
    requires n in s.players && !HealBlocked(s, a)
    requires m == Tapped || m == SummoningSickness || m == PlayedLandThisTurn
    ensures var q := Refresh(Passed(s, a, n), n);
      Has(q, c, m) <==>
        && Has(s, c, m)
        && (m == Tapped ==> !(c in s.owners && s.owners[c] == n && Has(s, c, OnBoard)))
        && (m == SummoningSickness ==> !(c in s.owners && s.owners[c] == n))
        && (m == PlayedLandThisTurn ==> c != n)
  {
    var p := Passed(s, a, n);
    PassedKeeps(s, a, n);
    RefreshMarks(p, n);
    assert Has(p, c, m) <==> Has(s, c, m);
    assert Has(p, c, OnBoard) <==> Has(s, c, OnBoard);
  }

  /** Passing the turn keeps the players, owners and decks, and every marker but `ActiveTurn`. */
  lemma PassedKeeps(s: State, a: Entity, n: Entity)
    requires !HealBlocked(s, a)
    ensures var p := Passed(s, a, n);
      && p.players == s.players && p.owners == s.owners && p.decks == s.decks
      && p.events == s.events + [TurnEnded(a)]
      && (forall e, m :: m != ActiveTurn ==> (Has(p, e, m) <==> Has(s, e, m)))
  {
    PassedFrame(s, a, n);
  }

  /**
   * Ending `a`'s turn sends TURN_ENDED for `a`, then TURN_STARTED and a
   * mana pool of 0 for the next player `n`, and then draws: a non-empty deck
   * of `n` loses its front id; when that card was `InDeck` it moves to the
   * hand with CARD_DRAWN, and no other deck or hand marker changes.
   */
  lemma EndTurnDraws(s: State, a: Entity)
    requires a in s.players && !HealBlocked(s, a)
    ensures EndTurnFor(s, a).Running?
    ensures var r := EndTurnFor(s, a).s;
      var n := NextPlayer(PlayerList(s), a);
      && r.decks == (if n in s.decks && s.decks[n] != [] then s.decks[n := s.decks[n][1..]] else s.decks)
      && r.events == s.events + [TurnEnded(a), TurnStarted(n), ManaPoolUpdated(n, 0)]
                     + (if DrawsCard(s, n) then [CardDrawn(n, s.decks[n][0])] else [])
      && (DrawsCard(s, n) ==> Has(r, s.decks[n][0], InHand) && !Has(r, s.decks[n][0], InDeck))
      && (forall e, m :: (m == InDeck || m == InHand) && !(DrawsCard(s, n) && e == s.decks[n][0]) ==>
            (Has(r, e, m) <==> Has(s, e, m)))
  {
    var n := NextPlayer(PlayerList(s), a);
    EndTurnShape(s, a);
    StartDraws(s, a, n);
  }

  /** `EndTurnDraws` on the pass, the refresh and the draw. */
  lemma StartDraws(s: State, a: Entity, n: Entity)
    requires n in s.players && !HealBlocked(s, a)
    ensures var r := Draw(Refresh(Passed(s, a, n), n), n);
      && r.decks == (if n in s.decks && s.decks[n] != [] then s.decks[n := s.decks[n][1..]] else s.decks)
      && r.events == s.events + [TurnEnded(a), TurnStarted(n), ManaPoolUpdated(n, 0)]
                     + (if DrawsCard(s, n) then [CardDrawn(n, s.decks[n][0])] else [])
      && (DrawsCard(s, n) ==> Has(r, s.decks[n][0], InHand) && !Has(r, s.decks[n][0], InDeck))
      && (forall e, m :: (m == InDeck || m == InHand) && !(DrawsCard(s, n) && e == s.decks[n][0]) ==>
            (Has(r, e, m) <==> Has(s, e, m)))
  {
    var p := Passed(s, a, n);
    PassedKeeps(s, a, n);
    var q := Refresh(p, n);
    RefreshFrame(p, n);
    RefreshMarks(p, n);
    assert q.decks == s.decks;
    assert q.events == s.events + [TurnEnded(a), TurnStarted(n), ManaPoolUpdated(n, 0)];
    assert DrawsCard(q, n) <==> DrawsCard(s, n) by {
      if n in s.decks && s.decks[n] != [] {
        assert Has(q, s.decks[n][0], InDeck) <==> Has(p, s.decks[n][0], InDeck);
      }
    }
    var r := Draw(q, n);
    DrawFrame(q, n);
    if DrawsCard(s, n) {
      DrawsFront(q, n);
    }
    forall e, m | (m == InDeck || m == InHand) && !(DrawsCard(s, n) && e == s.decks[n][0])
      ensures Has(r, e, m) <==> Has(s, e, m)
    {
      assert Has(r, e, m) <==> Has(q, e, m);
      assert Has(q, e, m) <==> Has(p, e, m);
    }
  }

  /**
   * An END_TURN from the single `ActiveTurn` holder `a` ends `a`'s turn:
   * the command entity is gone, the next player is the only holder of
   * `ActiveTurn`, and that player's mana pool is 0.
   */
  lemma EndTurnStepActive(s: State, cmdEnt: Entity, a: Entity)
    requires (forall e :: Has(s, e, ActiveTurn) <==> e == a) && a in s.players && !HealBlocked(s, a)
    requires cmdEnt !in s.players
    ensures var r := EndTurnStep(s, cmdEnt, a);
      var n := NextPlayer(PlayerList(s), a);
      && r.Running? && !Exists(r.s, cmdEnt)
      && r.s.players == s.players[n := s.players[n].(mana := 0)]
      && (forall e :: Has(r.s, e, ActiveTurn) <==> e == n)
  {
    var n := NextPlayer(PlayerList(s), a);
    SoleHolderActive(s, a);
    TurnPasses(s, a);
    EndTurnRefreshes(s, a);
    var t := EndTurnFor(s, a).s;
    assert EndTurnStep(s, cmdEnt, a) == Running(DeleteEntity(t, cmdEnt));
    DeleteKeepsOthers(t, cmdEnt);
  }

  /** The only `ActiveTurn` holder is the active player. */
  lemma SoleHolderActive(s: State, a: Entity)
    requires forall e :: Has(s, e, ActiveTurn) <==> e == a
    ensures ActivePlayer(s) == a
  {
    assert a in Holders(s, ActiveTurn);
  }

  /** Deleting an entity that is not a player keeps the players and every other entity's markers. */
  lemma DeleteKeepsOthers(t: State, x: Entity)
    requires x !in t.players
    ensures DeleteEntity(t, x).players == t.players
    ensures forall e, m :: Has(DeleteEntity(t, x), e, m) <==> Has(t, e, m) && e != x
  {
    assert DeleteEntity(t, x).marks == MarksWithout(t.marks, x);
  }


  /** A step that does not stop the loop takes out its own command entity and no other command. */
  lemma EndTurnStepCommands(s: State, cmdEnt: Entity, sender: Entity)
    ensures var r := EndTurnStep(s, cmdEnt, sender);
      r.Running? ==> r.s.commands == s.commands - {cmdEnt}
  {
    var active := ActivePlayer(s);
    if sender == active && EndTurnFor(s, active).Running? {
      EndTurnShape(s, active);
      var n := NextPlayer(PlayerList(s), active);
      var p := Passed(s, active, n);
      PassedFrame(s, active, n);
      RefreshFrame(p, n);
      DrawFrame(Refresh(p, n), n);
      assert EndTurnFor(s, active).s.commands == s.commands;
    }
  }

  /** Running a queue without stopping takes out exactly the queued command entities. */
  lemma {:induction false} RunEndTurnsCommands(s: State, q: seq<(Entity, Entity)>)
    ensures var r := RunEndTurns(s, q);
      r.Running? ==> r.s.commands == s.commands - QueuedIds(q)
    decreases |q|
  {
    if q == [] {
      assert QueuedIds(q) == {};
    } else {
      EndTurnStepCommands(s, q[0].0, q[0].1);
      var step := EndTurnStep(s, q[0].0, q[0].1);
      if step.Running? {
        RunEndTurnsCommands(step.s, q[1..]);
        QueuedIdsSplit(q);
      }
    }
  }

  /**
   * Unless an END_TURN stops the game loop, the system consumes its queue:
   * afterwards no EndTurnCommand is left, and every other command is still
   * there unchanged.
   */
  lemma TurnSystemDrains(s: State)
    ensures var r := TurnSystem(s);
      r.Running? ==>
        && (forall e :: e in r.s.commands ==> !r.s.commands[e].EndTurn?)
        && (forall e :: e in s.commands && !s.commands[e].EndTurn? ==> e in r.s.commands && r.s.commands[e] == s.commands[e])
  {
    var q := EndTurnQueue(s);
    RunEndTurnsCommands(s, q);
    var ids := CommandIds(s, (c: Command) => c.EndTurn?);
    assert |q| == |ids|;
    forall e | e in s.commands && s.commands[e].EndTurn? ensures e in QueuedIds(q) {
      assert e in ids;
      var i :| 0 <= i < |ids| && ids[i] == e;
      assert q[i].0 == e;
    }
  }
}
