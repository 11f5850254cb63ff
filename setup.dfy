/**
 * `setup_new_game` and `create_deck_for_player` (src/server/main.py): the
 * world is cleared, players 1 and 2 are created with a graveyard, each gets a
 * shuffled deck of 30 new cards, draws an opening hand of seven, and the
 * MULLIGAN phase begins.
 */
module SetupRules {
  import opened Components
  import opened Ecs
  import opened MulliganRules

  /** One line of the deck recipe. */
  datatype Template = Template(
    name: string, cost: int, kind: CardType,
    attack: Option<int>, health: Option<int>, effect: Option<SpellEffect>)

  const Plains: Template := Template("Plains", 0, Land, None, None, None)
  const Goblin: Template := Template("Goblin", 1, Minion, Some(1), Some(1), None)
  const Knight: Template := Template("Knight", 3, Minion, Some(3), Some(3), None)
  const Fireball: Template := Template("Fireball", 4, Spell, None, None, Some(SpellEffect(DealDamage, 6, true)))

  /** Size of a deck and of an opening hand. */
  const DeckSize: nat := 30
  const HandSize: nat := 7

  function Repeat(t: Template, n: nat): (q: seq<Template>)
    ensures |q| == n && forall i :: 0 <= i < n ==> q[i] == t
  {
    seq(n, _ => t)
  }

  /** The recipe in creation order: 15 Plains, 8 Goblins, 4 Knights, 3 Fireballs. */
  function DeckPlan(): (q: seq<Template>)
    ensures |q| == DeckSize
  {
    Repeat(Plains, 15) + Repeat(Goblin, 8) + Repeat(Knight, 4) + Repeat(Fireball, 3)
  }

  /**
   * The card record a template makes: a minion also gets its attack, its
   * health and a maximum health equal to it; other cards keep the defaults.
   */
  function InfoOf(t: Template): (c: CardInfo)
    ensures c.name == t.name && c.cost == t.cost && c.cardType == t.kind && c.produces == None
    ensures t.kind == Minion ==> c.attack == t.attack && c.health == t.health && c.maxHealth == t.health
    ensures t.kind != Minion ==> c.attack == None && c.health == None && c.maxHealth == None
  {
    var c := NewCardInfo(t.name, t.kind, t.cost);
    if t.kind == Minion then c.(attack := t.attack, health := t.health, maxHealth := t.health) else c
  }

  /** A new card of `p` made from `t`: a fresh entity in the deck, with the spell's effect if any. */
  function CreateCard(s: State, p: Entity, t: Template): State
  {
    var c := s.nextId;
    s.(cards := s.cards[c := InfoOf(t)], owners := s.owners[c := p],
       effects := if t.effect.Some? then s.effects[c := t.effect.value] else s.effects,
       marks := s.marks + {(c, InDeck)}, alive := s.alive + {c}, nextId := c + 1)
  }

  /**
   * A created card is the fresh entity `nextId`: it exists, carries the
   * template's record and effect, is owned by `p` and lies in the deck; the
   * card and owner tables gain only that entry, and no other entity gains
   * or loses a marker.
   */
  lemma NewCard(s: State, p: Entity, t: Template)
    ensures var r := CreateCard(s, p, t); var c := s.nextId;
      && r.nextId == c + 1 && Exists(r, c)
      && r.cards == s.cards[c := InfoOf(t)] && r.owners == s.owners[c := p] && Has(r, c, InDeck)
      && (t.effect.Some? ==> c in r.effects && r.effects[c] == t.effect.value)
      && (forall e, m :: e != c ==> (Has(r, e, m) <==> Has(s, e, m)))
  {
    var r := CreateCard(s, p, t);
    assert r.marks == s.marks + {(s.nextId, InDeck)};
  }

  /** The first `n` cards of the recipe, created in order for `p`; nothing but the entity tables changes. */
  function CreateDeck(s: State, p: Entity, n: nat): (r: State)
    requires n <= DeckSize
    ensures r.nextId == s.nextId + n
    ensures r == s.(cards := r.cards, owners := r.owners, effects := r.effects, marks := r.marks,
                    alive := r.alive, nextId := r.nextId)
  {
    if n == 0 then s else CreateCard(CreateDeck(s, p, n - 1), p, DeckPlan()[n - 1])
  }

  /** The handles `lo`, `lo + 1`, ..., `lo + n - 1`. */
  function Range(lo: int, n: nat): (q: seq<Entity>)
    ensures |q| == n && forall i :: 0 <= i < n ==> q[i] == lo + i
  {
    seq(n, i => lo + i)
  }

  /** A new `Player` entity with the given id and an empty `Graveyard`. */
  function CreatePlayer(s: State, playerId: int): (r: State)
    ensures var e := s.nextId;
      && r.nextId == e + 1 && Exists(r, e)
      && e in r.players && r.players[e].playerId == playerId && r.players[e].health == 30 && r.players[e].mana == 0
      && e in r.graveyards && r.graveyards[e] == []
    ensures forall x :: x != s.nextId ==> (x in r.players <==> x in s.players) && (x in r.players ==> r.players[x] == s.players[x])
    ensures r.marks == s.marks && r.cards == s.cards && r.decks == s.decks
  {
    var e := s.nextId;
    s.(players := s.players[e := NewPlayer(playerId)], graveyards := s.graveyards[e := []],
       alive := s.alive + {e}, nextId := e + 1)
  }

  /** `p`'s deck is created and shuffled, and becomes `p`'s `Deck`. */
  function DealDeck(s: State, p: Entity, shuffle: Shuffler): (r: State)
    ensures p in r.decks && forall q :: q in s.decks ==> q in r.decks
  {
    var ids := Range(s.nextId, DeckSize);
    var s1 := CreateDeck(s, p, DeckSize);
    s1.(decks := s1.decks[p := Shuffled(ids, shuffle(ids))])
  }

  /** Players 1 and 2 draw seven cards each; a card that is not `InDeck` makes the removal fail. */
  function OpeningHands(s: State): (r: Outcome)
    requires 1 in s.decks && 2 in s.decks
    ensures r.Running? ==> r.s.decks.Keys == s.decks.Keys
  {
    match DrawCards(s, 1, HandSize)
    case Crashed => Crashed
    case Running(s1) => DrawCards(s1, 2, HandSize)
  }

  /** The phase entity says MULLIGAN; both players are deciding, with a count of zero. */
  function StartMulligan(s: State): State {
    var phase := s.nextId;
    s.(phases := s.phases[phase := MulliganPhase],
       marks := s.marks + {(1, MulliganDecisionPhase), (2, MulliganDecisionPhase)},
       mulligans := s.mulligans[1 := NewMulliganCount()][2 := NewMulliganCount()],
       alive := s.alive + {phase}, nextId := phase + 1)
  }

  /** The two players, before their decks. */
  function Seated(events: seq<Event>): State {
    CreatePlayer(CreatePlayer(Cleared(events), 1), 2)
  }

  /** The two decks, before the opening hands. */
  function Dealt(events: seq<Event>, shuffle: Shuffler): (r: State)
    ensures 1 in r.decks && 2 in r.decks
  {
    DealDeck(DealDeck(Seated(events), 1, shuffle), 2, shuffle)
  }

  /** `setup_new_game`: the world is rebuilt; the event queue is kept. */
  function NewGame(events: seq<Event>, shuffle: Shuffler): Outcome {
    match OpeningHands(Dealt(events, shuffle))
    case Crashed => Crashed
    case Running(s) => Running(StartMulligan(s))
  }

  // ----- properties -----

  lemma {:induction false} RepeatCount(t: Template, n: nat, u: Template)
    ensures multiset(Repeat(t, n))[u] == if u == t then n else 0
  {
    if n > 0 {
      assert Repeat(t, n) == Repeat(t, n - 1) + [t];
      RepeatCount(t, n - 1, u);
    }
  }

  /** The recipe: 30 cards, of which 15 Plains, 8 Goblins, 4 Knights and 3 Fireballs. */
  lemma DeckRecipe()
    ensures |DeckPlan()| == 30
    ensures multiset(DeckPlan()) == multiset{}[Plains := 15][Goblin := 8][Knight := 4][Fireball := 3]
  {
    var m := multiset{}[Plains := 15][Goblin := 8][Knight := 4][Fireball := 3];
    forall u ensures multiset(DeckPlan())[u] == m[u] {
      RepeatCount(Plains, 15, u);
      RepeatCount(Goblin, 8, u);
      RepeatCount(Knight, 4, u);
      RepeatCount(Fireball, 3, u);
    }
  }

  /** No marker is on an entity the world has not handed out yet. */
  ghost predicate MarksBelow(s: State) {
    forall e, m :: Has(s, e, m) ==> e < s.nextId
  }

  /** Creating `n` cards adds exactly the `InDeck` markers of the new entities. */
  lemma {:induction false} CreateDeckMarks(s: State, p: Entity, n: nat)
    requires n <= DeckSize
    ensures var r := CreateDeck(s, p, n);
      forall e, m :: Has(r, e, m) <==> Has(s, e, m) || (m == InDeck && s.nextId <= e < s.nextId + n)
    decreases n
  {
    if n > 0 {
      CreateDeckMarks(s, p, n - 1);
    }
  }

  /** Entities `base` to `base + n - 1` of `r` are `p`'s cards from the first `n` lines of the recipe. */
  ghost predicate MadeUpTo(r: State, p: Entity, base: int, n: nat)
    requires n <= DeckSize
  {
    forall e :: base <= e < base + n ==>
      && e in r.cards && r.cards[e] == InfoOf(DeckPlan()[e - base])
      && e in r.owners && r.owners[e] == p
  }

  /**
   * Creating `n` cards of the recipe for `p` makes entities `nextId` to
   * `nextId + n - 1`, the `i`-th from the `i`-th line of the recipe and owned
   * by `p`.
   */
  lemma {:induction false} CreateDeckRecords(s: State, p: Entity, n: nat)
    requires n <= DeckSize
    ensures MadeUpTo(CreateDeck(s, p, n), p, s.nextId, n)
    decreases n
  {
    if n > 0 {
      var prev := CreateDeck(s, p, n - 1);
      var c := prev.nextId;
      var r := CreateDeck(s, p, n);
      CreateDeckRecords(s, p, n - 1);
      assert MadeUpTo(prev, p, s.nextId, n - 1);
      assert c == s.nextId + n - 1;
      assert r == CreateCard(prev, p, DeckPlan()[n - 1]);
      NewCard(prev, p, DeckPlan()[n - 1]);
      forall e | s.nextId <= e < s.nextId + n
        ensures e in r.cards && r.cards[e] == InfoOf(DeckPlan()[e - s.nextId])
        ensures e in r.owners && r.owners[e] == p
      {
        if e == c {
          assert e - s.nextId == n - 1;
        } else {
          assert s.nextId <= e < s.nextId + (n - 1);
        }
      }
    }
  }

  /** Creating cards leaves the owner and the card record of every older entity as they were. */
  lemma {:induction false} CreateDeckKeepsOlder(s: State, p: Entity, n: nat)
    requires n <= DeckSize
    ensures var r := CreateDeck(s, p, n);
      forall e :: e < s.nextId ==>
        && (e in r.owners <==> e in s.owners) && (e in r.owners ==> r.owners[e] == s.owners[e])
        && (e in r.cards <==> e in s.cards) && (e in r.cards ==> r.cards[e] == s.cards[e])
    decreases n
  {
    if n > 0 {
      CreateDeckKeepsOlder(s, p, n - 1);
      var prev := CreateDeck(s, p, n - 1);
      var r := CreateDeck(s, p, n);
      assert r == CreateCard(prev, p, DeckPlan()[n - 1]);
      assert r.cards == prev.cards[prev.nextId := InfoOf(DeckPlan()[n - 1])];
      assert r.owners == prev.owners[prev.nextId := p];
    }
  }

  /** The cards `DealDeck` makes for `p`: the `i`-th new entity is the `i`-th line of the recipe. */
  ghost predicate DeckMade(r: State, p: Entity, base: int) {
    forall e :: base <= e < base + DeckSize ==>
      && e in r.cards && r.cards[e] == InfoOf(DeckPlan()[e - base])
      && e in r.owners && r.owners[e] == p
  }

  /** Older entities keep their owner, their card record and their markers. */
  ghost predicate OlderAlike(s: State, r: State) {
    forall e :: e < s.nextId ==>
      && (e in r.owners <==> e in s.owners) && (e in r.owners ==> r.owners[e] == s.owners[e])
      && (e in r.cards <==> e in s.cards) && (e in r.cards ==> r.cards[e] == s.cards[e])
      && (forall m :: Has(r, e, m) <==> Has(s, e, m))
  }

  /** What dealing a deck does to the entity tables. */
  lemma DealDeckTables(s: State, p: Entity, shuffle: Shuffler)
    requires MarksBelow(s)
    ensures var r := DealDeck(s, p, shuffle);
      && MarksBelow(r) && r.nextId == s.nextId + DeckSize
      && DeckMade(r, p, s.nextId) && OlderAlike(s, r)
      && (forall e, m :: s.nextId <= e < r.nextId ==> (Has(r, e, m) <==> m == InDeck))
      && r.decks == s.decks[p := r.decks[p]]
      && r == s.(cards := r.cards, owners := r.owners, effects := r.effects, marks := r.marks,
                 alive := r.alive, nextId := r.nextId, decks := r.decks)
  {
    var s1 := CreateDeck(s, p, DeckSize);
    var r := DealDeck(s, p, shuffle);
    assert r.marks == s1.marks && r.cards == s1.cards && r.owners == s1.owners;
    CreateDeckMarks(s, p, DeckSize);
    CreateDeckRecords(s, p, DeckSize);
    CreateDeckKeepsOlder(s, p, DeckSize);
    forall e, m ensures Has(r, e, m) <==> Has(s, e, m) || (m == InDeck && s.nextId <= e < r.nextId) {
      assert Has(r, e, m) <==> Has(s1, e, m);
    }
  }

  /**
   * Dealing `p`'s deck: 30 new cards of `p`, each once in the shuffled deck
   * and in the deck only, so the deck is sound and `p`'s hand stays empty.
   */
  lemma DealDeckSound(s: State, p: Entity, shuffle: Shuffler)
    requires MarksBelow(s) && HandSet(s, p) == {}
    ensures var r := DealDeck(s, p, shuffle);
      && DeckSound(r, p) && HandSet(r, p) == {} && |r.decks[p]| == DeckSize
      && multiset(r.decks[p]) == multiset(Range(s.nextId, DeckSize))
  {
    var ids := Range(s.nextId, DeckSize);
    DealDeckTables(s, p, shuffle);
    var r := DealDeck(s, p, shuffle);
    var q := r.decks[p];
    assert multiset(q) == multiset(ids);
    assert StrictlyIncreasing(ids);
    IncreasingDistinct(ids);
    forall c | c in q
      ensures c in r.owners && r.owners[c] == p && Has(r, c, InDeck) && !Has(r, c, InHand)
    {
      assert c in multiset(ids);
      var i :| 0 <= i < DeckSize && ids[i] == c;
    }
    assert |q| == |multiset(q)|;
    forall c | c in r.owners && r.owners[c] == p
      ensures !Has(r, c, InHand)
    {
      if c < s.nextId {
        assert c !in HandSet(s, p);
      }
    }
    assert HandSet(r, p) == {};
  }

  /** The players, alone in a cleared world. */
  lemma SeatedShape(events: seq<Event>)
    ensures var s := Seated(events);
      && s.players == map[1 := NewPlayer(1), 2 := NewPlayer(2)]
      && s.graveyards == map[1 := [], 2 := []]
      && s.marks == {} && s.owners == map[] && s.cards == map[] && s.decks == map[]
      && s.mulligans == map[] && s.phases == map[] && s.gameOvers == map[]
      && s.nextId == 3 && s.events == events
  {
  }

  /** A card relabelled that `q` does not own leaves `q`'s hand and deck as they were. */
  lemma RelabelElsewhere(s: State, t: State, q: Entity, card: Entity)
    requires q in s.decks && q in t.decks && t.decks[q] == s.decks[q] && t.owners == s.owners
    requires card in s.owners && s.owners[card] != q
    requires forall e, m :: e != card ==> (Has(t, e, m) <==> Has(s, e, m))
    ensures DeckSound(s, q) ==> DeckSound(t, q)
    ensures HandSet(t, q) == HandSet(s, q)
  {
    if DeckSound(s, q) {
      forall c | c in t.decks[q] ensures Has(t, c, InDeck) && !Has(t, c, InHand) {
        assert c != card;
      }
    }
  }

  /** Drawing for `p` leaves every other player's hand and deck as they were. */
  lemma {:induction false} DrawCardsOthers(s: State, p: Entity, q: Entity, k: nat)
    requires p != q && p in s.decks && q in s.decks && DeckSound(s, p) && DeckSound(s, q)
    ensures var r := DrawCards(s, p, k);
      && r.Running? && q in r.s.decks && r.s.decks[q] == s.decks[q]
      && DeckSound(r.s, q) && HandSet(r.s, q) == HandSet(s, q)
    decreases k
  {
    if k != 0 && s.decks[p] != [] {
      var card := s.decks[p][0];
      var s1 := s.(decks := s.decks[p := s.decks[p][1..]]);
      var t := Relabel(s1, card, InDeck, InHand);
      DrawOne(s, p);
      assert card in s.decks[p];
      forall e, m | e != card ensures Has(t, e, m) <==> Has(s, e, m) {
      }
      RelabelElsewhere(s, t, q, card);
      DrawCardsOthers(t, p, q, k - 1);
    }
  }

  /** Both decks dealt: 30 sound cards each, empty hands, player 1's cards 3 to 32 and player 2's 33 to 62. */
  lemma DealtShape(events: seq<Event>, shuffle: Shuffler)
    ensures var d := Dealt(events, shuffle);
      && DeckSound(d, 1) && DeckSound(d, 2) && HandSet(d, 1) == {} && HandSet(d, 2) == {}
      && |d.decks[1]| == DeckSize && |d.decks[2]| == DeckSize
      && DeckMade(d, 1, 3) && DeckMade(d, 2, 33)
      && d.players == map[1 := NewPlayer(1), 2 := NewPlayer(2)]
      && d.graveyards == map[1 := [], 2 := []]
      && d.mulligans == map[] && d.phases == map[] && d.gameOvers == map[]
      && d.nextId == 63 && d.events == events
  {
    var s0 := Seated(events);
    SeatedShape(events);
    assert MarksBelow(s0);
    assert HandSet(s0, 1) == {};
    var d1 := DealDeck(s0, 1, shuffle);
    DealDeckTables(s0, 1, shuffle);
    DealDeckSound(s0, 1, shuffle);
    var d := DealDeck(d1, 2, shuffle);
    DealDeckTables(d1, 2, shuffle);
    forall c | c in d1.owners && d1.owners[c] == 2 ensures !Has(d1, c, InHand) {
    }
    assert HandSet(d1, 2) == {};
    DealDeckSound(d1, 2, shuffle);
    assert d.decks[1] == d1.decks[1];
    forall c | c in d.decks[1]
      ensures c in d.owners && d.owners[c] == 1 && Has(d, c, InDeck) && !Has(d, c, InHand)
    {
      assert Has(d1, c, InDeck);
    }
    forall c | c in d.owners && d.owners[c] == 1 ensures !Has(d, c, InHand) {
      if c < 33 {
        assert c !in HandSet(d1, 1);
      }
    }
    assert HandSet(d, 1) == {};
  }

  /** The opening hands: seven cards each, 23 left in each sound deck. */
  lemma OpeningShape(d: State)
    requires 1 in d.decks && 2 in d.decks && DeckSound(d, 1) && DeckSound(d, 2)
    requires HandSet(d, 1) == {} && HandSet(d, 2) == {}
    requires |d.decks[1]| == DeckSize && |d.decks[2]| == DeckSize
    ensures var o := OpeningHands(d);
      && o.Running? && CardsMoved(d, o.s) && OtherMarksAlike(o.s, d)
      && DeckSound(o.s, 1) && DeckSound(o.s, 2)
      && |HandSet(o.s, 1)| == HandSize && |HandSet(o.s, 2)| == HandSize
      && |o.s.decks[1]| == DeckSize - HandSize && |o.s.decks[2]| == DeckSize - HandSize
  {
    DrawCardsCounts(d, 1, HandSize);
    DrawCardsOthers(d, 1, 2, HandSize);
    var o1 := DrawCards(d, 1, HandSize).s;
    DrawCardsCounts(o1, 2, HandSize);
    DrawCardsOthers(o1, 2, 1, HandSize);
    var o := DrawCards(o1, 2, HandSize).s;
    OtherMarksTrans(o, o1, d);
  }

  /**
   * A new game: the two players at 30 health and no mana, each with seven
   * cards in hand and a sound deck of the other 23, deciding on a mulligan
   * with a count of zero, in the MULLIGAN phase; every card is the one the
   * recipe names, and the event queue is kept.
   */
  lemma NewGameReady(events: seq<Event>, shuffle: Shuffler)
    ensures var r := NewGame(events, shuffle);
      && r.Running?
      && r.s.players == map[1 := NewPlayer(1), 2 := NewPlayer(2)]
      && r.s.graveyards == map[1 := [], 2 := []] && r.s.gameOvers == map[]
      && r.s.phases == map[63 := MulliganPhase] && InMulliganPhase(r.s)
      && r.s.nextId == 64 && r.s.events == events
      && DeckMade(r.s, 1, 3) && DeckMade(r.s, 2, 33)
      && (forall p | p == 1 || p == 2 ::
            && p in r.s.decks && DeckSound(r.s, p)
            && |HandSet(r.s, p)| == 7 && |r.s.decks[p]| == 23 && Total(r.s, p) == 30
            && p in r.s.mulligans && r.s.mulligans[p] == 0 && Has(r.s, p, MulliganDecisionPhase))
  {
    var d := Dealt(events, shuffle);
    DealtShape(events, shuffle);
    OpeningShape(d);
    var o := OpeningHands(d).s;
    StartMulliganShape(o);
    StartMulliganKeeps(o, 1);
    StartMulliganKeeps(o, 2);
  }

  /** The phase entity is the first and only one, and both players are deciding with a count of zero. */
  lemma StartMulliganShape(o: State)
    requires o.phases == map[]
    ensures var r := StartMulligan(o);
      && r.phases == map[o.nextId := MulliganPhase] && InMulliganPhase(r) && r.nextId == o.nextId + 1
      && r.mulligans == o.mulligans[1 := 0][2 := 0]
      && Has(r, 1, MulliganDecisionPhase) && Has(r, 2, MulliganDecisionPhase)
      && r == o.(phases := r.phases, marks := r.marks, mulligans := r.mulligans, alive := r.alive, nextId := r.nextId)
  {
    var r := StartMulligan(o);
    assert r.phases.Keys == {o.nextId};
    assert IsLeast(o.nextId, r.phases.Keys);
  }

  /** Opening the MULLIGAN phase moves no card. */
  lemma StartMulliganKeeps(o: State, p: Entity)
    requires p in o.decks && DeckSound(o, p)
    ensures var r := StartMulligan(o);
      DeckSound(r, p) && HandSet(r, p) == HandSet(o, p) && r.decks == o.decks
  {
    var r := StartMulligan(o);
    forall c ensures (Has(r, c, InDeck) <==> Has(o, c, InDeck)) && (Has(r, c, InHand) <==> Has(o, c, InHand)) {
    }
  }
}
