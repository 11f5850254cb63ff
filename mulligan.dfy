/**
 * `MulliganSystem` (src/server/systems.py): while the game phase is
 * MULLIGAN, players send their hand back and draw seven new cards, put as
 * many cards on the bottom of their deck as they have mulliganed, or keep
 * their hand; when every player has kept, the game starts with entity 1.
 *
 * No step of this system catches an exception: a missing component ends the
 * game loop (`Crashed`).
 */
module MulliganRules {
  import opened Components
  import opened Ecs

  // ----- shuffling -----

  /**
   * The order `random.shuffle` leaves a list in is a parameter of the model:
   * a shuffler proposes an order, and a proposal that is not a rearrangement
   * of the list is read as the list itself.  Every rearrangement can be
   * proposed, so every outcome of the shuffle is covered.
   */
  type Shuffler = seq<Entity> -> seq<Entity>

  function Shuffled(q: seq<Entity>, proposal: seq<Entity>): (r: seq<Entity>)
    ensures multiset(r) == multiset(q)
    ensures multiset(proposal) == multiset(q) ==> r == proposal
  {
    if multiset(proposal) == multiset(q) then proposal else q
  }

  /** No id occurs twice. */
  ghost predicate Distinct(q: seq<Entity>) {
    forall x :: multiset(q)[x] <= 1
  }

  lemma {:induction false} IncreasingDistinct(q: seq<Entity>)
    requires StrictlyIncreasing(q)
    ensures Distinct(q)
    decreases |q|
  {
    if q != [] {
      var t := q[1..];
      assert StrictlyIncreasing(t) by {
        forall i, j | 0 <= i < j < |t| ensures t[i] < t[j] {
          assert t[i] == q[i + 1] && t[j] == q[j + 1];
        }
      }
      IncreasingDistinct(t);
      assert q[0] !in t by {
        forall i | 0 <= i < |t| ensures t[i] != q[0] { assert t[i] == q[i + 1]; }
      }
      assert q == [q[0]] + t;
      assert multiset(q) == multiset{q[0]} + multiset(t);
    }
  }

  lemma DistinctTail(q: seq<Entity>)
    requires Distinct(q) && q != []
    ensures Distinct(q[1..]) && q[0] !in q[1..]
  {
    var h, t := q[0], q[1..];
    assert q == [h] + t;
    var m := multiset(t);
    assert multiset(q) == multiset{h} + m;
    forall x ensures m[x] <= 1 {
      assert multiset(q)[x] == multiset{h}[x] + m[x];
    }
    assert multiset(q)[h] == multiset{h}[h] + m[h];
    assert m[h] == 0;
  }

  // ----- queries -----

  /** The game phase is MULLIGAN: the first phase entity in query order says so. */
  predicate InMulliganPhase(s: State) {
    s.phases != map[] && s.phases[Least(s.phases.Keys)] == MulliganPhase
  }

  /** The cards owned by `p` that are in a hand. */
  function HandSet(s: State, p: Entity): (h: set<Entity>)
    ensures forall c :: c in h <==> c in s.owners && s.owners[c] == p && Has(s, c, InHand)
  {
    set c | c in s.owners && s.owners[c] == p && Has(s, c, InHand)
  }

  /**
   * What the mulligan relies on about `p`'s deck, as setup builds it: no id
   * twice, and every id a card of `p` that is in the deck and not in a hand.
   */
  ghost predicate DeckSound(s: State, p: Entity)
    requires p in s.decks
  {
    && Distinct(s.decks[p])
    && forall c :: c in s.decks[p] ==>
         c in s.owners && s.owners[c] == p && Has(s, c, InDeck) && !Has(s, c, InHand)
  }

  // ----- MulliganCommand -----

  /**
   * `c` trades marker `from` for marker `to`.  Removing one marker and
   * adding another leaves the card in the entity table.
   */
  function Relabel(s: State, c: Entity, from: Marker, to: Marker): State {
    s.(marks := s.marks - {(c, from)} + {(c, to)}, alive := s.alive + {c})
  }

  /** Each listed card leaves the hand for the bottom of `p`'s deck, in order. */
  function ReturnCards(s: State, p: Entity, cards: seq<Entity>): (r: State)
    requires p in s.decks
    ensures p in r.decks
    decreases |cards|
  {
    if cards == [] then s else ReturnCards(PutUnder(s, p, cards[0]), p, cards[1..])
  }

  /** `p`'s hand in query order (the holders of both `Owner` and `InHand`) goes back to the deck. */
  function ReturnHand(s: State, p: Entity): (r: State)
    requires p in s.decks
    ensures p in r.decks
  {
    ReturnCards(s, p, Ascending(HandSet(s, p)))
  }

  /**
   * Up to `k` cards are popped from the front of `p`'s deck into the hand;
   * a popped id without `InDeck` makes the removal fail.
   */
  function DrawCards(s: State, p: Entity, k: nat): (r: Outcome)
    requires p in s.decks
    ensures r.Running? ==> r.s.decks.Keys == s.decks.Keys
    decreases k
  {
    if k == 0 || s.decks[p] == [] then Running(s)
    else
      var card := s.decks[p][0];
      var s1 := s.(decks := s.decks[p := s.decks[p][1..]]);
      if !Has(s1, card, InDeck) then Crashed
      else DrawCards(Relabel(s1, card, InDeck, InHand), p, k - 1)
  }

  /** The shuffle of `p`'s deck. */
  function ShuffleDeck(s: State, p: Entity, shuffle: Shuffler): (r: State)
    requires p in s.decks
    ensures p in r.decks
  {
    var d := s.decks[p];
    s.(decks := s.decks[p := Shuffled(d, shuffle(d))])
  }

  /** The mulligan is counted, and the hand returned to the deck, which is shuffled. */
  function Prepare(s: State, p: Entity, shuffle: Shuffler): (r: State)
    requires p in s.mulligans && p in s.decks
    ensures p in r.decks
  {
    ShuffleDeck(ReturnHand(s.(mulligans := s.mulligans[p := s.mulligans[p] + 1]), p), p, shuffle)
  }

  /** The mulligan proper: count it, return and shuffle the hand, draw seven. */
  function Redraw(s: State, p: Entity, shuffle: Shuffler): (r: Outcome)
    requires p in s.mulligans && p in s.decks
  {
    DrawCards(Prepare(s, p, shuffle), p, 7)
  }

  /**
   * One MulliganCommand of player `p`.  Without `MulliganDecisionPhase` the
   * command is skipped and stays in the world; otherwise the hand is
   * redrawn, the decision marker is removed, MULLIGAN_STATE_CHANGED is sent
   * and the command entity is deleted.
   */
  function MulliganStep(s: State, cmdEnt: Entity, p: Entity, shuffle: Shuffler): (r: Outcome)
    ensures !Has(s, p, MulliganDecisionPhase) ==> r == Running(s)
    ensures Has(s, p, MulliganDecisionPhase) && (p !in s.mulligans || p !in s.decks) ==> r == Crashed
  {
    if !Has(s, p, MulliganDecisionPhase) then Running(s)
    else if p !in s.mulligans || p !in s.decks then Crashed
    else
      match Redraw(s, p, shuffle)
      case Crashed => Crashed
      case Running(t) => Running(Decided(t, cmdEnt, p))
  }

  /** The player leaves the decision phase, the change is announced and the command is deleted. */
  function Decided(s: State, cmdEnt: Entity, p: Entity): (r: State)
    ensures !Has(r, p, MulliganDecisionPhase) && !Exists(r, cmdEnt)
    ensures r.events == s.events + [MulliganStateChanged]
  {
    DeleteEntity(Emit(RemoveMark(s, p, MulliganDecisionPhase), MulliganStateChanged), cmdEnt)
  }

  // ----- PutCardsBottomCommand -----

  /** A card `PutBack` moves: in a hand and owned by `p`. */
  predicate Movable(s: State, p: Entity, c: Entity) {
    Has(s, c, InHand) && c in s.owners && s.owners[c] == p
  }

  /** Card `c` leaves the hand for the bottom of `p`'s deck. */
  function PutUnder(s: State, p: Entity, c: Entity): (r: State)
    requires p in s.decks
    ensures p in r.decks
  {
    var s1 := Relabel(s, c, InHand, InDeck);
    s1.(decks := s1.decks[p := s1.decks[p] + [c]])
  }

  /**
   * The listed ids, that are in a hand and owned by `p` go to the
   * bottom of `p`'s deck.  An id that is not an entity makes the marker
   * lookup fail, and so does an id in a hand without an owner; the loop has
   * no handler, so either stops the game loop.
   */
  function PutBack(s: State, p: Entity, cards: seq<Entity>): (r: Outcome)
    requires p in s.decks
    ensures r.Running? ==> p in r.s.decks
    decreases |cards|
  {
    if cards == [] then Running(s)
    else
      var c := cards[0];
      if !Exists(s, c) then Crashed
      else if Has(s, c, InHand) && c !in s.owners then Crashed
      else
        var s1 := if Movable(s, p, c) then PutUnder(s, p, c) else s;
        PutBack(s1, p, cards[1..])
  }

  /**
   * The listed ids that are movable in `s` and not in `seen`, in list
   * order, each at its first occurrence.
   */
  function MovedFrom(s: State, p: Entity, cards: seq<Entity>, seen: set<Entity>): (m: seq<Entity>)
    ensures forall c :: c in m <==> c in cards && Movable(s, p, c) && c !in seen
    decreases |cards|
  {
    if cards == [] then []
    else
      var c := cards[0];
      assert forall x :: x in cards <==> x == c || x in cards[1..];
      if Movable(s, p, c) && c !in seen then [c] + MovedFrom(s, p, cards[1..], seen + {c})
      else MovedFrom(s, p, cards[1..], seen)
  }

  /**
   * The ids `PutBack` adds to the bottom of the deck, in the order they are
   * added: the listed ids that are movable at the start, each at its first
   * occurrence (a repeated id is no longer in a hand when it comes again).
   */
  function Moved(s: State, p: Entity, cards: seq<Entity>): (m: seq<Entity>)
    ensures forall c :: c in m <==> c in cards && Movable(s, p, c)
  {
    MovedFrom(s, p, cards, {})
  }

  /**
   * One PutCardsBottomCommand.  A list whose length differs from the
   * player's mulligan count is skipped and the command stays; otherwise the
   * cards go back, `MulliganDecisionPhase` is restored, MULLIGAN_STATE_CHANGED
   * is sent and the command entity is deleted.
   */
  function PutBottomStep(s: State, cmdEnt: Entity, cmd: PutCardsBottomCommand): (r: Outcome)
    ensures cmd.player !in s.mulligans ==> r == Crashed
    ensures cmd.player in s.mulligans && |cmd.cards| != s.mulligans[cmd.player] ==> r == Running(s)
  {
    var p := cmd.player;
    if p !in s.mulligans then Crashed
    else if |cmd.cards| != s.mulligans[p] then Running(s)
    else if p !in s.decks then Crashed
    else
      match PutBack(s, p, cmd.cards)
      case Crashed => Crashed
      case Running(t) => Running(DeleteEntity(Emit(AddMark(t, p, MulliganDecisionPhase), MulliganStateChanged), cmdEnt))
  }

  // ----- KeepHandCommand -----

  /**
   * One KeepHandCommand: a deciding player keeps the hand; in every case
   * MULLIGAN_STATE_CHANGED is sent and the command entity is deleted.
   */
  function KeepStep(s: State, cmdEnt: Entity, p: Entity): (r: State)
    ensures !Exists(r, cmdEnt)
    ensures r.events == s.events + [MulliganStateChanged]
  {
    var s1 := if Has(s, p, MulliganDecisionPhase)
      then AddMark(RemoveMark(s, p, MulliganDecisionPhase), p, KeptHand)
      else s;
    DeleteEntity(Emit(s1, MulliganStateChanged), cmdEnt)
  }

  // ----- the start of the game -----

  /** Every player has kept a hand: as many `KeptHand` holders as `Player` entities. */
  predicate AllKept(s: State) {
    |Holders(s, KeptHand)| == |s.players.Keys|
  }

  /** The first phase entity switches to GAME_RUNNING and entity 1 takes the first turn. */
  function StartGame(s: State): (r: State)
    ensures Has(r, 1, ActiveTurn)
    ensures r.events == s.events + [TurnStarted(1)]
  {
    var s1 := if s.phases == map[] then s else s.(phases := s.phases[Least(s.phases.Keys) := GameRunning]);
    Emit(AddMark(s1, 1, ActiveTurn), TurnStarted(1))
  }

  // ----- the system -----

  function MulliganQueue(s: State): (q: seq<(Entity, Entity)>)
    ensures forall i :: 0 <= i < |q| ==> q[i].0 in s.commands && s.commands[q[i].0] == Mulligan(q[i].1)
  {
    var ids := CommandIds(s, (c: Command) => c.Mulligan?);
    seq(|ids|, i requires 0 <= i < |ids| => (ids[i], s.commands[ids[i]].mulliganPlayer))
  }

  function PutBottomQueue(s: State): (q: seq<(Entity, PutCardsBottomCommand)>)
    ensures forall i :: 0 <= i < |q| ==> q[i].0 in s.commands && s.commands[q[i].0] == PutCardsBottom(q[i].1)
  {
    var ids := CommandIds(s, (c: Command) => c.PutCardsBottom?);
    seq(|ids|, i requires 0 <= i < |ids| => (ids[i], s.commands[ids[i]].bottom))
  }

  function KeepQueue(s: State): (q: seq<(Entity, Entity)>)
    ensures forall i :: 0 <= i < |q| ==> q[i].0 in s.commands && s.commands[q[i].0] == KeepHand(q[i].1)
  {
    var ids := CommandIds(s, (c: Command) => c.KeepHand?);
    seq(|ids|, i requires 0 <= i < |ids| => (ids[i], s.commands[ids[i]].keepPlayer))
  }

  function RunMulligans(s: State, q: seq<(Entity, Entity)>, shuffle: Shuffler): Outcome
    decreases |q|
  {
    if q == [] then Running(s)
    else
      match MulliganStep(s, q[0].0, q[0].1, shuffle)
      case Crashed => Crashed
      case Running(t) => RunMulligans(t, q[1..], shuffle)
  }

  function RunPutBottoms(s: State, q: seq<(Entity, PutCardsBottomCommand)>): Outcome
    decreases |q|
  {
    if q == [] then Running(s)
    else
      match PutBottomStep(s, q[0].0, q[0].1)
      case Crashed => Crashed
      case Running(t) => RunPutBottoms(t, q[1..])
  }

  function RunKeeps(s: State, q: seq<(Entity, Entity)>): State
    decreases |q|
  {
    if q == [] then s else RunKeeps(KeepStep(s, q[0].0, q[0].1), q[1..])
  }

  /** The commands processed, then the start check. */
  function MulliganRound(s: State, shuffle: Shuffler): Outcome {
    match RunMulligans(s, MulliganQueue(s), shuffle)
    case Crashed => Crashed
    case Running(s1) =>
      match RunPutBottoms(s1, PutBottomQueue(s1))
      case Crashed => Crashed
      case Running(s2) =>
        Running(StartCheck(RunKeeps(s2, KeepQueue(s2))))
  }

  /** The game starts once every player has kept a hand. */
  function StartCheck(s: State): State {
    if AllKept(s) then StartGame(s) else s
  }

  /** `MulliganSystem.process`: nothing happens outside the MULLIGAN phase. */
  function MulliganSystem(s: State, shuffle: Shuffler): (r: Outcome)
    ensures !InMulliganPhase(s) ==> r == Running(s)
  {
    if !InMulliganPhase(s) then Running(s) else MulliganRound(s, shuffle)
  }

  // ----- properties -----

  /** The cards of `p` in the hand and in the deck. */
  function Total(s: State, p: Entity): nat
    requires p in s.decks
  {
    |HandSet(s, p)| + |s.decks[p]|
  }

  /** From `a` to `b` only decks, markers and the entity table change. */
  predicate CardsMoved(a: State, b: State) {
    b == a.(decks := b.decks, marks := b.marks, alive := b.alive)
  }

  /** Only the `InHand` and `InDeck` markers of `a` and `b` may differ. */
  ghost predicate OtherMarksAlike(a: State, b: State) {
    forall e, m :: m != InHand && m != InDeck ==> (Has(a, e, m) <==> Has(b, e, m))
  }

  lemma OtherMarksSame(a: State, b: State)
    requires a.marks == b.marks
    ensures OtherMarksAlike(a, b)
  {
  }

  lemma OtherMarksTrans(a: State, b: State, c: State)
    requires OtherMarksAlike(a, b) && OtherMarksAlike(b, c)
    ensures OtherMarksAlike(a, c)
  {
  }

  /**
   * Returning distinct cards of `p`'s hand keeps the deck sound: each card
   * leaves the hand, and the deck grows by one id per card.
   */
  lemma {:induction false} ReturnCardsSound(s: State, p: Entity, cards: seq<Entity>)
    requires p in s.decks && DeckSound(s, p) && Distinct(cards)
    requires forall c :: c in cards ==> c in s.owners && s.owners[c] == p && Has(s, c, InHand)
    ensures var r := ReturnCards(s, p, cards);
      && DeckSound(r, p)
      && |r.decks[p]| == |s.decks[p]| + |cards|
      && (forall c :: c in HandSet(r, p) <==> c in HandSet(s, p) && c !in cards)
      && CardsMoved(s, r) && OtherMarksAlike(r, s)
    decreases |cards|
  {
    if cards != [] {
      var c := cards[0];
      var d := s.decks[p];
      var t := PutUnder(s, p, c);
      DistinctTail(cards);
      assert c !in d;
      assert multiset(d + [c]) == multiset(d) + multiset{c};
      forall x ensures multiset(d + [c])[x] <= 1 {
      }
      forall x | x in d + [c]
        ensures x in t.owners && t.owners[x] == p && Has(t, x, InDeck) && !Has(t, x, InHand)
      {
        if x != c { assert x in d; }
      }
      assert DeckSound(t, p);
      forall x | x in cards[1..]
        ensures x in t.owners && t.owners[x] == p && Has(t, x, InHand)
      {
        assert x in cards && x != c;
      }
      ReturnCardsSound(t, p, cards[1..]);
      forall x ensures x in HandSet(ReturnCards(s, p, cards), p) <==> x in HandSet(s, p) && x !in cards {
        assert x in cards <==> x == c || x in cards[1..];
      }
    }
  }

  /** Returning the hand empties it and keeps the deck sound, one id per returned card added. */
  lemma ReturnHandSound(s: State, p: Entity)
    requires p in s.decks && DeckSound(s, p)
    ensures var r := ReturnHand(s, p);
      && HandSet(r, p) == {} && DeckSound(r, p) && Total(r, p) == Total(s, p)
      && CardsMoved(s, r) && OtherMarksAlike(r, s)
  {
    var h := HandSet(s, p);
    var a := Ascending(h);
    IncreasingDistinct(a);
    ReturnCardsSound(s, p, a);
    var r := ReturnHand(s, p);
    assert forall c :: c !in HandSet(r, p);
  }

  /** A shuffled deck holds the same ids, so it stays sound. */
  lemma ShuffleSound(s: State, p: Entity, shuffle: Shuffler)
    requires p in s.decks && DeckSound(s, p)
    ensures var r := ShuffleDeck(s, p, shuffle);
      && DeckSound(r, p) && HandSet(r, p) == HandSet(s, p) && Total(r, p) == Total(s, p)
      && r == s.(decks := r.decks)
  {
    var r := ShuffleDeck(s, p, shuffle);
    var q := r.decks[p];
    assert multiset(q) == multiset(s.decks[p]);
    forall c | c in q
      ensures c in r.owners && r.owners[c] == p && Has(r, c, InDeck) && !Has(r, c, InHand)
    {
      assert c in multiset(q);
      assert c in s.decks[p];
    }
    assert |q| == |multiset(q)|;
  }

  /** One card drawn from a sound deck: one more card in hand, one fewer in the deck. */
  lemma DrawOne(s: State, p: Entity)
    requires p in s.decks && DeckSound(s, p) && s.decks[p] != []
    ensures var card := s.decks[p][0];
      var s1 := s.(decks := s.decks[p := s.decks[p][1..]]);
      var r := Relabel(s1, card, InDeck, InHand);
      && Has(s1, card, InDeck)
      && DeckSound(r, p) && |HandSet(r, p)| == |HandSet(s, p)| + 1
      && CardsMoved(s, r) && OtherMarksAlike(r, s)
  {
    var d := s.decks[p];
    var card := d[0];
    var s1 := s.(decks := s.decks[p := d[1..]]);
    var r := Relabel(s1, card, InDeck, InHand);
    assert card in d;
    DistinctTail(d);
    forall c | c in d[1..]
      ensures c in r.owners && r.owners[c] == p && Has(r, c, InDeck) && !Has(r, c, InHand)
    {
      assert c in d && c != card;
    }
    assert card !in HandSet(s, p);
    assert HandSet(r, p) == HandSet(s, p) + {card};
  }

  /**
   * Drawing `k` cards from a sound deck never fails: `min(k, deck size)`
   * cards move from the deck to the hand and the deck stays sound.
   */
  lemma {:induction false} DrawCardsCounts(s: State, p: Entity, k: nat)
    requires p in s.decks && DeckSound(s, p)
    ensures var r := DrawCards(s, p, k);
      var n := if k < |s.decks[p]| then k else |s.decks[p]|;
      && r.Running? && DeckSound(r.s, p)
      && |HandSet(r.s, p)| == |HandSet(s, p)| + n
      && |r.s.decks[p]| == |s.decks[p]| - n
      && CardsMoved(s, r.s) && OtherMarksAlike(r.s, s)
    decreases k
  {
    if k != 0 && s.decks[p] != [] {
      var card := s.decks[p][0];
      var s1 := s.(decks := s.decks[p := s.decks[p][1..]]);
      var t := Relabel(s1, card, InDeck, InHand);
      DrawOne(s, p);
      DrawCardsCounts(t, p, k - 1);
      assert DrawCards(s, p, k) == DrawCards(t, p, k - 1);
    }
  }

  /**
   * A mulligan from a sound deck: the redraw never fails, the count goes up
   * by one, the hand and the deck together hold as many cards as before,
   * and the hand holds seven of them (all of them when there are fewer).
   */
  /** Two worlds that agree on `p`'s deck, the owners and the markers agree on `p`'s cards. */
  lemma SameCards(a: State, b: State, p: Entity)
    requires p in a.decks && p in b.decks && a.decks[p] == b.decks[p]
    requires a.owners == b.owners && a.marks == b.marks
    ensures DeckSound(a, p) <==> DeckSound(b, p)
    ensures HandSet(a, p) == HandSet(b, p) && Total(a, p) == Total(b, p)
    ensures OtherMarksAlike(a, b)
  {
  }

  /** The hand returned and the deck shuffled: an empty hand over a sound deck holding every card. */
  lemma PrepareSound(s: State, p: Entity, shuffle: Shuffler)
    requires p in s.mulligans && p in s.decks && DeckSound(s, p)
    ensures var r := Prepare(s, p, shuffle);
      && DeckSound(r, p) && HandSet(r, p) == {} && |r.decks[p]| == Total(s, p)
      && CardsMoved(s.(mulligans := s.mulligans[p := s.mulligans[p] + 1]), r) && OtherMarksAlike(r, s)
  {
    var s0 := s.(mulligans := s.mulligans[p := s.mulligans[p] + 1]);
    SameCards(s0, s, p);
    var s1 := ReturnHand(s0, p);
    ReturnHandSound(s0, p);
    ShuffleSound(s1, p, shuffle);
    var s2 := ShuffleDeck(s1, p, shuffle);
    OtherMarksSame(s2, s1);
    OtherMarksTrans(s2, s1, s0);
    OtherMarksTrans(s2, s0, s);
  }

  /**
   * A mulligan from a sound deck never fails: the count goes up by one, the
   * hand and the deck together hold as many cards as before, and the hand
   * holds seven of them (all of them when there are fewer).
   */
  lemma RedrawCounts(s: State, p: Entity, shuffle: Shuffler)
    requires p in s.mulligans && p in s.decks && DeckSound(s, p)
    ensures var r := Redraw(s, p, shuffle);
      && r.Running? && p in r.s.decks && DeckSound(r.s, p)
      && CardsMoved(s.(mulligans := s.mulligans[p := s.mulligans[p] + 1]), r.s)
      && Total(r.s, p) == Total(s, p)
      && |HandSet(r.s, p)| == (if Total(s, p) < 7 then Total(s, p) else 7)
  {
    PrepareSound(s, p, shuffle);
    DrawCardsCounts(Prepare(s, p, shuffle), p, 7);
  }

  /**
   * A MulliganCommand from a deciding player with a sound deck: the count
   * goes up by one, the hand and the deck together hold as many cards as
   * before and the hand holds seven of them (all of them when there are
   * fewer); the player leaves the decision phase, MULLIGAN_STATE_CHANGED is
   * sent and the command entity is gone.
   */
  lemma MulliganRedraws(s: State, cmdEnt: Entity, p: Entity, shuffle: Shuffler)
    requires Has(s, p, MulliganDecisionPhase) && p in s.mulligans && p in s.decks && DeckSound(s, p)
    requires cmdEnt != p && cmdEnt !in s.owners
    ensures var r := MulliganStep(s, cmdEnt, p, shuffle);
      && r.Running? && p in r.s.mulligans && p in r.s.decks
      && r.s.mulligans[p] == s.mulligans[p] + 1
      && Total(r.s, p) == Total(s, p)
      && |HandSet(r.s, p)| == (if Total(s, p) < 7 then Total(s, p) else 7)
      && DeckSound(r.s, p)
      && !Has(r.s, p, MulliganDecisionPhase)
      && r.s.events == s.events + [MulliganStateChanged]
      && !Exists(r.s, cmdEnt)
  {
    RedrawCounts(s, p, shuffle);
    var t := Redraw(s, p, shuffle).s;
    DecidedKeepsCards(t, cmdEnt, p);
    DecidedSound(t, cmdEnt, p);
    assert MulliganStep(s, cmdEnt, p, shuffle) == Running(Decided(t, cmdEnt, p));
  }

  /** Leaving the decision phase touches no card of `p` and no count. */
  lemma DecidedKeepsCards(s: State, cmdEnt: Entity, p: Entity)
    requires p in s.decks && p in s.mulligans && cmdEnt != p && cmdEnt !in s.owners
    ensures var r := Decided(s, cmdEnt, p);
      && p in r.decks && r.decks[p] == s.decks[p]
      && p in r.mulligans && r.mulligans[p] == s.mulligans[p]
      && HandSet(r, p) == HandSet(s, p)
  {
    var u := Emit(RemoveMark(s, p, MulliganDecisionPhase), MulliganStateChanged);
    assert HandSet(u, p) == HandSet(s, p);
  }

  /** Leaving the decision phase keeps a sound deck sound. */
  lemma DecidedSound(s: State, cmdEnt: Entity, p: Entity)
    requires p in s.decks && cmdEnt != p && cmdEnt !in s.owners && DeckSound(s, p)
    ensures var r := Decided(s, cmdEnt, p);
      p in r.decks && DeckSound(r, p)
  {
    var u := Emit(RemoveMark(s, p, MulliganDecisionPhase), MulliganStateChanged);
    assert DeckSound(u, p);
    DeleteKeepsSound(u, p, cmdEnt);
  }

  /** A PutCardsBottomCommand whose list length differs from the mulligan count changes nothing. */
  lemma PutBottomMismatch(s: State, cmdEnt: Entity, cmd: PutCardsBottomCommand)
    requires cmd.player in s.mulligans && |cmd.cards| != s.mulligans[cmd.player]
    ensures PutBottomStep(s, cmdEnt, cmd) == Running(s)
  {
  }

  /**
   * Putting cards back never fails when every listed id is an entity and
   * every listed id in a hand has an owner.  The deck grows at the bottom by
   * exactly the listed ids that are movable, in list order and each once,
   * and each of them leaves the hand for the deck; a sound deck stays sound;
   * nothing else changes.
   */
  lemma {:induction false} PutBackMoves(s: State, p: Entity, cards: seq<Entity>)
    requires p in s.decks
    requires forall c :: c in cards ==> Exists(s, c)
    requires forall c :: c in cards && Has(s, c, InHand) ==> c in s.owners
    ensures var r := PutBack(s, p, cards);
      && r.Running? && Bottomed(s, r.s, p, cards)
      && r.s.decks[p] == s.decks[p] + Moved(s, p, cards)
      && (DeckSound(s, p) ==> DeckSound(r.s, p))
      && r.s.owners == s.owners && r.s.mulligans == s.mulligans && r.s.events == s.events
    decreases |cards|
  {
    if cards != [] {
      var c := cards[0];
      var rest := cards[1..];
      var t := if Movable(s, p, c) then PutUnder(s, p, c) else s;
      OwnersStayKnown(s, p, cards);
      PutBackMoves(t, p, rest);
      var r := PutBack(t, p, rest).s;
      assert PutBack(s, p, cards) == Running(r);
      assert cards == [c] + rest;
      if Movable(s, p, c) {
        PutUnderStep(s, r, p, c, rest);
      } else {
        SkipStep(s, r, p, c, rest);
      }
      if DeckSound(s, p) {
        BottomedSound(s, r, p, cards);
      }
    }
  }

  /**
   * After the first id of `cards` is handled, every later id is still an
   * entity and every later id in a hand still has an owner.
   */
  lemma OwnersStayKnown(s: State, p: Entity, cards: seq<Entity>)
    requires p in s.decks && cards != []
    requires forall c :: c in cards ==> Exists(s, c)
    requires forall c :: c in cards && Has(s, c, InHand) ==> c in s.owners
    ensures var t := if Movable(s, p, cards[0]) then PutUnder(s, p, cards[0]) else s;
      && (forall c :: c in cards[1..] ==> Exists(t, c))
      && (forall c :: c in cards[1..] && Has(t, c, InHand) ==> c in t.owners)
  {
    var t := if Movable(s, p, cards[0]) then PutUnder(s, p, cards[0]) else s;
    assert cards[0] in cards;
    assert t.alive == s.alive;
    forall x | x in cards[1..] ensures Exists(t, x) {
      assert x in cards;
    }
    forall x | x in cards[1..] && Has(t, x, InHand) ensures x in t.owners {
      assert x in cards;
      assert x != cards[0] || !Movable(s, p, cards[0]);
    }
  }

  /**
   * Putting back stops the game loop when a listed id is not an entity:
   * handling the ids before it creates no entity and deletes none.
   */
  lemma {:induction false} PutBackMissing(s: State, p: Entity, cards: seq<Entity>)
    requires p in s.decks
    requires exists c :: c in cards && !Exists(s, c)
    ensures PutBack(s, p, cards) == Crashed
    decreases |cards|
  {
    var c := cards[0];
    if Exists(s, c) && !(Has(s, c, InHand) && c !in s.owners) {
      var t := if Movable(s, p, c) then PutUnder(s, p, c) else s;
      assert t.alive == s.alive;
      var x :| x in cards && !Exists(s, x);
      assert x in cards[1..];
      PutBackMissing(t, p, cards[1..]);
    }
  }

  /**
   * `r`'s deck is `s`'s with the movable listed ids added at the bottom in
   * list order, each moved to the deck.
   */
  ghost predicate Bottomed(s: State, r: State, p: Entity, cards: seq<Entity>)
    requires p in s.decks
  {
    var n := |s.decks[p]|;
    && p in r.decks && |r.decks[p]| >= n && r.decks[p][..n] == s.decks[p]
    && r.decks[p] == s.decks[p] + Moved(s, p, cards)
    && (forall c :: c in r.decks[p][n..] <==> c in cards && Movable(s, p, c))
    && Distinct(r.decks[p][n..])
    && (forall c :: c in cards && Movable(s, p, c) ==> Has(r, c, InDeck) && !Has(r, c, InHand))
    && (forall c, m :: !(c in cards && Movable(s, p, c)) ==> (Has(r, c, m) <==> Has(s, c, m)))
  }

  /** The step of `PutBackMoves` for a movable first id. */
  lemma PutUnderStep(s: State, r: State, p: Entity, c: Entity, rest: seq<Entity>)
    requires p in s.decks && Movable(s, p, c)
    requires Bottomed(PutUnder(s, p, c), r, p, rest)
    ensures Bottomed(s, r, p, [c] + rest)
  {
    var t := PutUnder(s, p, c);
    var cards := [c] + rest;
    var n := |s.decks[p]|;
    assert t.decks[p] == s.decks[p] + [c];
    MovedAfterPut(s, p, c, rest);
    var tail := r.decks[p][n + 1..];
    assert r.decks[p][n..] == [c] + tail;
    assert r.decks[p][..n] == t.decks[p][..n + 1][..n];
    assert !Movable(t, p, c);
    forall x ensures x in r.decks[p][n..] <==> x in cards && Movable(s, p, x) {
      assert x in r.decks[p][n..] <==> x == c || x in tail;
      if x != c {
        assert Movable(t, p, x) <==> Movable(s, p, x);
      }
    }
    assert c !in tail;
    assert multiset(r.decks[p][n..]) == multiset{c} + multiset(tail);
    forall x ensures multiset(r.decks[p][n..])[x] <= 1 {
      assert multiset(r.decks[p][n..])[x] == multiset{c}[x] + multiset(tail)[x];
    }
    forall x | x in cards && Movable(s, p, x)
      ensures Has(r, x, InDeck) && !Has(r, x, InHand)
    {
      if x != c { assert x in rest && Movable(t, p, x); }
    }
    forall x, m | !(x in cards && Movable(s, p, x))
      ensures Has(r, x, m) <==> Has(s, x, m)
    {
      assert x != c;
    }
  }

  /** A movable first id comes first, and the rest are picked as in the world after it moved. */
  lemma MovedAfterPut(s: State, p: Entity, c: Entity, rest: seq<Entity>)
    requires p in s.decks && Movable(s, p, c)
    ensures Moved(s, p, [c] + rest) == [c] + Moved(PutUnder(s, p, c), p, rest)
  {
    var cards := [c] + rest;
    assert cards[0] == c && cards[1..] == rest;
    var seen: set<Entity> := {};
    assert Moved(s, p, cards) == [c] + MovedFrom(s, p, rest, seen + {c});
    MovedAlike(s, PutUnder(s, p, c), p, rest, seen + {c}, seen);
  }

  /** The step of `PutBackMoves` for a first id that is not movable. */
  lemma SkipStep(s: State, r: State, p: Entity, c: Entity, rest: seq<Entity>)
    requires p in s.decks && !Movable(s, p, c)
    requires Bottomed(s, r, p, rest)
    ensures Bottomed(s, r, p, [c] + rest)
  {
    var cards := [c] + rest;
    assert cards[0] == c && cards[1..] == rest;
    assert Moved(s, p, cards) == Moved(s, p, rest);
    assert forall x :: x in cards && Movable(s, p, x) <==> x in rest && Movable(s, p, x);
  }

  /**
   * Two worlds with the same movable ids once the seen ones are set aside
   * pick the same ids in the same order.
   */
  lemma {:induction false} MovedAlike(s: State, t: State, p: Entity, cards: seq<Entity>, seen: set<Entity>, seen2: set<Entity>)
    requires forall x :: Movable(t, p, x) && x !in seen2 <==> Movable(s, p, x) && x !in seen
    ensures MovedFrom(t, p, cards, seen2) == MovedFrom(s, p, cards, seen)
    decreases |cards|
  {
    if cards != [] {
      var c := cards[0];
      if Movable(s, p, c) && c !in seen {
        MovedAlike(s, t, p, cards[1..], seen + {c}, seen2 + {c});
      } else {
        MovedAlike(s, t, p, cards[1..], seen, seen2);
      }
    }
  }

  /** Two lists without repeats and without a common id join into one without repeats. */
  lemma DistinctJoin(a: seq<Entity>, b: seq<Entity>)
    requires Distinct(a) && Distinct(b)
    requires forall x :: x in a ==> x !in b
    ensures Distinct(a + b)
  {
    assert multiset(a + b) == multiset(a) + multiset(b);
    forall x ensures multiset(a + b)[x] <= 1 {
      if x in a {
        assert x !in multiset(b);
      }
    }
  }

  /** Putting movable ids at the bottom of a sound deck keeps it sound. */
  lemma BottomedSound(s: State, r: State, p: Entity, cards: seq<Entity>)
    requires p in s.decks && Bottomed(s, r, p, cards) && r.owners == s.owners && DeckSound(s, p)
    ensures DeckSound(r, p)
  {
    var d := s.decks[p];
    var a := r.decks[p][|d|..];
    assert r.decks[p] == d + a;
    forall x | x in d ensures x !in a {
      assert !Movable(s, p, x);
    }
    DistinctJoin(d, a);
    forall x | x in r.decks[p]
      ensures x in r.owners && r.owners[x] == p && Has(r, x, InDeck) && !Has(r, x, InHand)
    {
      if x in d {
        assert !Movable(s, p, x);
        assert Has(r, x, InDeck) <==> Has(s, x, InDeck);
        assert Has(r, x, InHand) <==> Has(s, x, InHand);
      } else {
        assert x in a;
      }
    }
  }

  /** Deleting an entity that is neither `p` nor an owned card keeps `p`'s deck sound. */
  lemma DeleteKeepsSound(s: State, p: Entity, e: Entity)
    requires p in s.decks && p != e && e !in s.owners && DeckSound(s, p)
    ensures var r := DeleteEntity(s, e);
      p in r.decks && r.decks[p] == s.decks[p] && DeckSound(r, p)
  {
    var r := DeleteEntity(s, e);
    forall c | c in r.decks[p]
      ensures c in r.owners && r.owners[c] == p && Has(r, c, InDeck) && !Has(r, c, InHand)
    {
      assert c in s.owners && c != e;
      assert (c, InDeck) in s.marks;
    }
  }

  /**
   * A PutCardsBottomCommand with as many ids as the player's mulligan count
   * puts the movable ids at the bottom of the deck, in list order and each
   * once, and returns the player to the decision phase; the change is
   * announced and the command entity deleted.  A sound deck stays sound
   * when the command entity is not a card.
   */
  lemma PutBottomRestores(s: State, cmdEnt: Entity, cmd: PutCardsBottomCommand)
    requires cmd.player in s.mulligans && |cmd.cards| == s.mulligans[cmd.player] && cmd.player in s.decks
    requires forall c :: c in cmd.cards ==> Exists(s, c)
    requires forall c :: c in cmd.cards && Has(s, c, InHand) ==> c in s.owners
    requires cmdEnt != cmd.player
    ensures var r := PutBottomStep(s, cmdEnt, cmd);
      var p, n := cmd.player, |s.decks[cmd.player]|;
      && r.Running? && p in r.s.decks
      && |r.s.decks[p]| >= n && r.s.decks[p][..n] == s.decks[p]
      && (forall c :: c in r.s.decks[p][n..] <==> c in cmd.cards && Movable(s, p, c))
      && r.s.decks[p] == s.decks[p] + Moved(s, p, cmd.cards)
      && (DeckSound(s, p) && cmdEnt !in s.owners ==> DeckSound(r.s, p))
      && Has(r.s, p, MulliganDecisionPhase)
      && r.s.events == s.events + [MulliganStateChanged]
      && !Exists(r.s, cmdEnt)
  {
    var p := cmd.player;
    PutBackMoves(s, p, cmd.cards);
    var t := PutBack(s, p, cmd.cards).s;
    var u := Emit(AddMark(t, p, MulliganDecisionPhase), MulliganStateChanged);
    var r := DeleteEntity(u, cmdEnt);
    assert PutBottomStep(s, cmdEnt, cmd) == Running(r);
    assert r.decks[p] == t.decks[p];
    if DeckSound(s, p) && cmdEnt !in s.owners {
      assert DeckSound(u, p);
      DeleteKeepsSound(u, p, cmdEnt);
    }
  }

  /** A deciding player who keeps the hand leaves the decision phase with `KeptHand`. */
  lemma KeepHandKept(s: State, cmdEnt: Entity, p: Entity)
    requires Has(s, p, MulliganDecisionPhase) && cmdEnt != p
    ensures var r := KeepStep(s, cmdEnt, p);
      && Has(r, p, KeptHand) && !Has(r, p, MulliganDecisionPhase)
      && forall e, m :: e != p && e != cmdEnt ==> (Has(r, e, m) <==> Has(s, e, m))
  {
  }

  /** A KeepHandCommand from a player who is not deciding changes no marker but the command's. */
  lemma KeepHandIgnored(s: State, cmdEnt: Entity, p: Entity)
    requires !Has(s, p, MulliganDecisionPhase)
    ensures var r := KeepStep(s, cmdEnt, p);
      forall e, m :: e != cmdEnt ==> (Has(r, e, m) <==> Has(s, e, m))
  {
  }

  /**
   * Once the `KeptHand` holders are as many as the players, the first phase
   * entity says GAME_RUNNING and entity 1 holds the turn, announced by
   * TURN_STARTED; until then nothing changes.
   */
  lemma GameStarts(s: State)
    requires s.phases != map[]
    ensures var r := StartCheck(s);
      && (AllKept(s) ==>
            && r.phases == s.phases[Least(s.phases.Keys) := GameRunning]
            && Has(r, 1, ActiveTurn) && r.events == s.events + [TurnStarted(1)])
      && (!AllKept(s) ==> r == s)
  {
  }

  /** After the start the system is switched off: the phase is no longer MULLIGAN. */
  lemma StartedGameStops(s: State, shuffle: Shuffler)
    requires s.phases != map[]
    ensures MulliganSystem(StartGame(s), shuffle) == Running(StartGame(s))
  {
    var r := StartGame(s);
    assert r.phases.Keys == s.phases.Keys;
    assert r.phases[Least(r.phases.Keys)] == GameRunning;
  }
}
