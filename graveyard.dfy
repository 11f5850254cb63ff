/**
 * `_move_to_graveyard` (src/server/systems.py): the shared helper that puts a
 * dead creature or a resolved spell into its owner's graveyard.
 */
module GraveyardRules {
  import opened Components
  import opened Ecs

  /**
   * Moves card `c` to its owner's graveyard: the id is appended to the
   * owner's `Graveyard` list, `OnBoard` and `InHand` are removed and
   * `InGraveyard` is added.  A card without an owner, or whose owner has no
   * graveyard, is deleted instead.  Either way a CARD_DIED event is sent.
   * A card that does not exist is left alone.
   */
  function MoveToGraveyard(s: State, c: Entity): (r: State)
    ensures !Exists(s, c) ==> r == s
    ensures Exists(s, c) ==> r.events == s.events + [CardDied(c)]
    ensures r.nextId == s.nextId
  {
    if !Exists(s, c) then s
    else if c in s.owners && s.owners[c] in s.graveyards then
      // removing `OnBoard` and `InHand` and adding `InGraveyard` leaves the
      // existing card in the entity table
      var g := s.owners[c];
      var marks := s.marks - {(c, OnBoard), (c, InHand)} + {(c, InGraveyard)};
      Emit(s.(graveyards := s.graveyards[g := s.graveyards[g] + [c]], marks := marks), CardDied(c))
    else
      Emit(DeleteEntity(s, c), CardDied(c))
  }

  /** Whether `c` goes to a graveyard rather than being deleted. */
  predicate HasGraveyard(s: State, c: Entity) {
    c in s.owners && s.owners[c] in s.graveyards
  }

  /**
   * A card whose owner keeps a graveyard becomes the last entry of that
   * graveyard; no other record, and not the entity table, changes.
   */
  lemma ToOwnGraveyard(s: State, c: Entity)
    requires Exists(s, c) && HasGraveyard(s, c)
    ensures var r := MoveToGraveyard(s, c);
      var g := s.owners[c];
      r == s.(graveyards := s.graveyards[g := s.graveyards[g] + [c]], marks := r.marks, events := r.events)
  {
  }

  /**
   * A card moved to its owner's graveyard is `InGraveyard` and neither in
   * hand nor on the board; no other marker changes.
   */
  lemma GraveyardMarks(s: State, c: Entity)
    requires Exists(s, c) && HasGraveyard(s, c)
    ensures var r := MoveToGraveyard(s, c);
      && Has(r, c, InGraveyard) && !Has(r, c, InHand) && !Has(r, c, OnBoard)
      && (forall m :: m != InGraveyard && m != InHand && m != OnBoard ==> (Has(r, c, m) <==> Has(s, c, m)))
  {
  }

  /** A card without an owner or whose owner keeps no graveyard is deleted; every other entity stays. */
  lemma ToNowhere(s: State, c: Entity)
    requires Exists(s, c) && !HasGraveyard(s, c)
    ensures var r := MoveToGraveyard(s, c);
      && !Exists(r, c)
      && (forall x :: x != c ==> (Exists(r, x) <==> Exists(s, x)))
  {
    var d := DeleteEntity(s, c);
    assert MoveToGraveyard(s, c) == Emit(d, CardDied(c));
    assert forall x :: Exists(Emit(d, CardDied(c)), x) == Exists(d, x);
  }

  /** Moving a card to the graveyard leaves every other entity's markers alone. */
  lemma OthersKeepMarks(s: State, c: Entity)
    ensures var r := MoveToGraveyard(s, c);
      forall e, m :: e != c ==> (Has(r, e, m) <==> Has(s, e, m))
  {
    if Exists(s, c) && !HasGraveyard(s, c) {
      assert MoveToGraveyard(s, c).marks == MarksWithout(s.marks, c);
    }
  }

  /** Moving a card to the graveyard adds no marker but `InGraveyard`. */
  lemma OnlyGraveyardMarkAdded(s: State, c: Entity)
    ensures var r := MoveToGraveyard(s, c);
      forall e, m :: m != InGraveyard && Has(r, e, m) ==> Has(s, e, m)
  {
    OthersKeepMarks(s, c);
    if Exists(s, c) && HasGraveyard(s, c) {
      GraveyardMarks(s, c);
    } else if Exists(s, c) {
      ToNowhere(s, c);
      assert MoveToGraveyard(s, c).marks == MarksWithout(s.marks, c);
    }
  }

  /** Moving a card to the graveyard keeps every marked entity in the entity table. */
  lemma MoveTracked(s: State, c: Entity)
    requires Tracked(s)
    ensures Tracked(MoveToGraveyard(s, c))
  {
    if Exists(s, c) {
      if HasGraveyard(s, c) {
        forall x, k | Has(MoveToGraveyard(s, c), x, k)
          ensures Exists(MoveToGraveyard(s, c), x)
        {
          if x != c {
            assert Has(s, x, k);
          }
        }
      } else {
        DeleteEntityTracked(s, c);
        var d := DeleteEntity(s, c);
        assert MoveToGraveyard(s, c) == Emit(d, CardDied(c));
        TrackedAlike(d, Emit(d, CardDied(c)));
      }
    }
  }
}
