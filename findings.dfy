/**
 * The `mana_pool` field as the new-game setup leaves it.  The setup builds
 * each player with only an id and a health, so `mana_pool` takes the
 * record's default, a fresh `ManaPool` of six counters (components.py:20),
 * while every rule system treats the field as an integer.  This module
 * keeps both readings side by side: the value the field can hold, what
 * `json.dumps` does with it when a snapshot carries it, and what the two
 * integer operations the systems apply to it (`+= 1` when a land is tapped,
 * `< cost` when a card is played) do with each.
 */
module ManaFinding {
  import opened Components

  /** What `mana_pool` can hold: the default counters record, or an integer. */
  datatype PoolValue = Counters(pool: ManaPool) | Amount(n: int)

  /** A player record as the rule systems see it, with the pool as it is stored. */
  datatype StoredPlayer = StoredPlayer(playerId: int, health: int, pool: PoolValue)

  /**
   * The player the setup creates as written: an id, 30 health, and the
   * default pool, a `ManaPool` with every counter at zero.
   */
  function AsWrittenPlayer(playerId: int): (p: StoredPlayer)
    ensures p.playerId == playerId && p.health == 30 && p.pool.Counters?
    ensures p.pool.pool == EmptyManaPool()
  {
    StoredPlayer(playerId, 30, Counters(EmptyManaPool()))
  }

  /** The player the rule systems expect: the integer pool of `NewPlayer`, 0. */
  function CorrectedPlayer(playerId: int): (p: StoredPlayer)
    ensures p.playerId == playerId && p.health == 30 && p.pool == Amount(0)
  {
    var q := NewPlayer(playerId);
    StoredPlayer(q.playerId, q.health, Amount(q.mana))
  }

  /**
   * `json.dumps` of the pool, which every snapshot carries for every
   * player (src/server/main.py:516): an integer is written as a JSON
   * number; a `ManaPool` record is not JSON-serialisable, so the call
   * raises TypeError (`None`).
   */
  function Dumps(v: PoolValue): (r: Option<int>)
    ensures r.Some? <==> v.Amount?
    ensures v.Amount? ==> r.value == v.n
  {
    match v
    case Amount(n) => Some(n)
    case Counters(_) => None
  }

  /**
   * What a newly seated client receives before the handler starts reading
   * its lines, and whether it gets that far.
   */
  datatype Greeting = Greeting(sent: seq<string>, reading: bool)

  /**
   * The connection handler after a seat is assigned (src/server/main.py:120-127):
   * ASSIGN_PLAYER_ID is sent, then the FULL_STATE_UPDATE snapshot, which
   * holds the pool of every player in `pools`.  `send_to_one` catches only
   * connection errors, so a pool that cannot be encoded raises out of the
   * handler before its `try`: nothing more is sent and no line of the client
   * is ever read; the `finally` that frees the seat does not run either.
   */
  function Greet(pools: seq<PoolValue>): (g: Greeting)
    ensures |g.sent| >= 1 && g.sent[0] == "ASSIGN_PLAYER_ID"
    ensures g.reading <==> forall i :: 0 <= i < |pools| ==> Dumps(pools[i]).Some?
    ensures g.reading <==> g.sent == ["ASSIGN_PLAYER_ID", "FULL_STATE_UPDATE"]
  {
    if forall i :: 0 <= i < |pools| ==> Dumps(pools[i]).Some? then
      Greeting(["ASSIGN_PLAYER_ID", "FULL_STATE_UPDATE"], true)
    else
      Greeting(["ASSIGN_PLAYER_ID"], false)
  }

  /**
   * `mana_pool += 1`: an integer grows by one; a `ManaPool` record has no
   * addition, so the statement raises a TypeError (`None`).
   */
  function AddOne(v: PoolValue): (r: Option<PoolValue>)
    ensures r.Some? <==> v.Amount?
    ensures v.Amount? ==> r.value == Amount(v.n + 1)
  {
    match v
    case Amount(n) => Some(Amount(n + 1))
    case Counters(_) => None
  }

  /**
   * `mana_pool < cost`: the comparison of an integer with the cost; a
   * `ManaPool` record has no ordering against an integer and raises (`None`).
   */
  function Below(v: PoolValue, cost: int): (r: Option<bool>)
    ensures r.Some? <==> v.Amount?
    ensures v.Amount? ==> (r.value <==> v.n < cost)
  {
    match v
    case Amount(n) => Some(n < cost)
    case Counters(_) => None
  }

  /**
   * As written, the pool of a freshly set-up player cannot be encoded, so
   * a client connecting to the two players the setup seats gets its id but
   * never its snapshot, and no line of it is ever read.  Only once that is
   * fixed are the rule systems reached, and then the first land a player
   * taps and the first non-land card they try to play, whatever its cost,
   * both raise: neither error is the KeyError the systems catch, so the
   * game loop stops.
   */
  lemma AsWrittenPoolBreaks(playerId: int, cost: int)
    ensures Dumps(AsWrittenPlayer(playerId).pool).None?
    ensures Greet([AsWrittenPlayer(1).pool, AsWrittenPlayer(2).pool]) == Greeting(["ASSIGN_PLAYER_ID"], false)
    ensures AddOne(AsWrittenPlayer(playerId).pool).None?
    ensures Below(AsWrittenPlayer(playerId).pool, cost).None?
  {
    var pools := [AsWrittenPlayer(1).pool, AsWrittenPlayer(2).pool];
    assert Dumps(pools[0]).None?;
  }

  /**
   * With the integer pool the rule systems expect, a connecting client gets
   * its id and its snapshot and is then read; a fresh player taps a land
   * for exactly one mana, can afford exactly the cards of cost at most
   * their pool, and after `k` taps holds `k` mana.
   */
  lemma CorrectedPoolWorks(playerId: int, cost: int)
    ensures Dumps(CorrectedPlayer(playerId).pool) == Some(0)
    ensures Greet([CorrectedPlayer(1).pool, CorrectedPlayer(2).pool])
      == Greeting(["ASSIGN_PLAYER_ID", "FULL_STATE_UPDATE"], true)
    ensures AddOne(CorrectedPlayer(playerId).pool) == Some(Amount(1))
    ensures Below(CorrectedPlayer(playerId).pool, cost) == Some(cost > 0)
    ensures CorrectedPlayer(playerId).pool == Amount(NewPlayer(playerId).mana)
  {
  }

  /** Tapping `k` lands one after another, stopping at the first failure. */
  function TapTimes(v: PoolValue, k: nat): Option<PoolValue>
    decreases k
  {
    if k == 0 then Some(v)
    else match AddOne(v)
      case None => None
      case Some(w) => TapTimes(w, k - 1)
  }

  /** From an integer pool, `k` taps add exactly `k`; from the default record, any tap fails. */
  lemma {:induction false} TapTimesAdds(v: PoolValue, k: nat)
    ensures v.Amount? ==> TapTimes(v, k) == Some(Amount(v.n + k))
    ensures v.Counters? && k > 0 ==> TapTimes(v, k).None?
    decreases k
  {
    if k > 0 && v.Amount? {
      TapTimesAdds(Amount(v.n + 1), k - 1);
    }
  }
}
