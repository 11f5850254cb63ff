/**
 * The seat table of the server (`player_sessions` and the seat code of
 * `handle_client` in src/server/main.py): two seats, 1 and 2, each with a
 * connection (its writer), a status and the address of the last client.
 */
module Lobby {
  import opened Components

  /** A client connection, identified by its writer. */
  type Conn = int
  /** A peer address. */
  type Addr = string

  datatype Status = Connected | Disconnected

  datatype Session = Session(writer: Option<Conn>, status: Status, addr: Option<Addr>)

  /** The seats in the order the table is walked. */
  const Seats: seq<int> := [1, 2]

  /** A seat nobody has used yet. */
  const Empty: Session := Session(None, Status.Disconnected, None)

  /** The table the server starts with. */
  function InitialTable(): map<int, Session> {
    map[1 := Empty, 2 := Empty]
  }

  /** A table of the two seats. */
  predicate Seated(t: map<int, Session>) {
    t.Keys == {1, 2}
  }

  /** Every seat is connected exactly when it holds a writer, and a seat with a writer has an address. */
  predicate Paired(t: map<int, Session>)
    requires Seated(t)
  {
    forall k :: k in t ==> (t[k].status.Connected? <==> t[k].writer.Some?) && (t[k].writer.Some? ==> t[k].addr.Some?)
  }

  /** The first seat whose status is DISCONNECTED, if any. */
  function FreeSeat(t: map<int, Session>): (r: Option<int>)
    requires Seated(t)
    ensures r.Some? ==> r.value in t && t[r.value].status.Disconnected?
    ensures r.Some? ==> forall k :: k in t && k < r.value ==> t[k].status.Connected?
    ensures r.None? <==> forall k :: k in t ==> t[k].status.Connected?
  {
    assert forall k :: k in t <==> k == 1 || k == 2;
    if t[1].status.Disconnected? then Some(1)
    else if t[2].status.Disconnected? then Some(2)
    else None
  }

  /** The first seat whose writer is `w`, if any. */
  function SeatOf(t: map<int, Session>, w: Conn): (r: Option<int>)
    requires Seated(t)
    ensures r.Some? ==> r.value in t && t[r.value].writer == Some(w)
    ensures r.Some? ==> forall k :: k in t && k < r.value ==> t[k].writer != Some(w)
    ensures r.None? <==> forall k :: k in t ==> t[k].writer != Some(w)
  {
    assert forall k :: k in t <==> k == 1 || k == 2;
    if t[1].writer == Some(w) then Some(1)
    else if t[2].writer == Some(w) then Some(2)
    else None
  }

  /** What a connecting client is told. */
  datatype Admission = Seat(player: int, reconnect: bool) | GameFull

  /** The table after a client takes `seat`. */
  function Take(t: map<int, Session>, seat: int, w: Conn, a: Addr): map<int, Session> {
    t[seat := Session(Some(w), Connected, Some(a))]
  }

  class SessionTable {
    var table: map<int, Session>

    constructor ()
      ensures table == InitialTable()
    {
      table := InitialTable();
    }

    /**
     * A client connects: it takes the first disconnected seat, which counts
     * as a reconnection when that seat already had an address; with no free
     * seat it is told the game is full and the table is left alone.
     */
    method Connect(w: Conn, a: Addr) returns (r: Admission)
      requires Seated(table)
      modifies this
      ensures r == (match FreeSeat(old(table))
                    case None => GameFull
                    case Some(k) => Seat(k, old(table)[k].addr.Some?))
      ensures table == (if r.GameFull? then old(table) else Take(old(table), r.player, w, a))
    {
      var found: Option<int> := None;
      var reconnect := false;
      var i := 0;
      while i < |Seats| && found.None?
        invariant 0 <= i <= |Seats| && table == old(table)
        invariant found.None? ==> forall j :: 0 <= j < i ==> table[Seats[j]].status.Connected?
        invariant found.Some? ==> found == FreeSeat(table) && reconnect == table[found.value].addr.Some?
      {
        var k := Seats[i];
        assert Seats[0] == 1 && Seats[1] == 2;
        if table[k].status.Disconnected? {
          found := Some(k);
          reconnect := table[k].addr.Some?;
        }
        i := i + 1;
      }
      if found.None? {
        assert table[Seats[0]].status.Connected? && table[Seats[1]].status.Connected?;
        return GameFull;
      }
      table := Take(table, found.value, w, a);
      r := Seat(found.value, reconnect);
    }

    /**
     * The connection `w` ends: the first seat holding it becomes
     * DISCONNECTED without a writer, keeping its address.
     */
    method Disconnect(w: Conn) returns (seat: Option<int>)
      requires Seated(table)
      modifies this
      ensures seat == SeatOf(old(table), w)
      ensures table == (if seat.None? then old(table)
                        else old(table)[seat.value := old(table)[seat.value].(status := Status.Disconnected, writer := None)])
    {
      seat := None;
      var i := 0;
      while i < |Seats| && seat.None?
        invariant 0 <= i <= |Seats| && Seated(table)
        invariant seat.None? ==> forall j :: 0 <= j < i ==> table[Seats[j]].writer != Some(w)
        invariant seat.Some? ==> seat == SeatOf(old(table), w) && table == old(table)[seat.value := old(table)[seat.value].(status := Status.Disconnected, writer := None)]
        invariant seat.None? ==> table == old(table)
      {
        var k := Seats[i];
        assert Seats[0] == 1 && Seats[1] == 2;
        if table[k].writer == Some(w) {
          table := table[k := table[k].(status := Status.Disconnected, writer := None)];
          seat := Some(k);
        }
        i := i + 1;
      }
      if seat.None? {
        assert table[Seats[0]].writer != Some(w) && table[Seats[1]].writer != Some(w);
      }
    }
  }

  // ----- properties -----

  /** A connection keeps the table a table of two paired seats. */
  lemma ConnectKeepsPaired(t: map<int, Session>, w: Conn, a: Addr)
    requires Seated(t) && Paired(t)
    ensures FreeSeat(t).Some? ==> Seated(Take(t, FreeSeat(t).value, w, a)) && Paired(Take(t, FreeSeat(t).value, w, a))
  {
  }

  /** A disconnection keeps the table a table of two paired seats and touches only that seat. */
  lemma DisconnectKeepsPaired(t: map<int, Session>, w: Conn)
    requires Seated(t) && Paired(t) && SeatOf(t, w).Some?
    ensures var k := SeatOf(t, w).value;
      var t' := t[k := t[k].(status := Status.Disconnected, writer := None)];
      && Seated(t') && Paired(t') && t'[k].status.Disconnected? && t'[k].addr == t[k].addr
      && forall j :: j in t && j != k ==> t'[j] == t[j]
  {
  }

  /**
   * From the initial table, the first two clients take seats 1 and 2 as new
   * players and a third is turned away.
   */
  lemma FirstComers(w1: Conn, a1: Addr, w2: Conn, a2: Addr)
    ensures var t0 := InitialTable();
      && FreeSeat(t0) == Some(1) && t0[1].addr.None?
      && var t1 := Take(t0, 1, w1, a1);
      && FreeSeat(t1) == Some(2) && t1[2].addr.None?
      && var t2 := Take(t1, 2, w2, a2);
      && FreeSeat(t2).None?
  {
  }

  /** A client that returns to the seat it left is told it reconnected, and gets the seat back. */
  lemma ReturnIsReconnect(t: map<int, Session>, w: Conn, w': Conn, a: Addr)
    requires Seated(t) && Paired(t) && SeatOf(t, w) == Some(1)
    ensures var t' := t[1 := t[1].(status := Status.Disconnected, writer := None)];
      FreeSeat(t') == Some(1) && t'[1].addr.Some?
  {
  }
}
