/**
 * The delivery half of a server tick (`game_loop` and `broadcast` in
 * src/server/main.py): the event queue is drained, every event goes to
 * every live seat in order, and a full snapshot follows for each live seat
 * unless the tick's events say the clients should not get one yet.
 */
module Broadcast {
  import opened Components
  import opened Ecs
  import opened Lobby
  import opened Views

  // ----- the snapshot decision -----

  /** Every event of the tick is an ACTION_ERROR. */
  predicate AllInformational(evs: seq<Event>)
    decreases |evs|
  {
    evs == [] || (evs[0].ActionError? && AllInformational(evs[1..]))
  }

  /** Whether an event ends a phase whose animation the client plays first. */
  predicate EndsPhase(e: Event) {
    e.CombatResolved? || e.BlockersPhaseStarted?
  }

  /** Some event of the tick is COMBAT_RESOLVED or BLOCKERS_PHASE_STARTED. */
  predicate AnyPhaseEnd(evs: seq<Event>)
    decreases |evs|
  {
    evs != [] && (EndsPhase(evs[0]) || AnyPhaseEnd(evs[1..]))
  }

  /** Some event of the tick is GAME_OVER. */
  predicate AnyGameOver(evs: seq<Event>)
    decreases |evs|
  {
    evs != [] && (evs[0].GameOverEvent? || AnyGameOver(evs[1..]))
  }

  /** A non-empty tick is followed by full snapshots unless one of the three conditions holds. */
  predicate SendsSnapshot(evs: seq<Event>) {
    evs != [] && !AllInformational(evs) && !AnyPhaseEnd(evs) && !AnyGameOver(evs)
  }

  lemma {:induction false} AllInformationalMeans(evs: seq<Event>)
    ensures AllInformational(evs) <==> forall i :: 0 <= i < |evs| ==> evs[i].ActionError?
    decreases |evs|
  {
    if evs != [] {
      AllInformationalMeans(evs[1..]);
      assert forall i :: 1 <= i < |evs| ==> evs[i] == evs[1..][i - 1];
    }
  }

  lemma {:induction false} AnyPhaseEndMeans(evs: seq<Event>)
    ensures AnyPhaseEnd(evs) <==> exists i :: 0 <= i < |evs| && EndsPhase(evs[i])
    decreases |evs|
  {
    if evs != [] {
      AnyPhaseEndMeans(evs[1..]);
      if AnyPhaseEnd(evs[1..]) && !EndsPhase(evs[0]) {
        var i :| 0 <= i < |evs[1..]| && EndsPhase(evs[1..][i]);
        assert EndsPhase(evs[i + 1]);
      }
      if exists i :: 0 <= i < |evs| && EndsPhase(evs[i]) {
        var i :| 0 <= i < |evs| && EndsPhase(evs[i]);
        if i > 0 {
          assert EndsPhase(evs[1..][i - 1]);
        }
      }
    }
  }

  lemma {:induction false} AnyGameOverMeans(evs: seq<Event>)
    ensures AnyGameOver(evs) <==> exists i :: 0 <= i < |evs| && evs[i].GameOverEvent?
    decreases |evs|
  {
    if evs != [] {
      AnyGameOverMeans(evs[1..]);
      if AnyGameOver(evs[1..]) && !evs[0].GameOverEvent? {
        var i :| 0 <= i < |evs[1..]| && evs[1..][i].GameOverEvent?;
        assert evs[i + 1].GameOverEvent?;
      }
      if exists i :: 0 <= i < |evs| && evs[i].GameOverEvent? {
        var i :| 0 <= i < |evs| && evs[i].GameOverEvent?;
        if i > 0 {
          assert evs[1..][i - 1].GameOverEvent?;
        }
      }
    }
  }

  /**
   * The decision, event by event: a snapshot follows exactly when some
   * event is not an ACTION_ERROR and no event is COMBAT_RESOLVED,
   * BLOCKERS_PHASE_STARTED or GAME_OVER.
   */
  lemma SnapshotDecision(evs: seq<Event>)
    ensures SendsSnapshot(evs) <==>
      && (exists i :: 0 <= i < |evs| && !evs[i].ActionError?)
      && (forall i :: 0 <= i < |evs| ==> !EndsPhase(evs[i]) && !evs[i].GameOverEvent?)
  {
    AllInformationalMeans(evs);
    AnyPhaseEndMeans(evs);
    AnyGameOverMeans(evs);
  }

  // ----- delivery -----

  /** A seat is sent messages when it is CONNECTED and holds a writer. */
  predicate Live(t: map<int, Session>, k: int)
    requires Seated(t)
    requires k in t
  {
    t[k].status.Connected? && t[k].writer.Some?
  }

  /** The live seats, in the order of the table. */
  function Recipients(t: map<int, Session>): (ws: seq<int>)
    requires Seated(t)
    ensures forall k :: k in ws <==> k in t && Live(t, k)
    ensures StrictlyIncreasing(ws)
  {
    (if Live(t, 1) then [1] else []) + (if Live(t, 2) then [2] else [])
  }

  /** A message to the client of a seat. */
  datatype Message = EventTo(seat: int, event: Event) | StateTo(seat: int, snapshot: Snapshot)

  /** What a flush sent, and whether it stopped the game loop. */
  datatype Delivery = Delivery(sent: seq<Message>, stopped: bool)

  /** One event sent to each seat of `ws`, in order. */
  function Copies(e: Event, ws: seq<int>): (r: seq<Message>)
    decreases |ws|
  {
    if ws == [] then [] else [EventTo(ws[0], e)] + Copies(e, ws[1..])
  }

  /** The events broadcast one after the other. */
  function Fanout(evs: seq<Event>, ws: seq<int>): (r: seq<Message>)
    decreases |evs|
  {
    if evs == [] then [] else Copies(evs[0], ws) + Fanout(evs[1..], ws)
  }

  /**
   * The tailored snapshots for the seats of `ws`; a snapshot that cannot be
   * built raises inside the game loop, which stops there.
   */
  function Snapshots(s: State, ws: seq<int>): (d: Delivery)
    decreases |ws|
  {
    if ws == [] then Delivery([], false)
    else
      match SnapshotFor(s, ws[0])
      case None => Delivery([], true)
      case Some(v) =>
        var d := Snapshots(s, ws[1..]);
        Delivery([StateTo(ws[0], v)] + d.sent, d.stopped)
  }

  /**
   * One flush: with an empty queue nothing happens; otherwise the queue is
   * emptied, its events are broadcast, and the snapshots follow when the
   * decision says so.
   */
  function Flush(t: map<int, Session>, s: State): (State, Delivery)
    requires Seated(t)
  {
    if s.events == [] then (s, Delivery([], false))
    else
      var ws := Recipients(t);
      var s' := s.(events := []);
      var out := Fanout(s.events, ws);
      if SendsSnapshot(s.events) then
        var d := Snapshots(s', ws);
        (s', Delivery(out + d.sent, d.stopped))
      else (s', Delivery(out, false))
  }

  /** The events the client of seat `k` receives, in order. */
  function Received(msgs: seq<Message>, k: int): seq<Event>
    decreases |msgs|
  {
    if msgs == [] then []
    else (if msgs[0].EventTo? && msgs[0].seat == k then [msgs[0].event] else []) + Received(msgs[1..], k)
  }

  /** The snapshots the client of seat `k` receives, in order. */
  function States(msgs: seq<Message>, k: int): seq<Snapshot>
    decreases |msgs|
  {
    if msgs == [] then []
    else (if msgs[0].StateTo? && msgs[0].seat == k then [msgs[0].snapshot] else []) + States(msgs[1..], k)
  }

  // ----- properties -----

  lemma {:induction false} ReceivedAppend(a: seq<Message>, b: seq<Message>, k: int)
    ensures Received(a + b, k) == Received(a, k) + Received(b, k)
    ensures States(a + b, k) == States(a, k) + States(b, k)
  {
    EventsAppend(a, b, k);
    StatesAppend(a, b, k);
  }

  lemma {:induction false} EventsAppend(a: seq<Message>, b: seq<Message>, k: int)
    ensures Received(a + b, k) == Received(a, k) + Received(b, k)
    decreases |a|
  {
    if a == [] {
      assert a + b == b;
    } else {
      var h := if a[0].EventTo? && a[0].seat == k then [a[0].event] else [];
      assert (a + b)[0] == a[0] && (a + b)[1..] == a[1..] + b;
      EventsAppend(a[1..], b, k);
      assert Received(a + b, k) == h + Received(a[1..] + b, k);
      assert Received(a, k) == h + Received(a[1..], k);
    }
  }

  lemma {:induction false} StatesAppend(a: seq<Message>, b: seq<Message>, k: int)
    ensures States(a + b, k) == States(a, k) + States(b, k)
    decreases |a|
  {
    if a == [] {
      assert a + b == b;
    } else {
      var h := if a[0].StateTo? && a[0].seat == k then [a[0].snapshot] else [];
      assert (a + b)[0] == a[0] && (a + b)[1..] == a[1..] + b;
      StatesAppend(a[1..], b, k);
      assert States(a + b, k) == h + States(a[1..] + b, k);
      assert States(a, k) == h + States(a[1..], k);
    }
  }

  /** A seat hears an event once when it is among the strictly ordered seats, and not at all otherwise. */
  lemma {:induction false} CopiesReach(e: Event, ws: seq<int>, k: int)
    requires StrictlyIncreasing(ws)
    ensures Received(Copies(e, ws), k) == (if k in ws then [e] else [])
    ensures States(Copies(e, ws), k) == []
    decreases |ws|
  {
    if ws != [] {
      var c := Copies(e, ws);
      assert c == [EventTo(ws[0], e)] + Copies(e, ws[1..]);
      ReceivedAppend([EventTo(ws[0], e)], Copies(e, ws[1..]), k);
      assert StrictlyIncreasing(ws[1..]);
      CopiesReach(e, ws[1..], k);
      if ws[0] == k {
        assert k !in ws[1..] by {
          forall j | 0 <= j < |ws[1..]| ensures ws[1..][j] != k {
            assert ws[1..][j] == ws[j + 1];
          }
        }
      }
    }
  }

  /** Every seat of `ws` hears every event in the order of the queue; no other seat hears any. */
  lemma {:induction false} FanoutReach(evs: seq<Event>, ws: seq<int>, k: int)
    requires StrictlyIncreasing(ws)
    ensures Received(Fanout(evs, ws), k) == (if k in ws then evs else [])
    ensures States(Fanout(evs, ws), k) == []
    decreases |evs|
  {
    if evs != [] {
      ReceivedAppend(Copies(evs[0], ws), Fanout(evs[1..], ws), k);
      CopiesReach(evs[0], ws, k);
      FanoutReach(evs[1..], ws, k);
    }
  }

  /** Every seat of `ws` has a snapshot that can be built. */
  predicate AllBuild(s: State, ws: seq<int>) {
    forall i :: 0 <= i < |ws| ==> SnapshotFor(s, ws[i]).Some?
  }

  /**
   * Snapshots reach exactly the seats of `ws`, each its own, while they can
   * be built; the loop stops at the first seat whose snapshot fails.
   */
  lemma {:induction false} SnapshotsReach(s: State, ws: seq<int>, k: int)
    requires StrictlyIncreasing(ws)
    ensures var d := Snapshots(s, ws);
      && Received(d.sent, k) == []
      && (d.stopped <==> !AllBuild(s, ws))
      && (!d.stopped ==> States(d.sent, k) == (if k in ws then [SnapshotFor(s, k).value] else []))
    decreases |ws|
  {
    if ws != [] {
      assert StrictlyIncreasing(ws[1..]);
      SnapshotsReach(s, ws[1..], k);
      var d := Snapshots(s, ws[1..]);
      assert forall i :: 1 <= i < |ws| ==> ws[i] == ws[1..][i - 1];
      if SnapshotFor(s, ws[0]).Some? {
        var v := SnapshotFor(s, ws[0]).value;
        ReceivedAppend([StateTo(ws[0], v)], d.sent, k);
        if ws[0] == k {
          assert k !in ws[1..] by {
            forall j | 0 <= j < |ws[1..]| ensures ws[1..][j] != k {
              assert ws[1..][j] == ws[j + 1];
            }
          }
        }
      }
    }
  }

  /** An empty queue sends nothing and changes nothing. */
  lemma QuietTick(t: map<int, Session>, s: State)
    requires Seated(t) && s.events == []
    ensures Flush(t, s) == (s, Delivery([], false))
  {
  }

  /**
   * A tick with events: the queue is emptied and nothing else in the world
   * changes; each live seat receives every event in order and nobody else
   * receives any; the snapshots go out exactly when the decision allows,
   * one to each live seat, its own.
   */
  lemma FlushDelivers(t: map<int, Session>, s: State, k: int)
    requires Seated(t) && s.events != []
    ensures var (s', d) := Flush(t, s);
      && s' == s.(events := [])
      && Received(d.sent, k) == (if k in t && Live(t, k) then s.events else [])
      && (!SendsSnapshot(s.events) ==> !d.stopped && States(d.sent, k) == [])
      && (SendsSnapshot(s.events) && !d.stopped ==>
            States(d.sent, k) == (if k in t && Live(t, k) then [SnapshotFor(s', k).value] else []))
  {
    var ws := Recipients(t);
    var s' := s.(events := []);
    FanoutReach(s.events, ws, k);
    if SendsSnapshot(s.events) {
      ReceivedAppend(Fanout(s.events, ws), Snapshots(s', ws).sent, k);
      SnapshotsReach(s', ws, k);
    }
  }

  /** A tick whose events are all ACTION_ERROR sends no snapshot. */
  lemma ErrorsOnlyNoSnapshot(evs: seq<Event>)
    requires forall i :: 0 <= i < |evs| ==> evs[i].ActionError?
    ensures !SendsSnapshot(evs)
  {
    AllInformationalMeans(evs);
  }

  /** In a table whose seats are paired, the live seats are the CONNECTED ones. */
  lemma LiveIsConnected(t: map<int, Session>)
    requires Seated(t) && Paired(t)
    ensures forall k :: k in Recipients(t) <==> k in t && t[k].status.Connected?
  {
  }
}
