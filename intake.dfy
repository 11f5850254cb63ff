/**
 * Command intake (the message branch of `handle_client` in
 * src/server/main.py): a client's decoded JSON line either becomes a command
 * entity stamped with the client's seat, is refused because it is not the
 * client's turn, is dropped without a command, is relayed as chat, or ends
 * the client's connection handler (an exception other than a JSON decoding
 * error escapes it).
 */
module Intake {
  import opened Components
  import opened Ecs
  import opened TurnRules

  /** A decoded JSON value; numbers are integers. */
  datatype Json =
    | JNull
    | JBool(b: bool)
    | JNum(n: int)
    | JStr(str: string)
    | JArr(items: seq<Json>)
    | JObj(fields: seq<(string, Json)>)

  /** The value of `key` in an object's fields; a key given twice keeps its last value. */
  function Get(fields: seq<(string, Json)>, key: string): (r: Option<Json>)
    ensures r.None? <==> forall i :: 0 <= i < |fields| ==> fields[i].0 != key
    ensures r.Some? ==> exists i :: 0 <= i < |fields| && fields[i] == (key, r.value)
    decreases |fields|
  {
    if fields == [] then None
    else
      var last := fields[|fields| - 1];
      if last.0 == key then Some(last.1)
      else
        var r := Get(fields[..|fields| - 1], key);
        assert forall i :: 0 <= i < |fields| - 1 ==> fields[..|fields| - 1][i] == fields[i];
        r
  }

  /** `d.get(key, default)`. */
  function GetOr(fields: seq<(string, Json)>, key: string, default: Json): Json {
    match Get(fields, key)
    case None => default
    case Some(v) => v
  }

  /**
   * A payload value used as an entity id: a number is that entity, a
   * boolean is 1 or 0 (Python's `True == 1`), anything else is an id no
   * entity has.
   */
  function IdOf(v: Json): (e: Entity)
    ensures v.JNum? ==> e == v.n
    ensures !v.JNum? && !v.JBool? ==> e == NoEntity
  {
    match v
    case JNum(n) => n
    case JBool(b) => if b then 1 else 0
    case _ => NoEntity
  }

  function IdsOf(items: seq<Json>): (r: seq<Entity>)
    ensures |r| == |items| && forall i :: 0 <= i < |items| ==> r[i] == IdOf(items[i])
  {
    seq(|items|, i requires 0 <= i < |items| => IdOf(items[i]))
  }

  /** `target_id`: absent or null is no target. */
  function TargetOf(v: Option<Json>): (r: Option<Entity>)
    ensures r.None? <==> v.None? || v == Some(JNull)
  {
    match v
    case None => None
    case Some(JNull) => None
    case Some(x) => Some(IdOf(x))
  }

  /**
   * `attacker_ids` as the attack system iterates it: a list gives its ids,
   * a string its characters and an object its keys (no entity has either),
   * and a number, a boolean or null cannot be iterated.
   */
  function AttackerIds(v: Json): (r: Option<seq<Entity>>)
    ensures v.JArr? ==> r == Some(IdsOf(v.items))
    ensures v.JNull? || v.JBool? || v.JNum? <==> r.None?
  {
    match v
    case JArr(items) => Some(IdsOf(items))
    case JStr(str) => Some(seq(|str|, _ => NoEntity))
    case JObj(fields) => Some(seq(|fields|, _ => NoEntity))
    case _ => None
  }

  // ----- decimal keys -----

  predicate IsDigit(c: char) {
    '0' <= c <= '9'
  }

  predicate AllDigits(d: string) {
    forall i :: 0 <= i < |d| ==> IsDigit(d[i])
  }

  /** The number the decimal digits `d` spell. */
  function DigitsValue(d: string): (n: nat)
    requires AllDigits(d)
    decreases |d|
  {
    if d == [] then 0
    else DigitsValue(d[..|d| - 1]) * 10 + (d[|d| - 1] as int - '0' as int)
  }

  /**
   * `int(k)` on a key: an optional sign and at least one decimal digit;
   * anything else raises ValueError, written `None`.
   */
  function ParseInt(k: string): (r: Option<int>)
    ensures r.Some? ==> k != []
  {
    var (neg, d) := if k != [] && (k[0] == '-' || k[0] == '+') then (k[0] == '-', k[1..]) else (false, k);
    if d == [] || !AllDigits(d) then None
    else
      var v: int := DigitsValue(d);
      Some(if neg then -v else v)
  }

  /** The decimal digits of `n`, most significant first. */
  function ShowNat(n: nat): (d: string)
    ensures d != [] && AllDigits(d)
  {
    var last := ['0' + (n % 10) as char];
    if n < 10 then last else ShowNat(n / 10) + last
  }

  /** `str(n)`, as a client writes a blocker id into a JSON key. */
  function Show(n: int): (k: string) {
    if n < 0 then "-" + ShowNat(-n) else ShowNat(n)
  }

  lemma {:induction false} ShowNatValue(n: nat)
    ensures DigitsValue(ShowNat(n)) == n
  {
    var d := ShowNat(n);
    if n >= 10 {
      ShowNatValue(n / 10);
      assert d[..|d| - 1] == ShowNat(n / 10);
    }
  }

  /** Keys written by `str` read back as the same id. */
  lemma ParseShow(n: int)
    ensures ParseInt(Show(n)) == Some(n)
  {
    ShowNatValue(if n < 0 then -n else n);
    var d := ShowNat(if n < 0 then -n else n);
    if n < 0 {
      assert Show(n)[1..] == d;
    } else {
      assert Show(n)[0] != '-' && Show(n)[0] != '+' by { assert IsDigit(d[0]); }
    }
  }

  /**
   * Adding `key: v` to a dict kept as its entry list: an existing key keeps
   * its place and takes the new value; a new key goes last.
   */
  function Insert(entries: seq<(Entity, Entity)>, key: Entity, v: Entity): (r: seq<(Entity, Entity)>)
    ensures |r| == |entries| || |r| == |entries| + 1
    ensures (exists i :: 0 <= i < |entries| && entries[i].0 == key) ==> |r| == |entries|
    ensures forall i :: 0 <= i < |entries| ==> r[i] == if entries[i].0 == key then (key, v) else entries[i]
    ensures |r| == |entries| + 1 ==> r[|entries|] == (key, v)
    ensures (forall i :: 0 <= i < |entries| ==> entries[i].0 != key) ==> r == entries + [(key, v)]
  {
    if exists i :: 0 <= i < |entries| && entries[i].0 == key
    then seq(|entries|, i requires 0 <= i < |entries| => if entries[i].0 == key then (key, v) else entries[i])
    else entries + [(key, v)]
  }

  /** `{int(k): v for k, v in blocks.items()}`; a key that is not an integer raises ValueError (`None`). */
  function BlockEntries(fields: seq<(string, Json)>): (r: Option<seq<(Entity, Entity)>>)
    decreases |fields|
  {
    if fields == [] then Some([])
    else
      var last := fields[|fields| - 1];
      match BlockEntries(fields[..|fields| - 1])
      case None => None
      case Some(acc) =>
        match ParseInt(last.0)
        case None => None
        case Some(k) => Some(Insert(acc, k, IdOf(last.1)))
  }

  // ----- one message -----

  /** What the handler does with one line from the client at seat `seat`. */
  datatype Reply =
    | Created(cmd: Command)   // a command entity is created
    | OffTurn                 // ACTION_ERROR to the sender, no command
    | NoCommand               // nothing is created
    | Chat                    // relayed to everyone as chat
    | Dropped                 // the handler raises; the seat is disconnected

  /** The commands only the active player may send. */
  predicate Gated(ty: Option<Json>) {
    ty == Some(JStr("PLAY_CARD")) || ty == Some(JStr("DECLARE_ATTACKERS"))
    || ty == Some(JStr("END_TURN")) || ty == Some(JStr("TAP_LAND"))
  }

  /** `command.get("payload", {})`, which must be an object for `.get` to work. */
  function Payload(fields: seq<(string, Json)>): Option<seq<(string, Json)>> {
    match GetOr(fields, "payload", JObj([]))
    case JObj(p) => Some(p)
    case _ => None
  }

  /** The command a message of type `ty` from `seat` asks for, once the turn gate is passed. */
  function Build(seat: Entity, ty: Option<Json>, fields: seq<(string, Json)>): Reply {
    if ty == Some(JStr("END_TURN")) then Created(EndTurn(seat))
    else if ty == Some(JStr("MULLIGAN")) then Created(Mulligan(seat))
    else if ty == Some(JStr("KEEP_HAND")) then Created(KeepHand(seat))
    else if !(ty == Some(JStr("PLAY_CARD")) || ty == Some(JStr("TAP_LAND")) || ty == Some(JStr("DECLARE_BLOCKERS"))
              || ty == Some(JStr("DECLARE_ATTACKERS")) || ty == Some(JStr("PUT_CARDS_BOTTOM"))) then Chat
    else
      match Payload(fields)
      case None => Dropped
      case Some(p) =>
        if ty == Some(JStr("PLAY_CARD")) then
          var card := Get(p, "card_entity_id");
          if card.None? || card == Some(JNull) then NoCommand
          else Created(PlayCard(PlayCardCommand(seat, IdOf(card.value), TargetOf(Get(p, "target_id")))))
        else if ty == Some(JStr("TAP_LAND")) then
          var card := Get(p, "card_entity_id");
          if card.None? || card == Some(JNull) then NoCommand
          else Created(TapLand(TapLandCommand(seat, IdOf(card.value))))
        else if ty == Some(JStr("DECLARE_BLOCKERS")) then
          match GetOr(p, "blocks", JObj([]))
          case JObj(b) =>
            (match BlockEntries(b)
             case None => Dropped
             case Some(entries) => Created(DeclareBlockers(DeclareBlockersCommand(seat, entries))))
          case _ => Dropped
        else if ty == Some(JStr("DECLARE_ATTACKERS")) then
          Created(DeclareAttackers(DeclareAttackersCommand(seat, AttackerIds(GetOr(p, "attacker_ids", JArr([]))))))
        else
          match GetOr(p, "card_ids", JArr([]))
          case JArr(items) => Created(PutCardsBottom(PutCardsBottomCommand(seat, IdsOf(items))))
          case _ => NoCommand
  }

  /**
   * One line from the client at `seat` while `active` holds the turn:
   * text that is not JSON and JSON that is not an object are chat; a gated
   * command off turn is refused; otherwise the command is built.
   */
  function Decode(seat: Entity, active: Entity, msg: Option<Json>): Reply {
    match msg
    case None => Chat
    case Some(JObj(fields)) =>
      var ty := Get(fields, "type");
      if Gated(ty) && seat != active then OffTurn
      else Build(seat, ty, fields)
    case Some(_) => Chat
  }

  /** A command entity holding `c` is created. */
  function Enqueue(s: State, c: Command): State {
    s.(commands := s.commands[s.nextId := c], alive := s.alive + {s.nextId}, nextId := s.nextId + 1)
  }

  /** The world after a line from `seat`; the turn is read from the `ActiveTurn` markers. */
  function Submit(s: State, seat: Entity, msg: Option<Json>): State {
    match Decode(seat, ActivePlayer(s), msg)
    case Created(c) => Enqueue(s, c)
    case _ => s
  }

  /** The seat a command speaks for. */
  function Sender(c: Command): Entity {
    match c
    case PlayCard(x) => x.player
    case EndTurn(p) => p
    case TapLand(x) => x.player
    case DeclareBlockers(x) => x.player
    case DeclareAttackers(x) => x.player
    case Mulligan(p) => p
    case KeepHand(p) => p
    case PutCardsBottom(x) => x.player
    case PlayerReady(p) => p
    case ReturnToLobby(p) => p
  }

  // ----- properties -----

  /**
   * The turn gate: a message is refused as off-turn exactly when it is an
   * object whose type is PLAY_CARD, DECLARE_ATTACKERS, END_TURN or TAP_LAND
   * and the sender does not hold the turn; the world is then unchanged.
   */
  lemma TurnGate(s: State, seat: Entity, msg: Option<Json>)
    ensures Decode(seat, ActivePlayer(s), msg) == OffTurn
        <==> msg.Some? && msg.value.JObj? && Gated(Get(msg.value.fields, "type")) && seat != ActivePlayer(s)
    ensures Decode(seat, ActivePlayer(s), msg) == OffTurn ==> Submit(s, seat, msg) == s
  {
  }

  /** Every command the intake creates speaks for the seat it came from, whatever the payload says. */
  lemma CommandsCarrySeat(seat: Entity, active: Entity, msg: Option<Json>)
    ensures Decode(seat, active, msg).Created? ==> Sender(Decode(seat, active, msg).cmd) == seat
  {
  }

  /** PLAY_CARD and TAP_LAND without a card id (absent or null) create nothing. */
  lemma MissingCardId(seat: Entity, active: Entity, ty: string, payload: seq<(string, Json)>)
    requires ty == "PLAY_CARD" || ty == "TAP_LAND"
    requires seat == active
    requires Get(payload, "card_entity_id").None? || Get(payload, "card_entity_id") == Some(JNull)
    ensures Decode(seat, active, Some(JObj([("type", JStr(ty)), ("payload", JObj(payload))]))) == NoCommand
  {
    var fields := [("type", JStr(ty)), ("payload", JObj(payload))];
    assert Get(fields, "type") == Some(JStr(ty));
    assert Get(fields, "payload") == Some(JObj(payload));
  }

  /** PUT_CARDS_BOTTOM creates a command exactly when `card_ids` (default: the empty list) is a list. */
  lemma PutBottomNeedsList(seat: Entity, active: Entity, payload: seq<(string, Json)>)
    ensures var r := Decode(seat, active, Some(JObj([("type", JStr("PUT_CARDS_BOTTOM")), ("payload", JObj(payload))])));
      var v := GetOr(payload, "card_ids", JArr([]));
      && (r.Created? <==> v.JArr?)
      && (v.JArr? ==> r.cmd == PutCardsBottom(PutCardsBottomCommand(seat, IdsOf(v.items))))
      && (!v.JArr? ==> r == NoCommand)
  {
    var fields := [("type", JStr("PUT_CARDS_BOTTOM")), ("payload", JObj(payload))];
    assert Get(fields, "type") == Some(JStr("PUT_CARDS_BOTTOM"));
    assert Get(fields, "payload") == Some(JObj(payload));
  }

  /** The keys of `fields` read as integers, in order. */
  function KeyInts(fields: seq<(string, Json)>): (r: Option<seq<int>>)
    ensures r.Some? ==> |r.value| == |fields|
    decreases |fields|
  {
    if fields == [] then Some([])
    else
      match (KeyInts(fields[..|fields| - 1]), ParseInt(fields[|fields| - 1].0))
      case (Some(ks), Some(k)) => Some(ks + [k])
      case _ => None
  }

  /** Each key paired with its field's value read as an id. */
  function Zip(ks: seq<int>, fields: seq<(string, Json)>): (r: seq<(Entity, Entity)>)
    requires |ks| == |fields|
    ensures |r| == |ks| && forall i :: 0 <= i < |ks| ==> r[i] == (ks[i], IdOf(fields[i].1))
  {
    seq(|ks|, i requires 0 <= i < |ks| => (ks[i], IdOf(fields[i].1)))
  }

  predicate NoRepeats(ks: seq<int>) {
    forall i, j :: 0 <= i < j < |ks| ==> ks[i] != ks[j]
  }

  /**
   * With every key an integer and no integer twice, the blocks are the
   * entries of the object in order, each key converted and each value read
   * as an id; a key that is not an integer drops the connection.
   */
  lemma {:induction false} BlocksConverted(fields: seq<(string, Json)>)
    ensures KeyInts(fields).None? <==> BlockEntries(fields).None?
    ensures KeyInts(fields).Some? && NoRepeats(KeyInts(fields).value) ==>
      BlockEntries(fields) == Some(Zip(KeyInts(fields).value, fields))
    decreases |fields|
  {
    if fields != [] {
      var init := fields[..|fields| - 1];
      BlocksConverted(init);
      var ki := KeyInts(init);
      if KeyInts(fields).Some? && NoRepeats(KeyInts(fields).value) {
        var ks := KeyInts(fields).value;
        assert ki.value == ks[..|init|];
        assert NoRepeats(ki.value);
        var last := fields[|fields| - 1];
        var k := ParseInt(last.0).value;
        assert ks == ki.value + [k];
        var acc := BlockEntries(init).value;
        assert forall i :: 0 <= i < |acc| ==> acc[i] == (ks[i], IdOf(fields[i].1));
        assert ks[|init|] == k;
        forall i | 0 <= i < |acc| ensures acc[i].0 != k {
          assert ks[i] != ks[|init|];
        }
        assert BlockEntries(fields) == Some(acc + [(k, IdOf(last.1))]);
        assert acc + [(k, IdOf(last.1))] == Zip(ks, fields);
      }
    }
  }

  /** A blocker id written with `str` by the client arrives as the same id. */
  lemma BlockKeyRoundTrip(blocker: Entity, attacker: Entity)
    ensures BlockEntries([(Show(blocker), JNum(attacker))]) == Some([(blocker, attacker)])
  {
    ParseShow(blocker);
    var fields := [(Show(blocker), JNum(attacker))];
    assert fields[..0] == [];
    assert BlockEntries(fields[..0]) == Some([]);
    assert Insert([], blocker, attacker) == [(blocker, attacker)];
  }

  /** A created command is a new command entity; nothing else in the world changes. */
  lemma SubmitCreates(s: State, seat: Entity, msg: Option<Json>)
    requires Decode(seat, ActivePlayer(s), msg).Created?
    ensures var r := Submit(s, seat, msg);
      && r.commands == s.commands[s.nextId := Decode(seat, ActivePlayer(s), msg).cmd]
      && r.nextId == s.nextId + 1
      && r == s.(commands := r.commands, alive := r.alive, nextId := r.nextId)
  {
  }
}
